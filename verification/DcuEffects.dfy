/** What a transfer does, in closed form: which sectors and pages change, and what each IOCB reports. */
module DcuEffects {
  import opened Bytes
  import opened DcuModel
  import opened DcuChain

  // --- how far a sector run gets ------------------------------------------------------

  /** Exactly the first `k` of `n` sectors from `lba` on can be reached: all of them, or the next one fails. */
  ghost predicate Reaches(d: Drive, lba: nat, n: nat, k: nat) {
    && k <= n
    && (forall s :: lba <= s < lba + k ==> d.Ok(s))
    && (k < n ==> !d.Ok(lba + k))
  }

  /** Same sectors to reach, whatever they hold. */
  predicate SameShape(d: Drive, d': Drive) {
    |d'.sectors| == |d.sectors| && d'.bad == d.bad && d'.present == d.present
  }

  lemma MoveShape(c: Core, opcode: byte, u: nat, lba: nat, page: nat)
    requires CoreOk(c) && u < 2 && Move(c, opcode, u, lba, page).Some?
    ensures var c' := Move(c, opcode, u, lba, page).value;
      && CoreOk(c') && SameShape(c.drives[u], c'.drives[u]) && c'.drives[1 - u] == c.drives[1 - u]
      && c'.sectors == c.sectors && c'.heads == c.heads
  {
    hide Gather, Scatter;
  }

  lemma {:induction false} ListReaches(c: Core, opcode: byte, u: nat, lba: nat, pages: seq<nat>)
    requires CoreOk(c) && u < 2
    ensures var (c', k) := MoveList(c, opcode, u, lba, pages);
      && Reaches(c.drives[u], lba, |pages|, k)
      && SameShape(c.drives[u], c'.drives[u]) && c'.drives[1 - u] == c.drives[1 - u]
      && c'.sectors == c.sectors && c'.heads == c.heads
    decreases |pages|
  {
    if pages != [] {
      var next := Move(c, opcode, u, lba, pages[0]);
      if next != None {
        MoveShape(c, opcode, u, lba, pages[0]);
        ListReaches(next.value, opcode, u, lba + 1, pages[1..]);
        var (c', k) := MoveList(next.value, opcode, u, lba + 1, pages[1..]);
        assert next == Move(c, opcode, u, lba, pages[0]) && c.drives[u].Ok(lba);
        ReachesOneMore(c.drives[u], next.value.drives[u], lba, |pages|, k);
      }
    }
  }

  lemma ReachesOneMore(d: Drive, d': Drive, lba: nat, n: nat, k: nat)
    requires n > 0 && SameShape(d, d') && d.Ok(lba) && Reaches(d', lba + 1, n - 1, k)
    ensures Reaches(d, lba, n, k + 1)
  {
    forall s | lba <= s < lba + k + 1
      ensures d.Ok(s)
    {
      if s > lba {
        assert d'.Ok(s);
      }
    }
  }

  // --- writing --------------------------------------------------------------------------

  /** What a WRITE or FORMAT puts in a sector. */
  function Payload(mem: seq<byte>, opcode: byte, page: nat): Sector {
    if opcode == C_FORMAT then Zeros(512) else Gather(mem, page)
  }

  ghost predicate SectorsWritten(d: Drive, d': Drive, mem: seq<byte>, opcode: byte, lba: nat, pages: seq<nat>, k: nat) {
    && SameShape(d, d') && k <= |pages|
    && (forall s :: 0 <= s < |d.sectors| && !(lba <= s < lba + k) ==> d'.sectors[s] == d.sectors[s])
    && (forall i :: 0 <= i < k && lba + i < |d.sectors| ==> d'.sectors[lba + i] == Payload(mem, opcode, pages[i]))
  }

  /** A writing list leaves memory alone and puts page `i` in sector `lba + i`, as far as it gets; no other sector
      changes. */
  lemma {:induction false} ListWrites(c: Core, opcode: byte, u: nat, lba: nat, pages: seq<nat>)
    requires CoreOk(c) && u < 2 && Writes(opcode)
    ensures var (c', k) := MoveList(c, opcode, u, lba, pages);
      && c'.mem == c.mem
      && SectorsWritten(c.drives[u], c'.drives[u], c.mem, opcode, lba, pages, k)
    decreases |pages|
  {
    hide Gather;
    if pages != [] {
      var next := Move(c, opcode, u, lba, pages[0]);
      if next != None {
        ListWrites(next.value, opcode, u, lba + 1, pages[1..]);
        var (c', k) := MoveList(next.value, opcode, u, lba + 1, pages[1..]);
        WrittenOneMore(c.drives[u], next.value.drives[u], c'.drives[u], c.mem, opcode, lba, pages, k);
      }
    }
  }

  lemma WrittenOneMore(d: Drive, d1: Drive, d': Drive, mem: seq<byte>, opcode: byte, lba: nat, pages: seq<nat>, k: nat)
    requires pages != [] && d.Ok(lba) && d1 == d.(sectors := d.sectors[lba := Payload(mem, opcode, pages[0])])
    requires SectorsWritten(d1, d', mem, opcode, lba + 1, pages[1..], k)
    ensures SectorsWritten(d, d', mem, opcode, lba, pages, k + 1)
  {
    hide Payload;
    forall i | 0 <= i < k + 1 && lba + i < |d.sectors|
      ensures d'.sectors[lba + i] == Payload(mem, opcode, pages[i])
    {
      if i > 0 {
        assert pages[i] == pages[1..][i - 1];
        assert d'.sectors[lba + 1 + (i - 1)] == Payload(mem, opcode, pages[1..][i - 1]);
      }
    }
  }

  // --- reading --------------------------------------------------------------------------

  ghost predicate PagesDisjoint(size: nat, pages: seq<nat>) {
    && (forall i :: 0 <= i < |pages| ==> pages[i] + 512 <= size)
    && (forall i, j :: 0 <= i < j < |pages| ==> Apart(pages[i], 512, pages[j], 512))
  }

  lemma GatherScattered(mem: seq<byte>, page: nat, buf: Sector)
    requires |mem| <= 0x1_0000_0000 && page + 512 <= |mem|
    ensures Gather(Scatter(mem, page, buf), page) == buf
  {
    var m' := Scatter(mem, page, buf);
    forall b | 0 <= b < 512
      ensures Gather(m', page)[b] == buf[b]
    {
      assert ReadByte(m', page + b) == m'[page + b];
    }
  }

  lemma GatherSame(m: seq<byte>, m': seq<byte>, page: nat)
    requires SameAt(m, m', page, 512)
    ensures Gather(m', page) == Gather(m, page)
  {
    forall b | 0 <= b < 512
      ensures Gather(m', page)[b] == Gather(m, page)[b]
    {
      assert m'[page + b] == m[page + b];
    }
  }

  lemma DisjointTail(size: nat, pages: seq<nat>, opcode: byte)
    requires PagesDisjoint(size, pages) && pages != []
    ensures PagesDisjoint(size, pages[1..]) && PagesApart(size, opcode, pages[1..], pages[0], 512)
  {
    var rest := pages[1..];
    assert forall i :: 0 <= i < |rest| ==> rest[i] == pages[i + 1];
  }

  ghost predicate PagesFilled(mem: seq<byte>, d: Drive, lba: nat, pages: seq<nat>, k: nat) {
    && k <= |pages| && (k > 0 ==> lba + k <= |d.sectors|)
    && forall i :: 0 <= i < k ==> Gather(mem, pages[i]) == d.sectors[lba + i]
  }

  /** A reading list leaves the drives alone and fills page `i` from sector `lba + i`, as far as it gets. */
  lemma {:induction false} ListReads(c: Core, opcode: byte, u: nat, lba: nat, pages: seq<nat>)
    requires CoreOk(c) && u < 2 && !Writes(opcode) && PagesDisjoint(|c.mem|, pages)
    ensures var (c', k) := MoveList(c, opcode, u, lba, pages);
      c'.drives == c.drives && c'.tainted == c.tainted && PagesFilled(c'.mem, c.drives[u], lba, pages, k)
    decreases |pages|
  {
    hide Gather, Scatter, PagesDisjoint, PagesApart, PagesFilled;
    if pages == [] {
      FilledNone(c.mem, c.drives[u], lba, pages);
    } else {
      var next := Move(c, opcode, u, lba, pages[0]);
      if next == None {
        FilledNone(c.mem, c.drives[u], lba, pages);
      } else {
        PageInside(|c.mem|, pages, 0);
        DisjointTail(|c.mem|, pages, opcode);
        ListReads(next.value, opcode, u, lba + 1, pages[1..]);
        var (c', k) := MoveList(next.value, opcode, u, lba + 1, pages[1..]);
        GatherScattered(c.mem, pages[0], c.drives[u].sectors[lba]);
        MoveListApart(next.value, opcode, u, lba + 1, pages[1..], pages[0], 512);
        GatherSame(next.value.mem, c'.mem, pages[0]);
        FilledOneMore(c'.mem, c.drives[u], lba, pages, k);
      }
    }
  }

  lemma FilledNone(mem: seq<byte>, d: Drive, lba: nat, pages: seq<nat>)
    ensures PagesFilled(mem, d, lba, pages, 0)
  {
  }

  lemma FilledOneMore(mem: seq<byte>, d: Drive, lba: nat, pages: seq<nat>, k: nat)
    requires pages != [] && PagesFilled(mem, d, lba + 1, pages[1..], k)
    requires lba < |d.sectors| && Gather(mem, pages[0]) == d.sectors[lba]
    ensures PagesFilled(mem, d, lba, pages, k + 1)
  {
    hide Gather;
    forall i | 0 <= i < k + 1
      ensures Gather(mem, pages[i]) == d.sectors[lba + i]
    {
      if i > 0 {
        assert Gather(mem, pages[1..][i - 1]) == d.sectors[lba + 1 + (i - 1)];
      }
    }
  }

  lemma PageInside(size: nat, pages: seq<nat>, i: nat)
    requires PagesDisjoint(size, pages) && i < |pages|
    ensures pages[i] + 512 <= size
  {
  }

  // --- what the IOCBs report ------------------------------------------------------------------

  /** Chain bits as the sequence says: all but the last link go on. */
  ghost predicate Linked(links: seq<Link>) {
    forall i :: 0 <= i < |links| ==> (links[i].io.chain >= CHAINBIT <==> i < |links| - 1)
  }

  lemma {:induction false} ChainIsLinked(mem: seq<byte>, a: nat, links: seq<Link>)
    requires Chain(mem, a, links)
    ensures Linked(links)
    decreases |links|
  {
    hide LinkAt;
    if links[0].io.chain >= CHAINBIT {
      ChainIsLinked(mem, links[0].io.chain - CHAINBIT, links[1..]);
      forall i | 0 <= i < |links|
        ensures links[i].io.chain >= CHAINBIT <==> i < |links| - 1
      {
        if i > 0 {
          assert links[i] == links[1..][i - 1];
        }
      }
    }
  }

  /** Executed link `l` shows this residue and status. */
  ghost predicate Shows(mem: seq<byte>, l: Link, resid: nat, status: byte) {
    l.at + 28 <= |mem| && mem[l.at + 27] == resid && mem[l.at + 26] == status
  }

  lemma ReportShows(c: Core, l: Link, moved: nat)
    requires CoreOk(c) && Sized(l) && moved <= l.io.count && l.at + 28 <= |c.mem|
    ensures Shows(Report(c, l.at, l.io, moved).mem, l, l.io.count - moved,
      if moved < l.io.count || !UnitOk(c, l.io.unit) then ES_DRIVE
      else if l.io.chain >= CHAINBIT then ES_CHAIN else ES_DONE)
  {
  }

  lemma TransferPresence(c: Core, l: Link)
    requires CoreOk(c)
    ensures UnitOk(TransferList(c, l).0, l.io.unit) == UnitOk(c, l.io.unit)
  {
    if UnitOk(c, l.io.unit) {
      var c1 := Geometry(c, l.io.unit);
      hide MoveList;
      ListReaches(c1, l.io.opcode, l.io.unit, Lba(c1, l.io), l.pages);
    }
  }

  lemma LinkShows(c: Core, l: Link)
    requires CoreOk(c) && Sized(l) && l.at + 28 <= |c.mem|
    ensures var (c', moved) := RunLink(c, l);
      Shows(c'.mem, l, l.io.count - moved,
        if !Succeeds(c, l.io, moved) then ES_DRIVE else if l.io.chain >= CHAINBIT then ES_CHAIN else ES_DONE)
  {
    hide TransferList, Report, Shows;
    TransferPresence(c, l);
    ReportShows(TransferList(c, l).0, l, TransferList(c, l).1);
  }

  lemma ShowsKept(m: seq<byte>, m': seq<byte>, l: Link, resid: nat, status: byte)
    requires Shows(m, l, resid, status) && SameAt(m, m', l.at, 28)
    ensures Shows(m', l, resid, status)
  {
  }

  /** Memory that no link of the list writes is the same afterwards. */
  lemma {:induction false} LinksApart(c: Core, links: seq<Link>, a: nat, n: nat)
    requires CoreOk(c) && AllSized(links) && a + n <= |c.mem|
    requires forall i :: 0 <= i < |links| ==>
      links[i].at + 28 <= |c.mem| && PagesApart(|c.mem|, links[i].io.opcode, links[i].pages, a, n)
      && Apart(links[i].at + 26, 2, a, n)
    ensures SameAt(c.mem, RunLinks(c, links).0.mem, a, n)
    decreases |links|
  {
    hide RunLink, PagesApart, SameAt, Succeeds;
    if links == [] {
      SameRefl(c.mem, a, n);
    } else {
      var c1 := RunLink(c, links[0]).0;
      RunLinkApart(c, links[0], a, n);
      var rest := links[1..];
      forall i | 0 <= i < |rest|
        ensures rest[i].at + 28 <= |c.mem| && PagesApart(|c.mem|, rest[i].io.opcode, rest[i].pages, a, n)
        ensures Apart(rest[i].at + 26, 2, a, n) && Sized(rest[i])
      {
        assert rest[i] == links[i + 1];
      }
      LinksApart(c1, rest, a, n);
      SameTrans(c.mem, c1.mem, RunLinks(c1, rest).0.mem, a, n);
    }
  }

  lemma SameRefl(m: seq<byte>, a: nat, n: nat)
    requires a + n <= |m| <= 0x1_0000_0000
    ensures SameAt(m, m, a, n)
  {
  }

  /** Running the rest of a chain leaves an earlier link's report alone. */
  lemma RestKeeps(c: Core, links: seq<Link>)
    requires CoreOk(c) && AllSized(links) && links != [] && WellPlaced(|c.mem|, links)
    ensures AllSized(links[1..]) && SameAt(c.mem, RunLinks(c, links[1..]).0.mem, links[0].at, 28)
  {
    hide InRam, WritesApart, PagesApart, SameAt, RunLinks;
    var rest := links[1..];
    forall i | 0 <= i < |rest|
      ensures Sized(rest[i]) && rest[i].at + 28 <= |c.mem| && Apart(rest[i].at + 26, 2, links[0].at, 28)
      ensures PagesApart(|c.mem|, rest[i].io.opcode, rest[i].pages, links[0].at, 28)
    {
      assert rest[i] == links[i + 1] && links[0].at != links[i + 1].at;
      ApartStatus(|c.mem|, links[i + 1], links[0]);
      ApartPages(|c.mem|, links[i + 1], links[0]);
    }
    FirstInRam(|c.mem|, links);
    LinksApart(c, rest, links[0].at, 28);
  }

  lemma FirstInRam(size: nat, links: seq<Link>)
    requires WellPlaced(size, links) && links != []
    ensures links[0].at + 28 <= size
  {
    hide WritesApart;
    assert InRam(size, links[0]);
  }

  lemma ApartStatus(size: nat, w: Link, r: Link)
    requires InRam(size, w) && WritesApart(w, r) && w != r
    ensures w.at + 28 <= size && Apart(w.at + 26, 2, r.at, 28)
  {
  }

  /** Status shown by link `i` of a run that executed `n` links. */
  function StatusOf(i: nat, n: nat, ok: bool): byte {
    if i + 1 < n then 0x40 else if ok then 0x80 else 0x08
  }

  ghost predicate Reported(mem: seq<byte>, links: seq<Link>, ok: bool, moves: seq<nat>) {
    && 1 <= |moves| <= |links|
    && (forall i :: 0 <= i < |moves| ==>
          moves[i] <= links[i].io.count && Shows(mem, links[i], links[i].io.count - moves[i], StatusOf(i, |moves|, ok)))
    && (ok ==> |moves| == |links| && forall i :: 0 <= i < |moves| ==> moves[i] == links[i].io.count)
    && (forall i :: 0 <= i < |moves| - 1 ==> moves[i] == links[i].io.count)
  }

  /** After a chain: every link before the last executed shows 0x40, that one 0x80 or 0x08 as the run succeeded or
      failed, each a residue that adds up to its count; a link after a failure is untouched. */
  lemma {:induction false} ChainReports(c: Core, links: seq<Link>)
    requires CoreOk(c) && AllSized(links) && Linked(links) && links != [] && WellPlaced(|c.mem|, links)
    ensures var (c', ok, moves) := RunLinks(c, links);
      && Reported(c'.mem, links, ok, moves)
      && forall i :: |moves| <= i < |links| ==> SameAt(c.mem, c'.mem, links[i].at, 28)
    decreases |links|
  {
    hide InRam, WritesApart, WellPlaced, PagesApart, SameAt, RunLink, Shows, Succeeds;
    var l, rest := links[0], links[1..];
    FirstInRam(|c.mem|, links);
    PlacedTail(|c.mem|, links);
    LinkShows(c, l);
    var (c1, moved) := RunLink(c, l);
    TailParts(links);
    forall i | 1 <= i < |links|
      ensures SameAt(c.mem, c1.mem, links[i].at, 28)
    {
      assert links[i] == rest[i - 1];
      ApartLater(c, l, rest[i - 1]);
    }
    if Succeeds(c, l.io, moved) && rest != [] {
      ChainReports(c1, rest);
      var (c2, ok, moves) := RunLinks(c1, rest);
      RestKeeps(c1, links);
      ShowsKept(c1.mem, c2.mem, l, l.io.count - moved, ES_CHAIN);
      SucceedsMoved(c, l.io, moved);
      ReportedMore(c2.mem, links, ok, moves);
      forall i | |moves| + 1 <= i < |links|
        ensures SameAt(c.mem, c2.mem, links[i].at, 28)
      {
        assert links[i] == rest[i - 1];
        SameTrans(c.mem, c1.mem, c2.mem, links[i].at, 28);
      }
    } else if Succeeds(c, l.io, moved) {
      assert RunLinks(c1, rest) == (c1, true, []);
      assert [moved] + [] == [moved];
      SucceedsMoved(c, l.io, moved);
    }
  }

  lemma SucceedsMoved(c: Core, io: Iocb, moved: nat)
    requires CoreOk(c) && Succeeds(c, io, moved)
    ensures moved == io.count
  {
  }

  lemma TailParts(links: seq<Link>)
    requires AllSized(links) && Linked(links) && links != []
    ensures AllSized(links[1..]) && Linked(links[1..])
    ensures links[0].io.chain >= CHAINBIT <==> links[1..] != []
  {
    var rest := links[1..];
    assert forall i :: 0 <= i < |rest| ==> rest[i] == links[i + 1];
  }

  lemma ApartLater(c: Core, w: Link, r: Link)
    requires CoreOk(c) && Sized(w) && InRam(|c.mem|, w) && InRam(|c.mem|, r) && WritesApart(w, r) && w != r
    ensures SameAt(c.mem, RunLink(c, w).0.mem, r.at, 28)
  {
    hide RunLink, PagesApart;
    ApartPages(|c.mem|, w, r);
    RunLinkApart(c, w, r.at, 28);
  }

  lemma ReportedMore(mem: seq<byte>, links: seq<Link>, ok: bool, moves: seq<nat>)
    requires links != [] && Reported(mem, links[1..], ok, moves)
    requires Shows(mem, links[0], 0, ES_CHAIN)
    ensures Reported(mem, links, ok, [links[0].io.count] + moves)
  {
    hide Shows;
    var all := [links[0].io.count] + moves;
    forall i | 0 <= i < |all|
      ensures all[i] <= links[i].io.count
      ensures Shows(mem, links[i], links[i].io.count - all[i], StatusOf(i, |all|, ok))
      ensures ok || i < |all| - 1 ==> all[i] == links[i].io.count
    {
      if i > 0 {
        assert all[i] == moves[i - 1] && links[i] == links[1..][i - 1];
      }
    }
  }
}
