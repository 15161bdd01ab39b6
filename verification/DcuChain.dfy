/** The specification of a transfer: a chain decoded once, before anything moves, and a fold over its links.
    `LiveRefinesChain` proves that the engine, which reads the chain out of the memory it is writing to, does the
    same whenever no link writes where a link is read from. */
module DcuChain {
  import opened Bytes
  import opened DcuModel

  datatype Link = Link(at: nat, io: Iocb, pages: seq<nat>)

  function LinkAt(mem: seq<byte>, a: nat): (l: Link)
    ensures |l.pages| == l.io.count
    ensures l.io.count < 256
  {
    var io := Decode(mem, a);
    Link(a, io, seq(io.count, i requires 0 <= i => PageAt(mem, io.table, i)))
  }

  /** The chain of IOCBs that starts at `a` is `links`: it is finite and its last link has no chain bit. */
  ghost predicate Chain(mem: seq<byte>, a: nat, links: seq<Link>)
    decreases |links|
  {
    && links != []
    && links[0] == LinkAt(mem, a)
    && if links[0].io.chain >= CHAINBIT then Chain(mem, links[0].io.chain - CHAINBIT, links[1..]) else |links| == 1
  }

  // --- the fold -------------------------------------------------------------------------

  /** Move the sectors of a list of pages, up to the first the drive refuses. */
  function MoveList(c: Core, opcode: byte, u: nat, lba: nat, pages: seq<nat>): (r: (Core, nat))
    requires CoreOk(c) && u < 2
    ensures CoreOk(r.0) && |r.0.mem| == |c.mem| && r.1 <= |pages|
    decreases |pages|
  {
    if pages == [] then (c, 0) else
      var next := Move(c, opcode, u, lba, pages[0]);
      if next == None then (c, 0) else
        var (c', n) := MoveList(next.value, opcode, u, lba + 1, pages[1..]);
        (c', n + 1)
  }

  function TransferList(c: Core, l: Link): (r: (Core, nat))
    requires CoreOk(c)
    ensures CoreOk(r.0) && |r.0.mem| == |c.mem| && r.1 <= |l.pages|
  {
    if !UnitOk(c, l.io.unit) then (c, 0) else
      var c1 := Geometry(c, l.io.unit);
      MoveList(c1, l.io.opcode, l.io.unit, Lba(c1, l.io), l.pages)
  }

  ghost predicate Sized(l: Link) {
    |l.pages| == l.io.count < 256
  }

  function RunLink(c: Core, l: Link): (r: (Core, nat))
    requires CoreOk(c) && Sized(l)
    ensures CoreOk(r.0) && |r.0.mem| == |c.mem| && r.1 <= l.io.count
  {
    var (c1, moved) := TransferList(c, l);
    (Report(c1, l.at, l.io, moved), moved)
  }

  ghost predicate AllSized(links: seq<Link>) {
    forall i :: 0 <= i < |links| ==> Sized(links[i])
  }

  /** Links in order up to and including the first that fails; how many sectors each executed link moved. */
  function RunLinks(c: Core, links: seq<Link>): (r: (Core, bool, seq<nat>))
    requires CoreOk(c) && AllSized(links)
    ensures CoreOk(r.0) && |r.0.mem| == |c.mem| && |r.2| <= |links|
    decreases |links|
  {
    if links == [] then (c, true, []) else
      var (c1, moved) := RunLink(c, links[0]);
      if !Succeeds(c, links[0].io, moved) then (c1, false, [moved]) else
        var (c2, ok, rest) := RunLinks(c1, links[1..]);
        (c2, ok, [moved] + rest)
  }

  // --- placement --------------------------------------------------------------------------

  predicate Apart(a: nat, n: nat, b: nat, m: nat) {
    a + n <= b || b + m <= a
  }

  /** The 28 bytes of the IOCB, its table and, for a read, its pages lie in RAM of size `size`. */
  ghost predicate InRam(size: nat, l: Link) {
    && l.at + 28 <= size
    && l.io.table + 4 * l.io.count <= size
    && (!Writes(l.io.opcode) ==> forall i :: 0 <= i < |l.pages| ==> l.pages[i] + 512 <= size)
  }

  /** What running `w` writes, status bytes and pages read into, is apart from the IOCB and table of `r`. */
  ghost predicate WritesApart(w: Link, r: Link) {
    && Apart(w.at + 26, 2, r.io.table, 4 * r.io.count)
    && (w == r || Apart(w.at + 26, 2, r.at, 28))
    && (!Writes(w.io.opcode) ==> forall i :: 0 <= i < |w.pages| ==>
          Apart(w.pages[i], 512, r.at, 28) && Apart(w.pages[i], 512, r.io.table, 4 * r.io.count))
  }

  ghost predicate WellPlaced(size: nat, links: seq<Link>) {
    && size <= 0x1_0000_0000
    && (forall i :: 0 <= i < |links| ==> InRam(size, links[i]))
    && (forall i, j :: 0 <= i < |links| && 0 <= j < |links| ==> WritesApart(links[i], links[j]))
    && (forall i, j :: 0 <= i < j < |links| ==> links[i].at != links[j].at)
  }

  // --- memory a step leaves alone ------------------------------------------------------------

  ghost predicate SameAt(m: seq<byte>, m': seq<byte>, a: nat, n: nat) {
    && |m'| == |m| && a + n <= |m| <= 0x1_0000_0000
    && forall k :: a <= k < a + n ==> m'[k] == m[k]
  }

  lemma SameFields(m: seq<byte>, m': seq<byte>, a: nat, n: nat, k: nat)
    requires SameAt(m, m', a, n) && k + 4 <= n
    ensures Read32(m', a + k) == Read32(m, a + k) && Read16(m', a + k) == Read16(m, a + k)
    ensures ReadByte(m', a + k) == ReadByte(m, a + k)
  {
  }

  /** An IOCB that no one wrote to, but for its status and residue, decodes as before. */
  lemma SameDecode(m: seq<byte>, m': seq<byte>, a: nat)
    requires SameAt(m, m', a, 26)
    ensures Decode(m', a) == Decode(m, a)
  {
    SameFields(m, m', a, 26, 0);
    SameFields(m, m', a, 26, 3);
    SameFields(m, m', a, 26, 6);
    SameFields(m, m', a, 26, 8);
    SameFields(m, m', a, 26, 10);
    SameFields(m, m', a, 26, 22);
    hide Read16, Read32, ReadByte, SameAt;
  }

  /** So does one whose table, too, is as it was. */
  lemma SameLink(m: seq<byte>, m': seq<byte>, a: nat)
    requires SameAt(m, m', a, 26)
    requires SameAt(m, m', Decode(m, a).table, 4 * Decode(m, a).count)
    ensures LinkAt(m', a) == LinkAt(m, a)
  {
    hide Decode, Read32, SameAt;
    var io := Decode(m, a);
    SameDecode(m, m', a);
    forall i | 0 <= i < io.count
      ensures PageAt(m', io.table, i) == PageAt(m, io.table, i)
    {
      SameFields(m, m', io.table, 4 * io.count, 4 * i);
    }
    assert LinkAt(m', a).pages == LinkAt(m, a).pages;
  }

  lemma ScatterApart(m: seq<byte>, page: nat, buf: Sector, a: nat, n: nat)
    requires |m| <= 0x1_0000_0000 && page + 512 <= |m| && a + n <= |m| && Apart(page, 512, a, n)
    ensures SameAt(m, Scatter(m, page, buf), a, n)
  {
  }

  lemma SameTrans(m: seq<byte>, m': seq<byte>, m'': seq<byte>, a: nat, n: nat)
    requires SameAt(m, m', a, n) && SameAt(m', m'', a, n)
    ensures SameAt(m, m'', a, n)
  {
  }

  ghost predicate PagesApart(size: nat, opcode: byte, pages: seq<nat>, a: nat, n: nat) {
    !Writes(opcode) ==> forall i :: 0 <= i < |pages| ==> pages[i] + 512 <= size && Apart(pages[i], 512, a, n)
  }

  lemma MoveApart(c: Core, opcode: byte, u: nat, lba: nat, page: nat, a: nat, n: nat)
    requires CoreOk(c) && u < 2 && a + n <= |c.mem|
    requires !Writes(opcode) ==> page + 512 <= |c.mem| && Apart(page, 512, a, n)
    requires Move(c, opcode, u, lba, page).Some?
    ensures CoreOk(Move(c, opcode, u, lba, page).value)
    ensures SameAt(c.mem, Move(c, opcode, u, lba, page).value.mem, a, n)
  {
    hide Scatter, Gather;
    if !Writes(opcode) {
      ScatterApart(c.mem, page, c.drives[u].sectors[lba], a, n);
    }
  }

  lemma {:induction false} MoveListApart(c: Core, opcode: byte, u: nat, lba: nat, pages: seq<nat>, a: nat, n: nat)
    requires CoreOk(c) && u < 2 && a + n <= |c.mem| && PagesApart(|c.mem|, opcode, pages, a, n)
    ensures SameAt(c.mem, MoveList(c, opcode, u, lba, pages).0.mem, a, n)
    decreases |pages|
  {
    hide Move;
    if pages != [] {
      var next := Move(c, opcode, u, lba, pages[0]);
      if next != None {
        MoveApart(c, opcode, u, lba, pages[0], a, n);
        MoveListApart(next.value, opcode, u, lba + 1, pages[1..], a, n);
      }
    }
  }

  // --- the engine's sector loop is the fold -----------------------------------------------------

  lemma {:induction false} MoveLiveIsList(c: Core, io: Iocb, lba: nat, pages: seq<nat>, i: nat)
    requires CoreOk(c) && io.unit < 2 && |pages| == io.count && i <= io.count
    requires io.table + 4 * io.count <= |c.mem|
    requires PagesApart(|c.mem|, io.opcode, pages, io.table, 4 * io.count)
    requires forall j :: i <= j < io.count ==> PageAt(c.mem, io.table, j) == pages[j]
    ensures var r := MoveList(c, io.opcode, io.unit, lba + i, pages[i..]);
      MoveLive(c, io, lba, i) == (r.0, i + r.1)
    decreases io.count - i
  {
    hide Move, PageAt;
    if i < io.count {
      assert pages[i..][0] == pages[i] && pages[i..][1..] == pages[i + 1..];
      var next := Move(c, io.opcode, io.unit, lba + i, pages[i]);
      if next != None {
        MoveApart(c, io.opcode, io.unit, lba + i, pages[i], io.table, 4 * io.count);
        TableKept(c.mem, next.value.mem, io, pages, i + 1);
        MoveLiveIsList(next.value, io, lba, pages, i + 1);
      }
    }
  }

  lemma TableKept(m: seq<byte>, m': seq<byte>, io: Iocb, pages: seq<nat>, i: nat)
    requires SameAt(m, m', io.table, 4 * io.count) && |pages| == io.count
    requires forall j :: i <= j < io.count ==> PageAt(m, io.table, j) == pages[j]
    ensures forall j :: i <= j < io.count ==> PageAt(m', io.table, j) == pages[j]
  {
    hide Read16, Read32, ReadByte;
    forall j | i <= j < io.count
      ensures PageAt(m', io.table, j) == pages[j]
    {
      SameFields(m, m', io.table, 4 * io.count, 4 * j);
    }
  }

  lemma GeometryKeeps(c: Core, u: nat)
    requires CoreOk(c) && u < 2
    ensures CoreOk(Geometry(c, u)) && Geometry(c, u).mem == c.mem && Geometry(c, u).drives == c.drives
  {
  }

  lemma LinkPages(mem: seq<byte>, a: nat)
    ensures var l := LinkAt(mem, a);
      && l.io == Decode(mem, a) && |l.pages| == l.io.count
      && forall j :: 0 <= j < l.io.count ==> PageAt(mem, l.io.table, j) == l.pages[j]
  {
    hide PageAt, Decode;
  }

  lemma PlacedPages(size: nat, l: Link)
    requires InRam(size, l) && WritesApart(l, l)
    ensures l.io.table + 4 * l.io.count <= size
    ensures PagesApart(size, l.io.opcode, l.pages, l.io.table, 4 * l.io.count)
  {
  }

  lemma TransferIsList(c: Core, a: nat)
    requires CoreOk(c) && InRam(|c.mem|, LinkAt(c.mem, a)) && WritesApart(LinkAt(c.mem, a), LinkAt(c.mem, a))
    ensures TransferLive(c, Decode(c.mem, a)) == TransferList(c, LinkAt(c.mem, a))
  {
    hide Geometry, Decode, PageAt, MoveLive, MoveList, LinkAt, InRam, WritesApart, PagesApart;
    var l := LinkAt(c.mem, a);
    LinkPages(c.mem, a);
    PlacedPages(|c.mem|, l);
    if UnitOk(c, l.io.unit) {
      var c1 := Geometry(c, l.io.unit);
      GeometryKeeps(c, l.io.unit);
      MoveLiveIsList(c1, l.io, Lba(c1, l.io), l.pages, 0);
      assert l.pages[0..] == l.pages;
    }
  }

  // --- a link leaves the other links alone --------------------------------------------------------

  lemma ReportApart(c: Core, at: nat, io: Iocb, moved: nat, a: nat, n: nat)
    requires CoreOk(c) && moved <= io.count < 256 && at + 28 <= |c.mem| && a + n <= |c.mem| && Apart(at + 26, 2, a, n)
    ensures SameAt(c.mem, Report(c, at, io, moved).mem, a, n)
  {
  }

  lemma TransferApart(c: Core, l: Link, a: nat, n: nat)
    requires CoreOk(c) && a + n <= |c.mem| && PagesApart(|c.mem|, l.io.opcode, l.pages, a, n)
    ensures SameAt(c.mem, TransferList(c, l).0.mem, a, n)
  {
    hide MoveList, PagesApart;
    if UnitOk(c, l.io.unit) {
      GeometryKeeps(c, l.io.unit);
      var c1 := Geometry(c, l.io.unit);
      MoveListApart(c1, l.io.opcode, l.io.unit, Lba(c1, l.io), l.pages, a, n);
    }
  }

  lemma RunLinkApart(c: Core, l: Link, a: nat, n: nat)
    requires CoreOk(c) && Sized(l) && a + n <= |c.mem| && l.at + 28 <= |c.mem|
    requires PagesApart(|c.mem|, l.io.opcode, l.pages, a, n) && Apart(l.at + 26, 2, a, n)
    ensures SameAt(c.mem, RunLink(c, l).0.mem, a, n)
  {
    hide TransferList, Report, PagesApart, SameAt;
    var (c1, moved) := TransferList(c, l);
    TransferApart(c, l, a, n);
    ReportApart(c1, l.at, l.io, moved, a, n);
    SameTrans(c.mem, c1.mem, RunLink(c, l).0.mem, a, n);
  }

  lemma ApartPages(size: nat, w: Link, r: Link)
    requires InRam(size, w) && WritesApart(w, r)
    ensures PagesApart(size, w.io.opcode, w.pages, r.at, 28)
    ensures PagesApart(size, w.io.opcode, w.pages, r.io.table, 4 * r.io.count)
  {
  }

  lemma OtherLinkKept(c: Core, w: Link, r: Link)
    requires CoreOk(c) && Sized(w) && InRam(|c.mem|, w) && InRam(|c.mem|, r) && WritesApart(w, r) && w != r
    requires r == LinkAt(c.mem, r.at)
    ensures SameAt(c.mem, RunLink(c, w).0.mem, r.at, 28)
    ensures LinkAt(RunLink(c, w).0.mem, r.at) == r
  {
    hide RunLink, LinkAt, PagesApart;
    ApartPages(|c.mem|, w, r);
    var m' := RunLink(c, w).0.mem;
    RunLinkApart(c, w, r.at, 28);
    RunLinkApart(c, w, r.io.table, 4 * r.io.count);
    Narrow(c.mem, m', r.at);
    LinkTable(c.mem, r.at);
    SameLink(c.mem, m', r.at);
  }

  lemma Narrow(m: seq<byte>, m': seq<byte>, a: nat)
    requires SameAt(m, m', a, 28)
    ensures SameAt(m, m', a, 26)
  {
  }

  lemma LinkTable(m: seq<byte>, a: nat)
    ensures LinkAt(m, a).io == Decode(m, a) && LinkAt(m, a).at == a
  {
  }

  lemma {:induction false} ChainLinks(mem: seq<byte>, a: nat, links: seq<Link>, i: nat)
    requires Chain(mem, a, links) && i < |links|
    ensures links[i] == LinkAt(mem, links[i].at) && Sized(links[i])
    ensures links[0].at == a
    decreases |links|
  {
    hide LinkAt;
    LinkTable(mem, a);
    if i > 0 {
      ChainLinks(mem, links[0].io.chain - CHAINBIT, links[1..], i - 1);
    }
  }

  lemma {:induction false} ChainKept(m: seq<byte>, m': seq<byte>, a: nat, links: seq<Link>)
    requires Chain(m, a, links)
    requires forall i :: 0 <= i < |links| ==> LinkAt(m', links[i].at) == links[i]
    ensures Chain(m', a, links)
    decreases |links|
  {
    hide LinkAt;
    LinkTable(m, a);
    assert LinkAt(m', links[0].at) == links[0];
    if links[0].io.chain >= CHAINBIT {
      forall i | 0 <= i < |links[1..]|
        ensures LinkAt(m', links[1..][i].at) == links[1..][i]
      {
        assert links[1..][i] == links[i + 1];
      }
      ChainKept(m, m', links[0].io.chain - CHAINBIT, links[1..]);
    }
  }

  lemma PlacedTail(size: nat, links: seq<Link>)
    requires WellPlaced(size, links) && links != []
    ensures WellPlaced(size, links[1..])
    ensures InRam(size, links[0]) && WritesApart(links[0], links[0])
    ensures forall i :: 0 <= i < |links[1..]| ==>
      InRam(size, links[1..][i]) && WritesApart(links[0], links[1..][i]) && links[1..][i] != links[0]
  {
    hide InRam, WritesApart;
    var rest := links[1..];
    assert forall i :: 0 <= i < |rest| ==> rest[i] == links[i + 1];
    forall i, j | 0 <= i < |rest| && 0 <= j < |rest|
      ensures WritesApart(rest[i], rest[j])
    {
      assert WritesApart(links[i + 1], links[j + 1]);
    }
    forall i, j | 0 <= i < j < |rest|
      ensures rest[i].at != rest[j].at
    {
      assert links[i + 1].at != links[j + 1].at;
    }
  }

  lemma SizedTail(mem: seq<byte>, a: nat, links: seq<Link>)
    requires Chain(mem, a, links)
    ensures AllSized(links) && AllSized(links[1..])
  {
    hide LinkAt;
    forall i | 0 <= i < |links|
      ensures Sized(links[i])
    {
      ChainLinks(mem, a, links, i);
    }
  }

  /** The engine terminates on every finite chain, and where no link writes what a link is read from it does exactly
      what the fold over the decoded chain does, to memory, drives, geometry and result. */
  lemma {:induction false} LiveRefinesChain(c: Core, a: nat, links: seq<Link>)
    requires CoreOk(c) && Chain(c.mem, a, links) && WellPlaced(|c.mem|, links)
    ensures AllSized(links)
    ensures Live(c, a, |links|) == Some((RunLinks(c, links).0, RunLinks(c, links).1))
    decreases |links|
  {
    hide LinkAt, WellPlaced, InRam, WritesApart, TransferLive, TransferList, Report, Decode, Sized, AllSized;
    SizedTail(c.mem, a, links);
    PlacedTail(|c.mem|, links);
    LinkTable(c.mem, a);
    TransferIsList(c, a);
    var l := links[0];
    FirstSized(links);
    var (c1, moved) := RunLink(c, l);
    if Succeeds(c, l.io, moved) {
      if l.io.chain >= CHAINBIT {
        forall i | 0 <= i < |links[1..]|
          ensures LinkAt(c1.mem, links[1..][i].at) == links[1..][i]
        {
          ChainLinks(c.mem, l.io.chain - CHAINBIT, links[1..], i);
          OtherLinkKept(c, l, links[1..][i]);
        }
        ChainKept(c.mem, c1.mem, l.io.chain - CHAINBIT, links[1..]);
        LiveRefinesChain(c1, l.io.chain - CHAINBIT, links[1..]);
      } else {
        assert links[1..] == [];
      }
    }
  }

  lemma FirstSized(links: seq<Link>)
    requires AllSized(links) && links != []
    ensures Sized(links[0])
  {
  }

  // --- chains that do not end ---------------------------------------------------------------------

  /** There is no guard against a cycle: an empty IOCB for a unit that is there, chained to itself, is run for ever. */
  lemma {:induction false} SelfChainNeverEnds(c: Core, a: nat, n: nat)
    requires CoreOk(c) && a + 28 <= |c.mem|
    requires var io := Decode(c.mem, a); UnitOk(c, io.unit) && io.count == 0 && io.chain == CHAINBIT + a
    ensures Live(c, a, n) == None
    decreases n
  {
    hide Decode, Geometry, Report, SameAt;
    var io := Decode(c.mem, a);
    GeometryKeeps(c, io.unit);
    var c1 := Geometry(c, io.unit);
    assert TransferLive(c, io) == (c1, 0);
    hide TransferLive;
    ReportApart(c1, a, io, 0, a, 26);
    var c2 := Report(c1, a, io, 0);
    SameDecode(c.mem, c2.mem, a);
    ReportKeepsDrives(c1, a, io, 0);
    if n > 0 {
      SelfChainNeverEnds(c2, a, n - 1);
    }
  }

  lemma ReportKeepsDrives(c: Core, a: nat, io: Iocb, moved: nat)
    requires CoreOk(c) && moved <= io.count < 256
    ensures Report(c, a, io, moved).drives == c.drives
  {
  }
}
