/** What is written to a run of sectors is what a later read of the same run brings back. */
module DcuRoundTrip {
  import opened Bytes
  import opened DcuModel
  import opened DcuChain
  import opened DcuEffects
  import opened DcuGeometry

  /** Every sector the link asks for can be reached, under the geometry the unit has or will be given. */
  ghost predicate Reachable(c: Core, l: Link)
    requires CoreOk(c)
  {
    && UnitOk(c, l.io.unit)
    && forall s :: Start(c, l) <= s < Start(c, l) + l.io.count ==> c.drives[l.io.unit].Ok(s)
  }

  function Start(c: Core, l: Link): nat
    requires CoreOk(c) && UnitOk(c, l.io.unit)
  {
    Lba(Geometry(c, l.io.unit), l.io)
  }

  lemma UnitThere(c: Core, l: Link)
    requires CoreOk(c) && Reachable(c, l)
    ensures UnitOk(c, l.io.unit)
  {
  }

  lemma AllReached(d: Drive, lba: nat, n: nat, k: nat)
    requires Reaches(d, lba, n, k) && forall s :: lba <= s < lba + n ==> d.Ok(s)
    ensures k == n
  {
    var s: nat := lba + k;
    assert s < lba + n ==> d.Ok(s);
  }

  ghost predicate SameButStatus(m: seq<byte>, m': seq<byte>, at: nat) {
    |m'| == |m| && forall k :: 0 <= k < |m| && !(at + 26 <= k < at + 28) ==> m'[k] == m[k]
  }

  lemma ReportTouches(c: Core, at: nat, io: Iocb, moved: nat)
    requires CoreOk(c) && moved <= io.count < 256 && at + 28 <= |c.mem|
    ensures var c' := Report(c, at, io, moved);
      SameButStatus(c.mem, c'.mem, at) && c'.drives == c.drives && c'.sectors == c.sectors && c'.heads == c.heads
  {
  }

  lemma GeometryFilled(c: Core, u: nat)
    requires CoreOk(c) && u < 2
    ensures Geometry(c, u).sectors[u] != 0
  {
    FreshAdmissible(c.drives[u]);
  }

  lemma GeometryOnce(c: Core, c': Core, u: nat)
    requires CoreOk(c) && CoreOk(c') && u < 2
    requires c'.sectors == Geometry(c, u).sectors && c'.heads == Geometry(c, u).heads
    ensures Geometry(c', u) == c'
  {
    GeometryFilled(c, u);
  }

  ghost predicate GeometryAs(c: Core, c': Core, u: nat)
    requires CoreOk(c) && u < 2
  {
    c'.sectors == Geometry(c, u).sectors && c'.heads == Geometry(c, u).heads
  }

  /** A WRITE or FORMAT that reaches all its sectors: what it leaves. */
  lemma LinkWrites(c: Core, w: Link)
    requires CoreOk(c) && Sized(w) && Writes(w.io.opcode) && w.at + 28 <= |c.mem| && Reachable(c, w)
    ensures var (c', moved) := RunLink(c, w);
      && Succeeds(c, w.io, moved) && moved == w.io.count
      && SameButStatus(c.mem, c'.mem, w.at)
      && GeometryAs(c, c', w.io.unit)
      && c'.drives[1 - w.io.unit] == c.drives[1 - w.io.unit]
      && SectorsWritten(c.drives[w.io.unit], c'.drives[w.io.unit], c.mem, w.io.opcode, Start(c, w), w.pages, w.io.count)
  {
    hide Geometry, Report, MoveList, SectorsWritten, SameButStatus, Lba, Reaches;
    var u := w.io.unit;
    var c1 := Geometry(c, u);
    GeometryKeeps(c, u);
    var lba := Lba(c1, w.io);
    ListReaches(c1, w.io.opcode, u, lba, w.pages);
    ListWrites(c1, w.io.opcode, u, lba, w.pages);
    var (c2, k) := MoveList(c1, w.io.opcode, u, lba, w.pages);
    AllReached(c.drives[u], lba, w.io.count, k);
    ReportTouches(c2, w.at, w.io, k);
  }

  /** A read that reaches all its sectors. */
  lemma LinkReads(c: Core, r: Link)
    requires CoreOk(c) && Sized(r) && !Writes(r.io.opcode) && InRam(|c.mem|, r) && WritesApart(r, r) && Reachable(c, r)
    requires PagesDisjoint(|c.mem|, r.pages)
    ensures var (c', moved) := RunLink(c, r);
      && Succeeds(c, r.io, moved) && moved == r.io.count
      && c'.drives == c.drives
      && PagesFilled(c'.mem, c.drives[r.io.unit], Start(c, r), r.pages, r.io.count)
  {
    hide Geometry, Report, MoveList, PagesFilled, SameButStatus, Lba, Reaches, PagesDisjoint, InRam, WritesApart;
    var u := r.io.unit;
    var c1 := Geometry(c, u);
    GeometryKeeps(c, u);
    var lba := Lba(c1, r.io);
    ListReaches(c1, r.io.opcode, u, lba, r.pages);
    ListReads(c1, r.io.opcode, u, lba, r.pages);
    var (c2, k) := MoveList(c1, r.io.opcode, u, lba, r.pages);
    AllReached(c.drives[u], lba, r.io.count, k);
    InRamAt(|c.mem|, r);
    ReportTouches(c2, r.at, r.io, k);
    FilledAfterReport(c2.mem, RunLink(c, r).0.mem, c.drives[u], lba, r);
  }

  lemma InRamAt(size: nat, l: Link)
    requires InRam(size, l)
    ensures l.at + 28 <= size
  {
  }

  lemma FilledAfterReport(m: seq<byte>, m': seq<byte>, d: Drive, lba: nat, r: Link)
    requires PagesFilled(m, d, lba, r.pages, |r.pages|) && SameButStatus(m, m', r.at) && |m| <= 0x1_0000_0000
    requires !Writes(r.io.opcode) && InRam(|m|, r) && WritesApart(r, r)
    ensures PagesFilled(m', d, lba, r.pages, |r.pages|)
  {
    hide Gather;
    forall i | 0 <= i < |r.pages|
      ensures Gather(m', r.pages[i]) == d.sectors[lba + i]
    {
      assert Apart(r.pages[i], 512, r.at, 28);
      GatherSame(m, m', r.pages[i]);
    }
  }

  /** Two IOCBs for the same run of sectors, a WRITE and then a read. */
  ghost predicate SameRun(w: Link, r: Link) {
    && w.io.opcode == C_WRITE && !Writes(r.io.opcode)
    && r.io.unit == w.io.unit && r.io.cylinder == w.io.cylinder && r.io.head == w.io.head
    && r.io.sector == w.io.sector && r.io.count == w.io.count
  }

  lemma WriteKeepsReach(c: Core, c': Core, w: Link, r: Link)
    requires CoreOk(c) && CoreOk(c') && SameRun(w, r) && Reachable(c, w) && GeometryAs(c, c', w.io.unit)
    requires SameShape(c.drives[w.io.unit], c'.drives[w.io.unit])
    ensures Reachable(c', r) && Start(c', r) == Start(c, w)
  {
    GeometryOnce(c, c', w.io.unit);
    hide Geometry;
    forall s | Start(c', r) <= s < Start(c', r) + r.io.count
      ensures c'.drives[r.io.unit].Ok(s)
    {
      assert c.drives[w.io.unit].Ok(s);
    }
  }

  lemma WrittenShape(d: Drive, d': Drive, mem: seq<byte>, opcode: byte, lba: nat, pages: seq<nat>, k: nat)
    requires SectorsWritten(d, d', mem, opcode, lba, pages, k)
    ensures SameShape(d, d')
  {
  }

  lemma Brought(mem: seq<byte>, mem': seq<byte>, d: Drive, d': Drive, lba: nat, w: seq<nat>, r: seq<nat>)
    requires |w| == |r| && SectorsWritten(d, d', mem, C_WRITE, lba, w, |w|) && PagesFilled(mem', d', lba, r, |r|)
    ensures forall i :: 0 <= i < |r| ==> Gather(mem', r[i]) == Gather(mem, w[i])
  {
    hide Gather;
    forall i | 0 <= i < |r|
      ensures Gather(mem', r[i]) == Gather(mem, w[i])
    {
      assert d'.sectors[lba + i] == Payload(mem, C_WRITE, w[i]);
    }
  }

  /** Writing a run of sectors and reading it back, in one chain: the pages read hold what the pages written held,
      in order; no other sector changes, nor the other drive. */
  lemma WriteThenRead(c: Core, a: nat, w: Link, r: Link)
    requires CoreOk(c) && Chain(c.mem, a, [w, r]) && WellPlaced(|c.mem|, [w, r])
    requires SameRun(w, r) && Reachable(c, w) && PagesDisjoint(|c.mem|, r.pages)
    ensures Live(c, a, 2).Some?
    ensures var (c', ok) := Live(c, a, 2).value;
      && ok
      && (forall i :: 0 <= i < |r.pages| ==> i < |w.pages| && Gather(c'.mem, r.pages[i]) == Gather(c.mem, w.pages[i]))
      && SectorsWritten(c.drives[w.io.unit], c'.drives[w.io.unit], c.mem, C_WRITE, Start(c, w), w.pages, w.io.count)
      && c'.drives[1 - w.io.unit] == c.drives[1 - w.io.unit]
  {
    hide Live, WellPlaced, InRam, WritesApart, RunLink, Reachable, SectorsWritten, PagesFilled, SameButStatus,
      GeometryAs, PagesDisjoint, Succeeds, LinkAt, Chain, Start, Gather, SameShape, Geometry;
    var links := [w, r];
    LiveRefinesChain(c, a, links);
    ChainLinks(c.mem, a, links, 0);
    ChainLinks(c.mem, a, links, 1);
    PlacedTail(|c.mem|, links);
    assert links[1..] == [r] && links[1..][0] == r && links[1..][1..] == [];
    PlacedTail(|c.mem|, links[1..]);
    InRamAt(|c.mem|, w);
    UnitThere(c, w);
    LinkWrites(c, w);
    var c1 := RunLink(c, w).0;
    WrittenShape(c.drives[w.io.unit], c1.drives[w.io.unit], c.mem, C_WRITE, Start(c, w), w.pages, w.io.count);
    WriteKeepsReach(c, c1, w, r);
    LinkReads(c1, r);
    var c2 := RunLink(c1, r).0;
    assert RunLinks(c1, [r]) == (c2, true, [r.io.count]) by {
      assert [r][1..] == [] && [r][0] == r;
      assert [r.io.count] + [] == [r.io.count];
    }
    Brought(c.mem, c2.mem, c.drives[w.io.unit], c1.drives[w.io.unit], Start(c, w), w.pages, r.pages);
  }

  /** All other memory is as it was, but for the two IOCBs' residue and status. */
  lemma WriteThenReadFrame(c: Core, a: nat, w: Link, r: Link, k: nat, n: nat)
    requires CoreOk(c) && Chain(c.mem, a, [w, r]) && WellPlaced(|c.mem|, [w, r]) && SameRun(w, r)
    requires k + n <= |c.mem| && Apart(w.at + 26, 2, k, n) && Apart(r.at + 26, 2, k, n)
    requires forall i :: 0 <= i < |r.pages| ==> Apart(r.pages[i], 512, k, n)
    ensures Live(c, a, 2).Some? && SameAt(c.mem, Live(c, a, 2).value.0.mem, k, n)
  {
    hide Live, Chain, LinkAt, RunLinks, SameAt;
    var links := [w, r];
    LiveRefinesChain(c, a, links);
    assert InRam(|c.mem|, links[0]) && InRam(|c.mem|, links[1]);
    forall i | 0 <= i < |links|
      ensures links[i].at + 28 <= |c.mem| && PagesApart(|c.mem|, links[i].io.opcode, links[i].pages, k, n)
      ensures Apart(links[i].at + 26, 2, k, n)
    {
    }
    LinksApart(c, links, k, n);
  }
}
