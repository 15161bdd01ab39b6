/** IOCBs and page tables as the bytes a driver lays down, and what the controller does with them, from those bytes
    alone. */
module DcuBytes {
  import opened Bytes
  import opened DcuModel
  import opened DcuChain
  import opened DcuEffects
  import opened DcuRoundTrip

  // --- the layout -----------------------------------------------------------------------

  /** The fields of `io` lie in the 28 bytes at `a`: numbers low byte first, drive, head and sector packed in one. */
  ghost predicate LaidOut(mem: seq<byte>, a: nat, io: Iocb) {
    && a + 28 <= |mem| <= 0x1_0000_0000
    && mem[a] == io.opcode && mem[a + 3] == io.count
    && mem[a + 6] as int + 256 * mem[a + 7] as int == io.cylinder
    && mem[a + 8] as int + 256 * mem[a + 9] as int == io.unit * 8192 + io.head * 256 + io.sector
    && mem[a + 10..a + 14] == LE32(io.table)
    && mem[a + 22..a + 26] == LE32(io.chain)
  }

  /** Every field within its width. */
  predicate InFields(io: Iocb) {
    io.unit < 8 && io.head < 32 && io.sector < 256 && io.table < 0x1_0000_0000 && io.chain < 0x1_0000_0000
  }

  /** A word in memory, low byte first. */
  lemma WordIs(mem: seq<byte>, a: nat, x: nat)
    requires a + 4 <= |mem| <= 0x1_0000_0000 && x < 0x1_0000_0000
    ensures mem[a..a + 4] == LE32(x) <==> Read32(mem, a) == x
  {
    hide LE32;
    Weights(x);
    FourBytes(mem[a], mem[a + 1], mem[a + 2], mem[a + 3], Read32(mem, a));
    assert mem[a..a + 4] == [mem[a], mem[a + 1], mem[a + 2], mem[a + 3]];
  }

  lemma Weights(x: nat)
    requires x < 0x1_0000_0000
    ensures |LE32(x)| == 4
    ensures x == LE32(x)[0] as int + 256 * LE32(x)[1] as int + 65536 * LE32(x)[2] as int + 16777216 * LE32(x)[3] as int
  {
    Digits(x);
  }

  lemma FourBytes(b0: byte, b1: byte, b2: byte, b3: byte, x: nat)
    requires x == b0 as int + 256 * b1 as int + 65536 * b2 as int + 16777216 * b3 as int
    ensures LE32(x) == [b0, b1, b2, b3]
  {
    assert x / 256 == b1 as int + 256 * b2 as int + 65536 * b3 as int;
    assert x / 65536 == b2 as int + 256 * b3 as int;
    assert x / 16777216 == b3 as int;
  }

  lemma PackedFields(unit: nat, head: nat, sector: nat, x: nat)
    requires x < 0x1_0000 && unit < 8 && head < 32 && sector < 256
    ensures x == unit * 8192 + head * 256 + sector <==> unit == x / 8192 && head == x / 256 % 32 && sector == x % 256
  {
    assert x / 256 / 32 == x / 8192;
  }

  /** The engine finds in the bytes exactly what was laid down there. */
  lemma DecodesLayout(mem: seq<byte>, a: nat, io: Iocb)
    requires a + 28 <= |mem| <= 0x1_0000_0000 && InFields(io)
    ensures LaidOut(mem, a, io) <==> Decode(mem, a) == io
  {
    WordIs(mem, a + 10, io.table);
    WordIs(mem, a + 22, io.chain);
    FieldsRead(mem, a);
    var x := mem[a + 8] as int + 256 * mem[a + 9] as int;
    PackedFields(io.unit, io.head, io.sector, x);
    hide Decode, Read32, LE32;
    var d := Decode(mem, a);
    assert d == Iocb(d.opcode, d.count, d.cylinder, d.unit, d.head, d.sector, d.table, d.chain);
  }

  lemma FieldsRead(mem: seq<byte>, a: nat)
    requires a + 28 <= |mem| <= 0x1_0000_0000
    ensures var d, x := Decode(mem, a), mem[a + 8] as int + 256 * mem[a + 9] as int;
      && d.opcode == mem[a] && d.count == mem[a + 3]
      && d.cylinder == mem[a + 6] as int + 256 * mem[a + 7] as int
      && d.unit == x / 8192 && d.head == x / 256 % 32 && d.sector == x % 256
      && d.table == Read32(mem, a + 10) && d.chain == Read32(mem, a + 22)
  {
    hide Read32;
  }

  /** The page table at `table` lists `pages`. */
  ghost predicate TableAt(mem: seq<byte>, table: nat, pages: seq<nat>) {
    && table + 4 * |pages| <= |mem| <= 0x1_0000_0000
    && forall i :: 0 <= i < |pages| ==> pages[i] < 0x1_0000_0000 && EntryAt(mem, table, pages, i)
  }

  ghost predicate EntryAt(mem: seq<byte>, table: nat, pages: seq<nat>, i: nat)
    requires i < |pages| && table + 4 * |pages| <= |mem|
  {
    mem[table + 4 * i..table + 4 * i + 4] == LE32(pages[i])
  }

  /** An IOCB and its table, laid down. */
  ghost predicate Laid(mem: seq<byte>, a: nat, io: Iocb, pages: seq<nat>) {
    LaidOut(mem, a, io) && InFields(io) && io.count == |pages| && TableAt(mem, io.table, pages)
  }

  /** Link and pages are those laid down. */
  lemma LinkFromBytes(mem: seq<byte>, a: nat, io: Iocb, pages: seq<nat>)
    requires Laid(mem, a, io, pages)
    ensures LinkAt(mem, a) == Link(a, io, pages)
  {
    DecodesLayout(mem, a, io);
    hide Decode, Read32, LaidOut, LE32;
    forall i | 0 <= i < |pages|
      ensures PageAt(mem, io.table, i) == pages[i]
    {
      assert EntryAt(mem, io.table, pages, i);
      WordIs(mem, io.table + 4 * i, pages[i]);
    }
    assert LinkAt(mem, a).pages == pages;
  }

  // --- write, then read ---------------------------------------------------------------------

  /** A WRITE at `a` and, chained to it, a read of the same sectors at `b`, with the page tables of both. */
  ghost predicate WriteReadLaid(mem: seq<byte>, a: nat, w: Iocb, wp: seq<nat>, b: nat, r: Iocb, rp: seq<nat>) {
    && Laid(mem, a, w, wp) && Laid(mem, b, r, rp)
    && w.opcode == 0xe6 && r.opcode != 0xe6 && r.opcode != 0xbc
    && w.chain == 0x8000_0000 + b && r.chain < 0x8000_0000
    && r.unit == w.unit && r.cylinder == w.cylinder && r.head == w.head && r.sector == w.sector && r.count == w.count
  }

  lemma LaidChain(mem: seq<byte>, a: nat, w: Iocb, wp: seq<nat>, b: nat, r: Iocb, rp: seq<nat>)
    requires WriteReadLaid(mem, a, w, wp, b, r, rp)
    ensures Chain(mem, a, [Link(a, w, wp), Link(b, r, rp)]) && SameRun(Link(a, w, wp), Link(b, r, rp))
  {
    LinkFromBytes(mem, a, w, wp);
    LinkFromBytes(mem, b, r, rp);
    hide LinkAt, LaidOut, TableAt;
    var links := [Link(a, w, wp), Link(b, r, rp)];
    assert links[1..] == [Link(b, r, rp)] && links[1..][1..] == [];
    assert Chain(mem, b, links[1..]);
  }

  /** 512 bytes of memory. */
  function Page(mem: seq<byte>, p: nat): seq<byte>
    requires p + 512 <= |mem|
  {
    mem[p..p + 512]
  }

  lemma PageGathered(mem: seq<byte>, p: nat)
    requires p + 512 <= |mem| <= 0x1_0000_0000
    ensures Gather(mem, p) == Page(mem, p)
  {
  }

  lemma PagesBrought(m: seq<byte>, m': seq<byte>, wp: seq<nat>, rp: seq<nat>)
    requires |m'| == |m| <= 0x1_0000_0000 && |wp| == |rp| && PagesDisjoint(|m|, rp)
    requires forall i :: 0 <= i < |wp| ==> wp[i] + 512 <= |m|
    requires forall i :: 0 <= i < |rp| ==> Gather(m', rp[i]) == Gather(m, wp[i])
    ensures forall i :: 0 <= i < |rp| ==> rp[i] + 512 <= |m'| && Page(m', rp[i]) == Page(m, wp[i])
  {
    hide Gather, PagesDisjoint, Page;
    forall i | 0 <= i < |rp|
      ensures rp[i] + 512 <= |m'| && Page(m', rp[i]) == Page(m, wp[i])
    {
      PageInside(|m|, rp, i);
      PageGathered(m', rp[i]);
      PageGathered(m, wp[i]);
    }
  }

  /** From the bytes in memory to the bytes in memory: after a WRITE and a read of the same sectors the pages of the
      second table hold what those of the first held, and the two IOCBs say that one was chained on and the other was
      the last, with nothing left to move. */
  lemma WriteThenReadBytes(c: Core, a: nat, w: Iocb, wp: seq<nat>, b: nat, r: Iocb, rp: seq<nat>)
    requires CoreOk(c) && WriteReadLaid(c.mem, a, w, wp, b, r, rp)
    requires WellPlaced(|c.mem|, [Link(a, w, wp), Link(b, r, rp)]) && Reachable(c, Link(a, w, wp))
    requires PagesDisjoint(|c.mem|, rp) && forall i :: 0 <= i < |wp| ==> wp[i] + 512 <= |c.mem|
    ensures Live(c, a, 2).Some? && Live(c, a, 2).value.1
    ensures var m' := Live(c, a, 2).value.0.mem;
      && |m'| == |c.mem|
      && (forall i :: 0 <= i < |rp| ==> Page(m', rp[i]) == Page(c.mem, wp[i]))
      && m'[a + 26] == 0x40 && m'[a + 27] == 0 && m'[b + 26] == 0x80 && m'[b + 27] == 0
  {
    hide *;
    var lw, lr := Link(a, w, wp), Link(b, r, rp);
    LaidChain(c.mem, a, w, wp, b, r, rp);
    LaidSizes(c.mem, a, w, wp, b, r, rp);
    WriteThenRead(c, a, lw, lr);
    var c' := Live(c, a, 2).value.0;
    RamSize(c);
    PagesBrought(c.mem, c'.mem, lw.pages, lr.pages);
    BothReport(c, a, lw, lr);
  }

  lemma RamSize(c: Core)
    requires CoreOk(c)
    ensures |c.mem| <= 0x1_0000_0000
  {
  }

  lemma LaidSizes(mem: seq<byte>, a: nat, w: Iocb, wp: seq<nat>, b: nat, r: Iocb, rp: seq<nat>)
    requires WriteReadLaid(mem, a, w, wp, b, r, rp)
    ensures |rp| == |wp| == w.count == r.count && a + 28 <= |mem| && b + 28 <= |mem|
  {
  }

  lemma BothReport(c: Core, a: nat, w: Link, r: Link)
    requires CoreOk(c) && Chain(c.mem, a, [w, r]) && WellPlaced(|c.mem|, [w, r])
    requires Live(c, a, 2).Some? && Live(c, a, 2).value.1 && w.at + 28 <= |c.mem| && r.at + 28 <= |c.mem|
    ensures var m' := Live(c, a, 2).value.0.mem;
      && m'[w.at + 26] == 0x40 && m'[w.at + 27] == 0 && m'[r.at + 26] == 0x80 && m'[r.at + 27] == 0
  {
    hide Live, WellPlaced, InRam, WritesApart, Chain, SameAt, LinkAt;
    var links := [w, r];
    LiveRefinesChain(c, a, links);
    ChainIsLinked(c.mem, a, links);
    ChainReports(c, links);
    var (c', ok, moves) := RunLinks(c, links);
    hide RunLinks;
    assert |moves| == 2 && links[0] == w && links[1] == r;
    assert moves[0] == w.io.count && moves[1] == r.io.count;
    assert Shows(c'.mem, links[0], links[0].io.count - moves[0], StatusOf(0, 2, true));
    assert Shows(c'.mem, links[1], links[1].io.count - moves[1], StatusOf(1, 2, true));
  }

  // --- a single WRITE, FORMAT or read -----------------------------------------------------------

  /** One IOCB that is not chained further. */
  ghost predicate OneLaid(c: Core, a: nat, io: Iocb, pages: seq<nat>)
    requires CoreOk(c)
  {
    && Laid(c.mem, a, io, pages) && io.chain < 0x8000_0000
    && WellPlaced(|c.mem|, [Link(a, io, pages)]) && Reachable(c, Link(a, io, pages))
  }

  lemma OneRuns(c: Core, a: nat, io: Iocb, pages: seq<nat>)
    requires CoreOk(c) && OneLaid(c, a, io, pages)
    ensures var l := Link(a, io, pages);
      && Sized(l) && a + 28 <= |c.mem| && |pages| == io.count
      && InRam(|c.mem|, l) && WritesApart(l, l)
      && Live(c, a, 1) == Some((RunLink(c, l).0, Succeeds(c, io, RunLink(c, l).1)))
  {
    LinkFromBytes(c.mem, a, io, pages);
    var l := Link(a, io, pages);
    assert a + 28 <= |c.mem| && |pages| == io.count;
    hide LinkAt, LaidOut, TableAt, Live, RunLink, Reachable, InRam, WritesApart;
    assert [l][1..] == [];
    assert Chain(c.mem, a, [l]);
    LiveRefinesChain(c, a, [l]);
    PlacedTail(|c.mem|, [l]);
    var c1 := RunLink(c, l).0;
    assert RunLinks(c1, []) == (c1, true, []);
  }

  lemma SectorsAre(d: Drive, d': Drive, mem: seq<byte>, opcode: byte, lba: nat, pages: seq<nat>)
    requires SectorsWritten(d, d', mem, opcode, lba, pages, |pages|)
    ensures SameShape(d, d')
    ensures forall s :: 0 <= s < |d.sectors| ==>
      d'.sectors[s] == if lba <= s < lba + |pages| then Payload(mem, opcode, pages[s - lba]) else d.sectors[s]
  {
    hide Payload;
    forall s | lba <= s < lba + |pages| && s < |d.sectors|
      ensures d'.sectors[s] == Payload(mem, opcode, pages[s - lba])
    {
      assert s == lba + (s - lba);
    }
  }

  lemma FormatPayload(mem: seq<byte>, page: nat)
    ensures Payload(mem, 0xbc, page) == Zeros(512)
  {
  }

  lemma WritePayload(mem: seq<byte>, page: nat)
    requires page + 512 <= |mem| <= 0x1_0000_0000
    ensures Payload(mem, 0xe6, page) == Page(mem, page)
  {
    PageGathered(mem, page);
  }

  /** Opcode 0xe6 moves the pages to the sectors, in order. */
  lemma WriteBytes(c: Core, a: nat, io: Iocb, pages: seq<nat>)
    requires CoreOk(c) && OneLaid(c, a, io, pages) && io.opcode == 0xe6
    requires forall i :: 0 <= i < |pages| ==> pages[i] + 512 <= |c.mem|
    ensures Live(c, a, 1).Some? && Live(c, a, 1).value.1
    ensures var start, d, d' := Start(c, Link(a, io, pages)), c.drives[io.unit], Live(c, a, 1).value.0.drives[io.unit];
      && SameShape(d, d')
      && forall s :: 0 <= s < |d.sectors| ==>
           d'.sectors[s] == if start <= s < start + |pages| then Page(c.mem, pages[s - start]) else d.sectors[s]
  {
    var l := Link(a, io, pages);
    OneRuns(c, a, io, pages);
    UnitThere(c, l);
    hide Live, RunLink, Laid, WellPlaced, Reachable, Start, Payload, SectorsWritten, SameButStatus, GeometryAs,
      SameShape, Page;
    LinkWrites(c, l);
    SectorsAre(c.drives[io.unit], RunLink(c, l).0.drives[io.unit], c.mem, io.opcode, Start(c, l), pages);
    forall i | 0 <= i < |pages|
      ensures Payload(c.mem, io.opcode, pages[i]) == Page(c.mem, pages[i])
    {
      WritePayload(c.mem, pages[i]);
    }
  }

  /** Opcode 0xbc fills the sectors with zeros, whatever the pages. */
  lemma FormatBytes(c: Core, a: nat, io: Iocb, pages: seq<nat>)
    requires CoreOk(c) && OneLaid(c, a, io, pages) && io.opcode == 0xbc
    ensures Live(c, a, 1).Some? && Live(c, a, 1).value.1
    ensures var start, d, d' := Start(c, Link(a, io, pages)), c.drives[io.unit], Live(c, a, 1).value.0.drives[io.unit];
      && SameShape(d, d')
      && forall s :: 0 <= s < |d.sectors| ==>
           d'.sectors[s] == if start <= s < start + |pages| then Zeros(512) else d.sectors[s]
  {
    var l := Link(a, io, pages);
    OneRuns(c, a, io, pages);
    UnitThere(c, l);
    hide Live, RunLink, Laid, WellPlaced, Reachable, Start, Payload, SectorsWritten, SameButStatus, GeometryAs,
      SameShape, Zeros;
    LinkWrites(c, l);
    SectorsAre(c.drives[io.unit], RunLink(c, l).0.drives[io.unit], c.mem, io.opcode, Start(c, l), pages);
    forall i | 0 <= i < |pages|
      ensures Payload(c.mem, io.opcode, pages[i]) == Zeros(512)
    {
      FormatPayload(c.mem, pages[i]);
    }
  }

  /** Each page holds the sector whose turn it is. */
  ghost predicate PagesHold(mem: seq<byte>, pages: seq<nat>, sectors: seq<Sector>, start: nat) {
    forall i :: 0 <= i < |pages| ==>
      pages[i] + 512 <= |mem| && start + i < |sectors| && Page(mem, pages[i]) == sectors[start + i]
  }

  /** Every other opcode reads. */
  lemma ReadBytes(c: Core, a: nat, io: Iocb, pages: seq<nat>)
    requires CoreOk(c) && OneLaid(c, a, io, pages) && io.opcode != 0xe6 && io.opcode != 0xbc
    requires PagesDisjoint(|c.mem|, pages)
    ensures Live(c, a, 1).Some? && Live(c, a, 1).value.1 && Live(c, a, 1).value.0.drives == c.drives
    ensures var start, m', d := Start(c, Link(a, io, pages)), Live(c, a, 1).value.0.mem, c.drives[io.unit];
      |m'| == |c.mem| && PagesHold(m', pages, d.sectors, start)
  {
    var l := Link(a, io, pages);
    OneRuns(c, a, io, pages);
    UnitThere(c, l);
    hide Live, RunLink, Laid, WellPlaced, Reachable, Start, Gather, PagesDisjoint, InRam, WritesApart, PagesFilled,
      PagesHold, OneLaid, Succeeds;
    LinkReads(c, l);
    FilledHold(RunLink(c, l).0.mem, c.drives[io.unit], Start(c, l), pages);
  }

  lemma FilledHold(mem: seq<byte>, d: Drive, start: nat, pages: seq<nat>)
    requires |mem| <= 0x1_0000_0000 && PagesDisjoint(|mem|, pages) && PagesFilled(mem, d, start, pages, |pages|)
    ensures PagesHold(mem, pages, d.sectors, start)
  {
    hide Gather, PagesDisjoint, Page;
    forall i | 0 <= i < |pages|
      ensures pages[i] + 512 <= |mem| && start + i < |d.sectors| && Page(mem, pages[i]) == d.sectors[start + i]
    {
      PageInside(|mem|, pages, i);
      PageGathered(mem, pages[i]);
    }
  }
}
