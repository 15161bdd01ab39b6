/** When the engine stops. A set of IOCBs closed under their chain addresses may form a chain or a loop; the engine ends
    exactly where the chain, followed in memory as it was before anything moved, comes to a link that cannot be carried
    out or to one that goes no further. */
module DcuEnding {
  import opened Bytes
  import opened DcuModel
  import opened DcuChain
  import opened DcuEffects
  import opened DcuRoundTrip

  ghost predicate Has(links: seq<Link>, a: nat) {
    exists i :: 0 <= i < |links| && links[i].at == a
  }

  ghost predicate LeadsInto(links: seq<Link>, l: Link) {
    l.io.chain >= CHAINBIT ==> Has(links, l.io.chain - CHAINBIT)
  }

  /** No link leads out of the set. */
  ghost predicate Closed(links: seq<Link>) {
    forall i {:trigger LeadsInto(links, links[i])} :: 0 <= i < |links| ==> LeadsInto(links, links[i])
  }

  ghost predicate Decoded(mem: seq<byte>, links: seq<Link>) {
    forall i :: 0 <= i < |links| ==> LinkAt(mem, links[i].at) == links[i]
  }

  /** The geometry unit `u` has or will be given. */
  function GeometryOf(c: Core, u: nat): (nat, nat)
    requires CoreOk(c) && u < 2
  {
    (Geometry(c, u).sectors[u], Geometry(c, u).heads[u])
  }

  /** Same geometry and, on each drive, the same sectors to reach. */
  ghost predicate Alike(c: Core, c': Core)
    requires CoreOk(c) && CoreOk(c')
  {
    && |c'.mem| == |c.mem|
    && GeometryOf(c', 0) == GeometryOf(c, 0) && GeometryOf(c', 1) == GeometryOf(c, 1)
    && SameShape(c.drives[0], c'.drives[0]) && SameShape(c.drives[1], c'.drives[1])
  }

  // --- one link ---------------------------------------------------------------------------

  lemma ReachExact(d: Drive, lba: nat, n: nat, k: nat)
    requires Reaches(d, lba, n, k)
    ensures k == n <==> forall s :: lba <= s < lba + n ==> d.Ok(s)
  {
    if k < n {
      var s: nat := lba + k;
      assert lba <= s < lba + n && !d.Ok(s);
    }
  }

  /** Filling one unit's geometry, and then keeping it, changes neither unit's. */
  lemma GeometryStays(c: Core, c': Core, u: nat, v: nat)
    requires CoreOk(c) && CoreOk(c') && u < 2 && v < 2
    requires c'.sectors == Geometry(c, u).sectors && c'.heads == Geometry(c, u).heads
    requires v != u ==> c'.drives[v] == c.drives[v]
    ensures GeometryOf(c', v) == GeometryOf(c, v)
  {
    hide FreshGeometry;
    GeometryFilled(c, u);
  }

  lemma TransferExact(c: Core, l: Link)
    requires CoreOk(c) && Sized(l)
    ensures var (c', moved) := TransferList(c, l);
      Alike(c, c') && (Succeeds(c, l.io, moved) <==> Reachable(c, l))
  {
    hide MoveList, Reaches, Geometry, GeometryOf;
    if UnitOk(c, l.io.unit) {
      var u := l.io.unit;
      var c1 := Geometry(c, u);
      GeometryKeeps(c, u);
      ListReaches(c1, l.io.opcode, u, Lba(c1, l.io), l.pages);
      var (c', k) := MoveList(c1, l.io.opcode, u, Lba(c1, l.io), l.pages);
      ReachExact(c.drives[u], Lba(c1, l.io), |l.pages|, k);
      GeometryStays(c, c', u, 0);
      GeometryStays(c, c', u, 1);
    }
  }

  lemma ReportAlike(c: Core, at: nat, io: Iocb, moved: nat)
    requires CoreOk(c) && moved <= io.count < 256
    ensures Alike(c, Report(c, at, io, moved))
  {
  }

  lemma AlikeTrans(a: Core, b: Core, c: Core)
    requires CoreOk(a) && CoreOk(b) && CoreOk(c) && Alike(a, b) && Alike(b, c)
    ensures Alike(a, c)
  {
  }

  /** A link is carried out in full exactly when its sectors can be reached, and changes no geometry and no drive's
      reach. */
  lemma LinkExact(c: Core, l: Link)
    requires CoreOk(c) && Sized(l)
    ensures var (c', moved) := RunLink(c, l);
      Alike(c, c') && (Succeeds(c, l.io, moved) <==> Reachable(c, l))
  {
    hide TransferList, Report, Alike, Reachable, Succeeds;
    var (c1, moved) := TransferList(c, l);
    TransferExact(c, l);
    ReportAlike(c1, l.at, l.io, moved);
    AlikeTrans(c, c1, RunLink(c, l).0);
  }

  lemma ReachAlike(c: Core, c': Core, l: Link)
    requires CoreOk(c) && CoreOk(c') && Alike(c, c')
    ensures Reachable(c', l) <==> Reachable(c, l)
  {
    if UnitOk(c, l.io.unit) {
      GeometryKeeps(c, l.io.unit);
      GeometryKeeps(c', l.io.unit);
      assert Start(c', l) == Start(c, l);
      hide Geometry, Start;
      assert forall s: nat :: c'.drives[l.io.unit].Ok(s) == c.drives[l.io.unit].Ok(s);
    }
  }

  /** A link outlives its own run. */
  lemma OwnLinkKept(c: Core, l: Link)
    requires CoreOk(c) && Sized(l) && InRam(|c.mem|, l) && WritesApart(l, l) && l == LinkAt(c.mem, l.at)
    ensures LinkAt(RunLink(c, l).0.mem, l.at) == l
  {
    hide RunLink, LinkAt, PagesApart;
    var m' := RunLink(c, l).0.mem;
    ApartPages(|c.mem|, l, l);
    PagesNarrow(|c.mem|, l.io.opcode, l.pages, l.at);
    RunLinkApart(c, l, l.at, 26);
    RunLinkApart(c, l, l.io.table, 4 * l.io.count);
    LinkTable(c.mem, l.at);
    SameLink(c.mem, m', l.at);
  }

  lemma PagesNarrow(size: nat, opcode: byte, pages: seq<nat>, a: nat)
    requires PagesApart(size, opcode, pages, a, 28)
    ensures PagesApart(size, opcode, pages, a, 26)
  {
  }

  /** Running one link of the set leaves every link of the set as it was. */
  lemma SetKept(c: Core, links: seq<Link>, i: nat)
    requires CoreOk(c) && Decoded(c.mem, links) && WellPlaced(|c.mem|, links) && i < |links|
    ensures Sized(links[i]) && Decoded(RunLink(c, links[i]).0.mem, links)
  {
    hide RunLink, LinkAt, InRam, WritesApart;
    SizedLink(c.mem, links, i);
    var w := links[i];
    forall j | 0 <= j < |links|
      ensures LinkAt(RunLink(c, w).0.mem, links[j].at) == links[j]
    {
      if j == i {
        OwnLinkKept(c, w);
      } else {
        assert links[j].at != w.at;
        OtherLinkKept(c, w, links[j]);
      }
    }
  }

  lemma SizedLink(mem: seq<byte>, links: seq<Link>, i: nat)
    requires Decoded(mem, links) && i < |links|
    ensures Sized(links[i])
  {
    assert LinkAt(mem, links[i].at) == links[i];
  }

  // --- the engine, link by link ---------------------------------------------------------------

  lemma LiveStep(c: Core, a: nat, n: nat)
    requires CoreOk(c) && InRam(|c.mem|, LinkAt(c.mem, a)) && WritesApart(LinkAt(c.mem, a), LinkAt(c.mem, a))
    requires n > 0
    ensures var l := LinkAt(c.mem, a);
      var (c', moved) := RunLink(c, l);
      Live(c, a, n) ==
        if !Succeeds(c, l.io, moved) then Some((c', false))
        else if l.io.chain >= CHAINBIT then Live(c', l.io.chain - CHAINBIT, n - 1)
        else Some((c', true))
  {
    LinkTable(c.mem, a);
    hide LinkAt, InRam, WritesApart, TransferLive, TransferList, Report, Decode, Succeeds;
    TransferIsList(c, a);
  }

  /** The chain from `a`, as it stands in memory, comes within `n` links to one that cannot be carried out or to one
      that goes no further. */
  ghost predicate EndsWithin(c: Core, a: nat, n: nat)
    requires CoreOk(c)
    decreases n
  {
    n > 0 &&
    var l := LinkAt(c.mem, a);
    !Reachable(c, l) || l.io.chain < CHAINBIT || EndsWithin(c, l.io.chain - CHAINBIT, n - 1)
  }

  lemma {:induction false} EndsAlike(c: Core, c': Core, links: seq<Link>, a: nat, n: nat)
    requires CoreOk(c) && CoreOk(c') && Alike(c, c')
    requires Decoded(c.mem, links) && Decoded(c'.mem, links) && Closed(links) && Has(links, a)
    ensures EndsWithin(c', a, n) <==> EndsWithin(c, a, n)
    decreases n
  {
    hide LinkAt, Reachable, Alike;
    if n > 0 {
      var i :| 0 <= i < |links| && links[i].at == a;
      assert LeadsInto(links, links[i]);
      ReachAlike(c, c', links[i]);
      if links[i].io.chain >= CHAINBIT {
        EndsAlike(c, c', links, links[i].io.chain - CHAINBIT, n - 1);
      }
    }
  }

  /** The engine ends within `n` links if and only if the chain, read before anything moves, does. */
  lemma {:induction false} EndsExactly(c: Core, links: seq<Link>, a: nat, n: nat)
    requires CoreOk(c) && Decoded(c.mem, links) && WellPlaced(|c.mem|, links)
    requires Closed(links) && Has(links, a)
    ensures Live(c, a, n).Some? <==> EndsWithin(c, a, n)
    decreases n
  {
    hide LinkAt, Reachable, Alike, Decoded, WellPlaced, RunLink, Live, Succeeds;
    if n == 0 {
      LiveNothing(c, a);
    } else {
      var i: nat :| i < |links| && links[i].at == a;
      assert LeadsInto(links, links[i]);
      SetKept(c, links, i);
      LinkOf(c.mem, |c.mem|, links, i);
      LiveStep(c, a, n);
      LinkExact(c, links[i]);
      var c' := RunLink(c, links[i]).0;
      ReachAlike(c, c', links[i]);
      if links[i].io.chain >= CHAINBIT {
        var b: nat := links[i].io.chain - CHAINBIT;
        SizeKept(c, c', links);
        EndsExactly(c', links, b, n - 1);
        EndsAlike(c, c', links, b, n - 1);
      }
    }
  }

  lemma LiveNothing(c: Core, a: nat)
    requires CoreOk(c)
    ensures Live(c, a, 0) == None
  {
  }

  lemma SizeKept(c: Core, c': Core, links: seq<Link>)
    requires CoreOk(c) && CoreOk(c') && Alike(c, c') && WellPlaced(|c.mem|, links)
    ensures WellPlaced(|c'.mem|, links)
  {
  }

  lemma LinkOf(mem: seq<byte>, size: nat, links: seq<Link>, i: nat)
    requires Decoded(mem, links) && WellPlaced(size, links) && i < |links|
    ensures LinkAt(mem, links[i].at) == links[i] && InRam(size, links[i]) && WritesApart(links[i], links[i])
  {
    hide InRam, WritesApart;
  }

  // --- chains and loops -----------------------------------------------------------------------

  ghost predicate AllReachable(c: Core, links: seq<Link>)
    requires CoreOk(c)
  {
    forall i :: 0 <= i < |links| ==> Reachable(c, links[i])
  }

  lemma {:induction false} FiniteEnds(c: Core, a: nat, ls: seq<Link>)
    requires CoreOk(c) && Chain(c.mem, a, ls)
    ensures EndsWithin(c, a, |ls|)
    decreases |ls|
  {
    hide LinkAt, Reachable;
    if ls[0].io.chain >= CHAINBIT {
      FiniteEnds(c, ls[0].io.chain - CHAINBIT, ls[1..]);
    }
  }

  lemma {:induction false} EndsFinite(c: Core, links: seq<Link>, a: nat, n: nat) returns (ls: seq<Link>)
    requires CoreOk(c) && Decoded(c.mem, links) && Closed(links) && Has(links, a) && AllReachable(c, links)
    requires EndsWithin(c, a, n)
    ensures Chain(c.mem, a, ls) && |ls| <= n
    decreases n
  {
    hide LinkAt, Reachable;
    var i :| 0 <= i < |links| && links[i].at == a;
    assert LeadsInto(links, links[i]);
    if links[i].io.chain >= CHAINBIT {
      var rest := EndsFinite(c, links, links[i].io.chain - CHAINBIT, n - 1);
      ls := [links[i]] + rest;
      assert ls[1..] == rest;
    } else {
      ls := [links[i]];
    }
  }

  /** Where every sector can be reached, the engine ends if and only if the chain is finite. */
  lemma EndsIffFinite(c: Core, links: seq<Link>, a: nat)
    requires CoreOk(c) && Decoded(c.mem, links) && WellPlaced(|c.mem|, links)
    requires Closed(links) && Has(links, a) && AllReachable(c, links)
    ensures (exists n :: Live(c, a, n).Some?) <==> (exists ls :: Chain(c.mem, a, ls))
  {
    hide Live, Chain, EndsWithin, Decoded, WellPlaced, Closed, Has, AllReachable;
    if n :| Live(c, a, n).Some? {
      EndsExactly(c, links, a, n);
      var ls := EndsFinite(c, links, a, n);
    }
    if ls :| Chain(c.mem, a, ls) {
      FiniteEnds(c, a, ls);
      EndsExactly(c, links, a, |ls|);
    }
  }

  /** A chain that returns to an earlier link is followed for ever, if none of its sectors is out of reach. */
  lemma LoopNeverEnds(c: Core, links: seq<Link>, a: nat, n: nat)
    requires CoreOk(c) && Decoded(c.mem, links) && WellPlaced(|c.mem|, links)
    requires Closed(links) && Has(links, a) && AllReachable(c, links)
    requires forall i :: 0 <= i < |links| ==> links[i].io.chain >= CHAINBIT
    ensures Live(c, a, n) == None
  {
    hide Live, EndsWithin, Decoded, WellPlaced, Closed, Has, AllReachable;
    EndsExactly(c, links, a, n);
    LoopGoesOn(c, links, a, n);
  }

  /** What a link of a loop is like, and where it leads. */
  lemma LoopLink(c: Core, links: seq<Link>, a: nat)
    requires CoreOk(c) && Decoded(c.mem, links) && Closed(links) && Has(links, a) && AllReachable(c, links)
    requires forall i :: 0 <= i < |links| ==> links[i].io.chain >= CHAINBIT
    ensures var l := LinkAt(c.mem, a);
      Reachable(c, l) && l.io.chain >= CHAINBIT && Has(links, l.io.chain - CHAINBIT)
  {
    hide LinkAt, Reachable;
    var i :| 0 <= i < |links| && links[i].at == a;
    assert LinkAt(c.mem, links[i].at) == links[i] && LeadsInto(links, links[i]);
  }

  lemma {:induction false} LoopGoesOn(c: Core, links: seq<Link>, a: nat, n: nat)
    requires CoreOk(c) && Decoded(c.mem, links) && Closed(links) && Has(links, a) && AllReachable(c, links)
    requires forall i :: 0 <= i < |links| ==> links[i].io.chain >= CHAINBIT
    ensures !EndsWithin(c, a, n)
    decreases n
  {
    hide LinkAt, Reachable, Decoded, Closed, Has, AllReachable;
    if n > 0 {
      LoopLink(c, links, a);
      LoopGoesOn(c, links, LinkAt(c.mem, a).io.chain - CHAINBIT, n - 1);
    }
  }
}
