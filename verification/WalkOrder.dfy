/** The walk as a list, on any bytes: it shows each way down once, in the order of the entries read, a directory before
    what is below it. A way down is given by the position of each step in the directory it is taken from. */
module WalkOrder {
  import opened Bytes
  import opened S5Reader
  import opened WalkExact

  /** `ks` picks an entry in `ents`, then one in the directory it names, and so on; none is `.` or `..`. */
  ghost predicate Along(d: seq<byte>, ents: seq<Entry>, ks: seq<nat>)
    decreases |ks|
  {
    && ks != [] && ks[0] < |ents| && !Dots(ents[ks[0]].name)
    && (|ks| > 1 ==> Opens(d, ents[ks[0]].num) && Along(d, ReadDir(d, ents[ks[0]].num).value, ks[1..]))
  }

  /** The entries picked. */
  ghost function Picked(d: seq<byte>, ents: seq<Entry>, ks: seq<nat>): (es: seq<Entry>)
    requires Along(d, ents, ks)
    ensures |es| == |ks|
    decreases |ks|
  {
    [ents[ks[0]]] + if |ks| > 1 then Picked(d, ReadDir(d, ents[ks[0]].num).value, ks[1..]) else []
  }

  lemma {:induction false} PickedLeads(d: seq<byte>, ents: seq<Entry>, ks: seq<nat>)
    requires Along(d, ents, ks)
    ensures Leads(d, ents, Picked(d, ents, ks))
    decreases |ks|
  {
    hide Dots, ReadDir, ReadInode, IsDir;
    var es := Picked(d, ents, ks);
    if |ks| > 1 {
      PickedLeads(d, ReadDir(d, ents[ks[0]].num).value, ks[1..]);
      assert es[1..] == Picked(d, ReadDir(d, ents[ks[0]].num).value, ks[1..]);
    }
  }

  /** Position by position; a way down comes before all that go on from it. */
  predicate Before(a: seq<nat>, b: seq<nat>)
    decreases |a|
  {
    b != [] && (a == [] || a[0] < b[0] || (a[0] == b[0] && Before(a[1..], b[1..])))
  }

  /** Item `x` is what the way down `ks` leads to, within the depth limit. */
  ghost predicate Finds(d: seq<byte>, ents: seq<Entry>, path: string, depth: nat, ks: seq<nat>, x: Item) {
    Along(d, ents, ks) && depth + |ks| <= 13 && AtEnd(d, path, Picked(d, ents, ks), x)
  }

  ghost predicate InOrder(rs: seq<seq<nat>>) {
    forall i, j :: 0 <= i < j < |rs| ==> Before(rs[i], rs[j])
  }

  /** `items` are what the ways down `rs` lead to, one for one; these are all there are, in order. */
  ghost predicate Listed(d: seq<byte>, ents: seq<Entry>, path: string, depth: nat, rs: seq<seq<nat>>,
                         items: seq<Item>)
  {
    && |rs| == |items|
    && (forall j :: 0 <= j < |rs| ==> Finds(d, ents, path, depth, rs[j], items[j]))
    && InOrder(rs) && All(d, ents, depth, rs)
  }

  ghost predicate All(d: seq<byte>, ents: seq<Entry>, depth: nat, rs: seq<seq<nat>>) {
    forall ks :: Along(d, ents, ks) && depth + |ks| <= 13 ==> ks in rs
  }

  // --- moving down and along ------------------------------------------------------------------

  /** One step more at the front. */
  function Down(rs: seq<seq<nat>>): (r: seq<seq<nat>>)
    ensures |r| == |rs| && forall i :: 0 <= i < |rs| ==> r[i] == [0] + rs[i]
  {
    seq(|rs|, i requires 0 <= i < |rs| => [0] + rs[i])
  }

  /** The first step one entry further on. */
  function Next(ks: seq<nat>): seq<nat> {
    if ks == [] then [] else [ks[0] + 1] + ks[1..]
  }

  function Further(rs: seq<seq<nat>>): (r: seq<seq<nat>>)
    ensures |r| == |rs| && forall i :: 0 <= i < |rs| ==> r[i] == Next(rs[i])
  {
    seq(|rs|, i requires 0 <= i < |rs| => Next(rs[i]))
  }

  lemma DownAlong(d: seq<byte>, ents: seq<Entry>, ks: seq<nat>)
    requires ents != [] && !Dots(ents[0].name) && Opens(d, ents[0].num) && Along(d, ReadDir(d, ents[0].num).value, ks)
    ensures Along(d, ents, [0] + ks)
    ensures Picked(d, ents, [0] + ks) == [ents[0]] + Picked(d, ReadDir(d, ents[0].num).value, ks)
  {
    hide Dots, ReadDir, ReadInode, IsDir;
    assert ([0] + ks)[1..] == ks;
  }

  lemma DownAtEnd(d: seq<byte>, path: string, e: Entry, es: seq<Entry>, x: Item)
    requires AtEnd(d, path + "/" + e.name, es, x)
    ensures AtEnd(d, path, [e] + es, x)
  {
    hide ReadInode;
    assert ([e] + es)[1..] == es;
  }

  lemma DownFinds(d: seq<byte>, ents: seq<Entry>, path: string, depth: nat, ks: seq<nat>, x: Item)
    requires ents != [] && !Dots(ents[0].name) && Opens(d, ents[0].num) && depth < 12
    requires Finds(d, ReadDir(d, ents[0].num).value, path + "/" + ents[0].name, depth + 1, ks, x)
    ensures Finds(d, ents, path, depth, [0] + ks, x)
  {
    DownAlong(d, ents, ks);
    hide Dots, ReadDir, Along, Picked, AtEnd;
    DownAtEnd(d, path, ents[0], Picked(d, ReadDir(d, ents[0].num).value, ks), x);
  }

  lemma NextAlong(d: seq<byte>, ents: seq<Entry>, ks: seq<nat>)
    requires ents != []
    ensures Along(d, ents[1..], ks) ==>
      Along(d, ents, Next(ks)) && Picked(d, ents, Next(ks)) == Picked(d, ents[1..], ks)
  {
    hide Opens, Dots;
    if Along(d, ents[1..], ks) {
      assert Next(ks)[1..] == ks[1..] && ents[1..][ks[0]] == ents[ks[0] + 1];
    }
  }

  lemma NextFinds(d: seq<byte>, ents: seq<Entry>, path: string, depth: nat, ks: seq<nat>, x: Item)
    requires ents != [] && Finds(d, ents[1..], path, depth, ks, x)
    ensures Finds(d, ents, path, depth, Next(ks), x)
  {
    NextAlong(d, ents, ks);
    hide Along, Picked, AtEnd;
  }

  lemma DownInOrder(rs: seq<seq<nat>>)
    requires InOrder(rs)
    ensures InOrder(Down(rs))
  {
    forall i, j | 0 <= i < j < |rs|
      ensures Before([0] + rs[i], [0] + rs[j])
    {
      assert Before(rs[i], rs[j]);
      assert ([0] + rs[i])[1..] == rs[i] && ([0] + rs[j])[1..] == rs[j];
    }
  }

  lemma NextBefore(a: seq<nat>, b: seq<nat>)
    requires a != [] && Before(a, b)
    ensures Before(Next(a), Next(b))
  {
    assert Next(a)[1..] == a[1..] && Next(b)[1..] == b[1..];
  }

  lemma FurtherInOrder(rs: seq<seq<nat>>)
    requires InOrder(rs) && forall i :: 0 <= i < |rs| ==> rs[i] != []
    ensures InOrder(Further(rs))
  {
    hide Before, Next;
    forall i, j | 0 <= i < j < |rs|
      ensures Before(Next(rs[i]), Next(rs[j]))
    {
      NextBefore(rs[i], rs[j]);
    }
  }

  /** The first entry, what is below it, and the rest. */
  function Joined(below: seq<seq<nat>>, rest: seq<seq<nat>>): seq<seq<nat>> {
    [[0]] + Down(below) + Further(rest)
  }

  lemma JoinedInOrder(below: seq<seq<nat>>, rest: seq<seq<nat>>)
    requires InOrder(below) && InOrder(rest)
    requires forall i :: 0 <= i < |below| ==> below[i] != []
    requires forall i :: 0 <= i < |rest| ==> rest[i] != []
    ensures InOrder(Joined(below, rest))
  {
    DownInOrder(below);
    FurtherInOrder(rest);
    hide InOrder;
    var down, far := Down(below), Further(rest);
    forall i | 0 <= i < |down|
      ensures Before([0], down[i])
    {
      assert down[i][1..] == below[i] && [0][1..] == [];
    }
    forall i, j | 0 <= i < |down| && 0 <= j < |far|
      ensures Before(down[i], far[j])
    {
      assert far[j][0] == rest[j][0] + 1;
    }
    forall j | 0 <= j < |far|
      ensures Before([0], far[j])
    {
      assert far[j][0] == rest[j][0] + 1;
    }
    hide Before;
    ThreeInOrder([0], down, far);
  }

  lemma ThreeInOrder(a: seq<nat>, b: seq<seq<nat>>, c: seq<seq<nat>>)
    requires InOrder(b) && InOrder(c)
    requires forall i :: 0 <= i < |b| ==> Before(a, b[i])
    requires forall j :: 0 <= j < |c| ==> Before(a, c[j])
    requires forall i, j :: 0 <= i < |b| && 0 <= j < |c| ==> Before(b[i], c[j])
    ensures InOrder([a] + b + c)
  {
    hide Before;
    var all := [a] + b + c;
    assert forall i :: 0 <= i < |all| ==>
      all[i] == (if i == 0 then a else if i <= |b| then b[i - 1] else c[i - 1 - |b|]);
    forall i, j | 0 <= i < j < |all|
      ensures Before(all[i], all[j])
    {
    }
  }

  // --- nothing is left out ------------------------------------------------------------------------

  lemma NonEmpty(d: seq<byte>, ents: seq<Entry>, path: string, depth: nat, rs: seq<seq<nat>>, items: seq<Item>)
    requires Listed(d, ents, path, depth, rs, items)
    ensures forall i :: 0 <= i < |rs| ==> rs[i] != []
  {
    forall i | 0 <= i < |rs|
      ensures rs[i] != []
    {
      assert Finds(d, ents, path, depth, rs[i], items[i]);
    }
  }

  lemma InJoined(below: seq<seq<nat>>, rest: seq<seq<nat>>, ks: seq<nat>)
    requires ks == [0] || (exists b :: b in below && ks == [0] + b) || (exists r :: r in rest && ks == Next(r))
    ensures ks in Joined(below, rest)
  {
    hide Next;
    var all := Joined(below, rest);
    if ks == [0] {
      assert all[0] == ks;
    } else if b :| b in below && ks == [0] + b {
      var i :| 0 <= i < |below| && below[i] == b;
      assert all[1 + i] == Down(below)[i] == ks;
    } else {
      var r :| r in rest && ks == Next(r);
      var i :| 0 <= i < |rest| && rest[i] == r;
      assert all[1 + |below| + i] == Further(rest)[i] == ks;
    }
  }

  /** Where a way down from a non-empty list begins. */
  lemma AlongCases(d: seq<byte>, ents: seq<Entry>, ks: seq<nat>)
    requires ents != [] && Along(d, ents, ks)
    ensures ks[0] > 0 ==> Along(d, ents[1..], [ks[0] - 1] + ks[1..]) && ks == Next([ks[0] - 1] + ks[1..])
    ensures ks[0] == 0 ==> !Dots(ents[0].name)
    ensures ks[0] == 0 && |ks| > 1 ==>
      Opens(d, ents[0].num) && Along(d, ReadDir(d, ents[0].num).value, ks[1..]) && ks == [0] + ks[1..]
  {
    hide Opens, Dots;
    if ks[0] > 0 {
      var ps := [ks[0] - 1] + ks[1..];
      assert ps[1..] == ks[1..] && ents[1..][ps[0]] == ents[ks[0]];
    }
  }

  // --- the theorem ----------------------------------------------------------------------------------

  lemma NoneListed(d: seq<byte>, path: string, depth: nat)
    ensures Listed(d, [], path, depth, [], [])
  {
  }

  lemma DotsListed(d: seq<byte>, ents: seq<Entry>, path: string, depth: nat, rs: seq<seq<nat>>, items: seq<Item>)
    requires ents != [] && Dots(ents[0].name) && Listed(d, ents[1..], path, depth, rs, items)
    ensures Listed(d, ents, path, depth, Further(rs), items)
  {
    NonEmpty(d, ents[1..], path, depth, rs, items);
    FurtherInOrder(rs);
    DotsAll(d, ents, depth, rs);
    hide Along, Finds, InOrder, Next, Dots, All;
    forall j | 0 <= j < |rs|
      ensures Finds(d, ents, path, depth, Further(rs)[j], items[j])
    {
      NextFinds(d, ents, path, depth, rs[j], items[j]);
    }
  }

  lemma DotsAll(d: seq<byte>, ents: seq<Entry>, depth: nat, rs: seq<seq<nat>>)
    requires ents != [] && Dots(ents[0].name) && All(d, ents[1..], depth, rs)
    ensures All(d, ents, depth, Further(rs))
  {
    hide Along, Next, Dots;
    forall ks | Along(d, ents, ks) && depth + |ks| <= 13
      ensures ks in Further(rs)
    {
      AlongSome(d, ents, ks);
      AlongCases(d, ents, ks);
      var ps := [ks[0] - 1] + ks[1..];
      assert ps in rs;
      var i :| 0 <= i < |rs| && rs[i] == ps;
      assert Further(rs)[i] == ks;
    }
  }

  lemma EntryAll(d: seq<byte>, ents: seq<Entry>, depth: nat, below: seq<seq<nat>>, rest: seq<seq<nat>>)
    requires ents != [] && depth <= 12 && All(d, ents[1..], depth, rest)
    requires Opens(d, ents[0].num) && depth < 12 ==> All(d, ReadDir(d, ents[0].num).value, depth + 1, below)
    ensures All(d, ents, depth, Joined(below, rest))
  {
    hide Along, Next, Dots, ReadDir, ReadInode, IsDir, Joined;
    forall ks | Along(d, ents, ks) && depth + |ks| <= 13
      ensures ks in Joined(below, rest)
    {
      AlongSome(d, ents, ks);
      AlongCases(d, ents, ks);
      if ks[0] > 0 {
        var ps := [ks[0] - 1] + ks[1..];
        assert ps in rest;
      } else if |ks| == 1 {
        assert ks == [0];
      } else {
        assert ks[1..] in below;
      }
      InJoined(below, rest, ks);
    }
  }

  lemma AlongSome(d: seq<byte>, ents: seq<Entry>, ks: seq<nat>)
    requires Along(d, ents, ks)
    ensures ks != []
  {
  }

  lemma EntryFinds(d: seq<byte>, ents: seq<Entry>, path: string, depth: nat, i: InodeRec)
    requires ents != [] && !Dots(ents[0].name) && ReadInode(d, ents[0].num) == Some(i) && depth <= 12
    ensures Finds(d, ents, path, depth, [0], Item(path + "/" + ents[0].name, ents[0].num, i))
  {
    hide ReadInode, Dots;
    OneStep(path, ents[0]);
    assert Picked(d, ents, [0]) == [ents[0]];
  }

  /** What is listed below the first entry, if the walk goes there. */
  ghost predicate Below(d: seq<byte>, ents: seq<Entry>, path: string, depth: nat, below: seq<seq<nat>>, bs: seq<Item>)
    requires ents != []
  {
    if Opens(d, ents[0].num) && depth < 12
    then Listed(d, ReadDir(d, ents[0].num).value, path + "/" + ents[0].name, depth + 1, below, bs)
    else below == [] && bs == []
  }

  lemma BelowParts(d: seq<byte>, ents: seq<Entry>, path: string, depth: nat, below: seq<seq<nat>>, bs: seq<Item>)
    requires ents != [] && !Dots(ents[0].name) && Below(d, ents, path, depth, below, bs)
    ensures |below| == |bs| && InOrder(below) && forall i :: 0 <= i < |below| ==> below[i] != []
    ensures forall j :: 0 <= j < |below| ==> Finds(d, ents, path, depth, Down(below)[j], bs[j])
    ensures Opens(d, ents[0].num) && depth < 12 ==> All(d, ReadDir(d, ents[0].num).value, depth + 1, below)
  {
    hide Finds, Dots, Before, All, ReadDir, ReadInode, IsDir;
    if Opens(d, ents[0].num) && depth < 12 {
      NonEmpty(d, ReadDir(d, ents[0].num).value, path + "/" + ents[0].name, depth + 1, below, bs);
      forall j | 0 <= j < |below|
        ensures Finds(d, ents, path, depth, Down(below)[j], bs[j])
      {
        DownFinds(d, ents, path, depth, below[j], bs[j]);
      }
    }
  }

  lemma RestParts(d: seq<byte>, ents: seq<Entry>, path: string, depth: nat, rest: seq<seq<nat>>, cs: seq<Item>)
    requires ents != [] && Listed(d, ents[1..], path, depth, rest, cs)
    ensures |rest| == |cs| && InOrder(rest) && forall i :: 0 <= i < |rest| ==> rest[i] != []
    ensures forall j :: 0 <= j < |rest| ==> Finds(d, ents, path, depth, Further(rest)[j], cs[j])
    ensures All(d, ents[1..], depth, rest)
  {
    hide Finds, Before, All, Next;
    NonEmpty(d, ents[1..], path, depth, rest, cs);
    forall j | 0 <= j < |rest|
      ensures Finds(d, ents, path, depth, Further(rest)[j], cs[j])
    {
      NextFinds(d, ents, path, depth, rest[j], cs[j]);
    }
  }

  /** An entry, what is listed below it, and what is listed of the other entries. */
  lemma EntryListed(d: seq<byte>, ents: seq<Entry>, path: string, depth: nat, i: InodeRec,
                    below: seq<seq<nat>>, bs: seq<Item>, rest: seq<seq<nat>>, cs: seq<Item>)
    requires ents != [] && !Dots(ents[0].name) && ReadInode(d, ents[0].num) == Some(i) && depth <= 12
    requires Listed(d, ents[1..], path, depth, rest, cs) && Below(d, ents, path, depth, below, bs)
    ensures Listed(d, ents, path, depth, Joined(below, rest),
                   [Item(path + "/" + ents[0].name, ents[0].num, i)] + bs + cs)
  {
    hide Along, Finds, InOrder, Next, Dots, ReadInode, ReadDir, IsDir, All, Opens, Below;
    BelowParts(d, ents, path, depth, below, bs);
    RestParts(d, ents, path, depth, rest, cs);
    JoinedInOrder(below, rest);
    EntryFinds(d, ents, path, depth, i);
    EntryAll(d, ents, depth, below, rest);
    ThreeFind(d, ents, path, depth, [0], Down(below), Further(rest),
              Item(path + "/" + ents[0].name, ents[0].num, i), bs, cs);
  }

  lemma OpensIs(d: seq<byte>, n: nat)
    ensures Opens(d, n) ==> ReadInode(d, n).Some? && IsDir(ReadInode(d, n).value.mode)
  {
  }

  lemma ThreeFind(d: seq<byte>, ents: seq<Entry>, path: string, depth: nat, a: seq<nat>, b: seq<seq<nat>>,
                  c: seq<seq<nat>>, x: Item, bs: seq<Item>, cs: seq<Item>)
    requires |b| == |bs| && |c| == |cs| && Finds(d, ents, path, depth, a, x)
    requires forall j :: 0 <= j < |b| ==> Finds(d, ents, path, depth, b[j], bs[j])
    requires forall j :: 0 <= j < |c| ==> Finds(d, ents, path, depth, c[j], cs[j])
    ensures var rs, items := [a] + b + c, [x] + bs + cs;
      forall j :: 0 <= j < |rs| ==> Finds(d, ents, path, depth, rs[j], items[j])
  {
    hide Finds;
  }

  lemma {:induction false} EntriesListed(d: seq<byte>, ents: seq<Entry>, path: string, depth: nat)
    returns (rs: seq<seq<nat>>)
    requires depth <= 12 && WalkEntries(d, ents, path, depth).Some?
    ensures Listed(d, ents, path, depth, rs, WalkEntries(d, ents, path, depth).value)
    decreases DepthLeft(depth), |ents|
  {
    hide ReadInode, ReadDir, IsDir, WalkEntries, Walk, Dots, DepthLeft, Listed;
    if ents == [] {
      NothingShown(d, path, depth);
      NoneListed(d, path, depth);
      rs := [];
    } else {
      WalkStep(d, ents, path, depth);
      var rest := EntriesListed(d, ents[1..], path, depth);
      var cs := WalkEntries(d, ents[1..], path, depth).value;
      if Dots(ents[0].name) {
        DotsListed(d, ents, path, depth, rest, cs);
        rs := Further(rest);
      } else {
        var n, p, i := ents[0].num, path + "/" + ents[0].name, ReadInode(d, ents[0].num).value;
        var below: seq<seq<nat>>, bs: seq<Item> := [], [];
        if IsDir(i.mode) && depth < 12 {
          WalkUnfolds(d, n, p, depth + 1);
          Deeper(depth);
          below := EntriesListed(d, ReadDir(d, n).value, p, depth + 1);
          bs := Walk(d, n, p, depth + 1).value;
        }
        OpensIs(d, n);
        assert Below(d, ents, path, depth, below, bs);
        EntryListed(d, ents, path, depth, i, below, bs, rest, cs);
        rs := Joined(below, rest);
      }
    }
  }

  /** The whole walk shows every way down of at most 13 steps, once, in order. */
  lemma WalkIsInOrder(d: seq<byte>) returns (rs: seq<seq<nat>>)
    requires WalkAll(d).Some?
    ensures ReadDir(d, 2).Some? && Listed(d, ReadDir(d, 2).value, "", 0, rs, WalkAll(d).value)
  {
    WalkUnfolds(d, 2, "", 0);
    hide Listed, WalkEntries, Walk;
    rs := EntriesListed(d, ReadDir(d, 2).value, "", 0);
  }
}
