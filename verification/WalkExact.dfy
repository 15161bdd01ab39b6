/** What the walk of the reader shows, exactly, on any bytes: a route is a way down through directories as they are
    read, and an item is in the walk if and only if it is what a route of at most 13 steps leads to. */
module WalkExact {
  import opened Bytes
  import opened S5Reader

  predicate Dots(name: string) {
    name == "." || name == ".."
  }

  /** A way down from a directory whose entries are `ents`: each step is an entry of the directory the step before leads
      to, none is `.` or `..`, and all but the last are for directories. */
  ghost predicate Leads(d: seq<byte>, ents: seq<Entry>, es: seq<Entry>)
    decreases |es|
  {
    && es != [] && es[0] in ents && !Dots(es[0].name)
    && (|es| > 1 ==> Opens(d, es[0].num) && Leads(d, ReadDir(d, es[0].num).value, es[1..]))
  }

  /** Inode `n` is a directory, and can be read as one. */
  predicate Opens(d: seq<byte>, n: nat) {
    ReadInode(d, n).Some? && IsDir(ReadInode(d, n).value.mode) && ReadDir(d, n).Some?
  }

  ghost predicate Route(d: seq<byte>, n: nat, es: seq<Entry>) {
    ReadDir(d, n).Some? && Leads(d, ReadDir(d, n).value, es)
  }

  /** The names of a route, joined. */
  function RoutePath(path: string, es: seq<Entry>): string
    decreases |es|
  {
    if es == [] then path else RoutePath(path + "/" + es[0].name, es[1..])
  }

  /** `x` is what the last step leads to, under the joined names. */
  ghost predicate AtEnd(d: seq<byte>, path: string, es: seq<Entry>, x: Item) {
    && es != []
    && var n := es[|es| - 1].num;
    && ReadInode(d, n).Some? && x == Item(RoutePath(path, es), n, ReadInode(d, n).value)
  }

  ghost predicate Shown(d: seq<byte>, ents: seq<Entry>, path: string, depth: nat, es: seq<Entry>, x: Item) {
    Leads(d, ents, es) && depth + |es| <= 13 && AtEnd(d, path, es, x)
  }

  lemma LeadsAmong(d: seq<byte>, ents: seq<Entry>, more: seq<Entry>, es: seq<Entry>)
    requires Leads(d, ents, es) && es[0] in more
    ensures Leads(d, more, es)
  {
  }

  /** What one entry adds to the walk: itself, and what is below it. */
  lemma WalkStep(d: seq<byte>, ents: seq<Entry>, path: string, depth: nat)
    requires ents != [] && WalkEntries(d, ents, path, depth).Some?
    ensures WalkEntries(d, ents[1..], path, depth).Some?
    ensures Dots(ents[0].name) ==> WalkEntries(d, ents, path, depth) == WalkEntries(d, ents[1..], path, depth)
    ensures !Dots(ents[0].name) ==>
      var n, p := ents[0].num, path + "/" + ents[0].name;
      && ReadInode(d, n).Some?
      && var i, rest := ReadInode(d, n).value, WalkEntries(d, ents[1..], path, depth).value;
      && (IsDir(i.mode) && depth < 12 ==> Opens(d, n) && Walk(d, n, p, depth + 1).Some?)
      && WalkEntries(d, ents, path, depth).value ==
           [Item(p, n, i)] + (if IsDir(i.mode) && depth < 12 then Walk(d, n, p, depth + 1).value else []) + rest
  {
  }

  lemma InThree<T>(x: T, a: T, b: seq<T>, c: seq<T>)
    ensures x in [a] + b + c <==> x == a || x in b || x in c
  {
  }

  /** Every item has a route. */
  lemma {:induction false} ShownBy(d: seq<byte>, ents: seq<Entry>, path: string, depth: nat, x: Item)
    returns (es: seq<Entry>)
    requires depth <= 12 && WalkEntries(d, ents, path, depth).Some? && x in WalkEntries(d, ents, path, depth).value
    ensures Shown(d, ents, path, depth, es, x)
    decreases DepthLeft(depth), |ents|
  {
    hide ReadInode, ReadDir, IsDir, WalkEntries, Walk, Dots, DepthLeft;
    if ents == [] {
      NothingShown(d, path, depth);
      assert false;
    } else {
      WalkStep(d, ents, path, depth);
      var e, rest := ents[0], WalkEntries(d, ents[1..], path, depth).value;
      if x in rest {
        es := ShownBy(d, ents[1..], path, depth, x);
        LeadsAmong(d, ents[1..], ents, es);
      } else {
        var i, p := ReadInode(d, e.num).value, path + "/" + e.name;
        var below := if IsDir(i.mode) && depth < 12 then Walk(d, e.num, p, depth + 1).value else [];
        InThree(x, Item(p, e.num, i), below, rest);
        if x == Item(p, e.num, i) {
          es := [e];
          OneStep(path, e);
        } else {
          WalkUnfolds(d, e.num, p, depth + 1);
          Deeper(depth);
          var tail := ShownBy(d, ReadDir(d, e.num).value, p, depth + 1, x);
          es := [e] + tail;
          assert es[1..] == tail;
        }
      }
    }
  }

  lemma Deeper(depth: nat)
    requires depth < 12
    ensures DepthLeft(depth + 1) < DepthLeft(depth)
  {
  }

  lemma NothingShown(d: seq<byte>, path: string, depth: nat)
    ensures WalkEntries(d, [], path, depth) == Some([])
  {
  }

  lemma WalkUnfolds(d: seq<byte>, n: nat, path: string, depth: nat)
    ensures ReadDir(d, n).Some? ==> Walk(d, n, path, depth) == WalkEntries(d, ReadDir(d, n).value, path, depth)
    ensures Walk(d, n, path, depth).Some? ==> ReadDir(d, n).Some?
  {
  }

  lemma OneStep(path: string, e: Entry)
    ensures RoutePath(path, [e]) == path + "/" + e.name
  {
    assert [e][1..] == [];
  }

  /** Every route of the right length is followed. */
  lemma {:induction false} IsShown(d: seq<byte>, ents: seq<Entry>, path: string, depth: nat, es: seq<Entry>, x: Item)
    requires WalkEntries(d, ents, path, depth).Some? && Shown(d, ents, path, depth, es, x)
    ensures x in WalkEntries(d, ents, path, depth).value
    decreases DepthLeft(depth), |ents|
  {
    hide ReadInode, ReadDir, IsDir, WalkEntries, Walk, Dots, DepthLeft;
    WalkStep(d, ents, path, depth);
    var e, rest := ents[0], WalkEntries(d, ents[1..], path, depth).value;
    if es[0] != e {
      assert es[0] in ents[1..];
      LeadsAmong(d, ents, ents[1..], es);
      IsShown(d, ents[1..], path, depth, es, x);
    } else {
      var i, p := ReadInode(d, e.num).value, path + "/" + e.name;
      var below := if IsDir(i.mode) && depth < 12 then Walk(d, e.num, p, depth + 1).value else [];
      if |es| == 1 {
        assert es == [e];
        OneStep(path, e);
      } else {
        WalkUnfolds(d, e.num, p, depth + 1);
        Deeper(depth);
        IsShown(d, ReadDir(d, e.num).value, p, depth + 1, es[1..], x);
      }
      InThree(x, Item(p, e.num, i), below, rest);
    }
  }

  /** On any bytes: the walk from `n` shows exactly what the routes from there lead to that do not pass depth 12. */
  lemma WalkIsRoutes(d: seq<byte>, n: nat, path: string, depth: nat, x: Item)
    requires depth <= 12 && Walk(d, n, path, depth).Some?
    ensures x in Walk(d, n, path, depth).value <==>
      exists es :: Route(d, n, es) && depth + |es| <= 13 && AtEnd(d, path, es, x)
  {
    hide ReadInode, ReadDir, WalkEntries, Walk, Leads, AtEnd;
    WalkUnfolds(d, n, path, depth);
    var ents := ReadDir(d, n).value;
    if x in Walk(d, n, path, depth).value {
      var es := ShownBy(d, ents, path, depth, x);
      assert Route(d, n, es);
    }
    if es :| Route(d, n, es) && depth + |es| <= 13 && AtEnd(d, path, es, x) {
      IsShown(d, ents, path, depth, es, x);
    }
  }

  /** The whole walk: everything that is at most 13 names away from the root, and nothing else. */
  lemma WalkShowsExactly(d: seq<byte>, x: Item)
    requires WalkAll(d).Some?
    ensures x in WalkAll(d).value <==> exists es :: Route(d, 2, es) && |es| <= 13 && AtEnd(d, "", es, x)
  {
    hide Walk, Route, AtEnd;
    WalkIsRoutes(d, 2, "", 0, x);
  }

  // --- routes step by step ------------------------------------------------------------------

  /** A route without its last step is a route, and the last step is an entry of the directory it leads to. */
  lemma {:induction false} LeadsInit(d: seq<byte>, ents: seq<Entry>, es: seq<Entry>)
    requires Leads(d, ents, es) && |es| > 1
    ensures var init, n := es[..|es| - 1], es[|es| - 2].num;
      Leads(d, ents, init) && Opens(d, n) && es[|es| - 1] in ReadDir(d, n).value && !Dots(es[|es| - 1].name)
    decreases |es|
  {
    hide Dots, ReadDir, ReadInode;
    var init, tail := es[..|es| - 1], es[1..];
    var below := ReadDir(d, es[0].num).value;
    if |es| > 2 {
      LeadsInit(d, below, tail);
      assert init[1..] == tail[..|tail| - 1];
    } else {
      assert tail == [es[1]];
    }
  }

  lemma InitRoute(d: seq<byte>, n: nat, es: seq<Entry>)
    requires Route(d, n, es) && |es| > 1
    ensures Route(d, n, es[..|es| - 1])
  {
    hide Leads;
    LeadsInit(d, ReadDir(d, n).value, es);
  }

  lemma LeadsStart(d: seq<byte>, ents: seq<Entry>, es: seq<Entry>)
    requires Leads(d, ents, es)
    ensures es != [] && es[0] in ents && !Dots(es[0].name)
  {
  }

  lemma {:induction false} PathInit(path: string, es: seq<Entry>)
    requires es != []
    ensures RoutePath(path, es) == RoutePath(path, es[..|es| - 1]) + "/" + es[|es| - 1].name
    decreases |es|
  {
    if |es| == 1 {
      assert es == [es[0]];
      OneStep(path, es[0]);
    } else {
      PathInit(path + "/" + es[0].name, es[1..]);
      assert es[1..][..|es| - 2] == es[..|es| - 1][1..];
    }
  }
}
