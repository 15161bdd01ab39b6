/** The walk on the image of a tree. Every entry of a directory the walk enters is shown; where names tell entries
    apart, nothing else is, so the depth limit, the file type and the skipping of `.` and `..` bite exactly there.
    */
module WalkComplete {
  import opened Bytes
  import opened S5Reader
  import opened TreeModel
  import opened AllocInvariant
  import opened Links
  import opened TreeInvariant
  import opened TreeFinish
  import opened OnDisk
  import opened FreeList
  import opened Image
  import opened RoundTrip
  import opened WalkExact

  /** The path under which the walk meets directory `p`. */
  function WalkPath(p: string): string
    decreases |p|
  {
    if p == "/" || !HasSlash(p) then "" else
      ParentShorter(p);
      WalkPath(ParentPath(p)) + "/" + UpToNul(BaseName(p))
  }

  /** The walk enters `p`: it and the directories above it lie within the depth limit, keep a directory's mode
      and are not called `.` or `..`. */
  predicate Entered(t: Tree, p: string)
    decreases |p|
  {
    if p == "/" then true else
      && HasSlash(p)
      && (ParentShorter(p); Entered(t, ParentPath(p)))
      && PathDepth(p) <= 12
      && !Dots(UpToNul(BaseName(p)))
      && p in t.dirs && IsDir(RecordOf(t, t.dirs[p]).mode)
  }

  function ItemOf(t: Tree, path: string, e: Entry): Item {
    Item(path + "/" + e.name, e.num, RecordOf(t, e.num))
  }

  lemma {:induction false} ListedAt(t: Tree, ents: seq<Entry>, path: string, depth: nat, i: nat)
    requires i < |ents| && !Dots(ents[i].name)
    ensures ItemOf(t, path, ents[i]) in ListEntries(t, ents, path, depth)
    ensures IsDir(RecordOf(t, ents[i].num).mode) && depth < 12 ==>
      forall x :: x in Listing(t, ents[i].num, path + "/" + ents[i].name, depth + 1) ==>
        x in ListEntries(t, ents, path, depth)
    decreases i
  {
    hide Listing, RecordOf, IsDir;
    if i > 0 {
      ListedAt(t, ents[1..], path, depth, i - 1);
    }
  }

  lemma RootListing(t: Tree)
    requires Finished(t)
    ensures "/" in t.dirs && t.dirs["/"] == 2
    ensures Listing(t, t.dirs["/"], WalkPath("/"), PathDepth("/")) == WholeListing(t)
  {
    hide Finished, Listing;
    RootIsDir(t);
  }

  lemma ListingIs(t: Tree, p: string, path: string, depth: nat)
    requires Finished(t) && p in t.dirs
    ensures p in t.entries && Listing(t, t.dirs[p], path, depth) == ListEntries(t, AsNamed(t.entries[p]), path, depth)
  {
    hide Finished, ListEntries, AsNamed, KeysOk, NumsOk, InodesOk, RunsTile, FilesOk, ModesOk;
    FinishedParts(t);
    DirNumExists(t, p);
    assert IsDirNum(t.dirs, t.dirs[p]);
    OnlyPath(t, p);
  }

  lemma OnlyPath(t: Tree, p: string)
    requires KeysOk(t) && p in t.dirs && IsDirNum(t.dirs, t.dirs[p])
    ensures PathOf(t.dirs, t.dirs[p]) == p
  {
    hide Distinct;
    PathOfDir(t, t.dirs[p]);
  }

  /** What the walk lists below `p` is part of the whole listing. */
  lemma {:induction false} PartOfWalk(t: Tree, p: string)
    requires Finished(t) && p in t.dirs && Entered(t, p)
    ensures forall x :: x in Listing(t, t.dirs[p], WalkPath(p), PathDepth(p)) ==> x in WholeListing(t)
    decreases |p|
  {
    hide Finished, Listing, ListEntries, HasSlash, ParentPath, BaseName, UpToNul, RecordOf, IsDir, WholeListing, Dots;
    if p == "/" {
      RootListing(t);
    } else {
      var pp := ParentPath(p);
      ParentShorter(p);
      DirShapes(t, p);
      PartOfWalk(t, pp);
      ListingIs(t, pp, WalkPath(pp), PathDepth(pp));
      var i :| 0 <= i < |t.entries[pp]| && t.entries[pp][i] == Entry(t.dirs[p], BaseName(p));
      assert AsNamed(t.entries[pp])[i] == Entry(t.dirs[p], UpToNul(BaseName(p)));
      ListedAt(t, AsNamed(t.entries[pp]), WalkPath(pp), PathDepth(pp), i);
    }
  }

  /** Every entry of every directory the walk enters is in the walk, under its path, with its inode. */
  lemma WalkMissesNothing(d: seq<byte>, t: Tree, now: nat, fl: Cache, p: string, e: Entry)
    requires Written(d, t, now, fl) && p in t.dirs && p in t.entries && Entered(t, p)
    requires e in t.entries[p] && !Dots(UpToNul(e.name))
    ensures WalkAll(d).Some?
    ensures Item(WalkPath(p) + "/" + UpToNul(e.name), e.num, RecordOf(t, e.num)) in WalkAll(d).value
  {
    hide ImageOf, Finished, Listing, ListEntries, Entered, UpToNul, RecordOf, WholeListing, Dots, WalkPath, WalkAll;
    WalkReturnsTree(d, t, now, fl);
    PartOfWalk(t, p);
    ListingIs(t, p, WalkPath(p), PathDepth(p));
    var i :| 0 <= i < |t.entries[p]| && t.entries[p][i] == e;
    var named := AsNamed(t.entries[p]);
    assert named[i] == Entry(e.num, UpToNul(e.name));
    ListedAt(t, named, WalkPath(p), PathDepth(p), i);
  }

  // --- and shows nothing else -----------------------------------------------------------------

  predicate Slashless(name: string) {
    '/' !in name
  }

  /** No name in the tree has a slash. */
  ghost predicate SlashFree(t: Tree) {
    forall p, i :: p in t.entries && 0 <= i < |t.entries[p]| ==> Slashless(t.entries[p][i].name)
  }

  /** No two entries of a directory are read under the same name. */
  ghost predicate NamesDiffer(t: Tree) {
    forall p, i, j :: p in t.entries && 0 <= i < j < |t.entries[p]| ==>
      UpToNul(t.entries[p][i].name) != UpToNul(t.entries[p][j].name)
  }

  lemma {:induction false} NulSlashless(s: string)
    requires Slashless(s)
    ensures Slashless(UpToNul(s))
  {
    if s != "" {
      NulSlashless(s[1..]);
    }
  }

  lemma SplitAtSlash(a: string, b: string, c: string, d: string)
    requires Slashless(b) && Slashless(d) && a + "/" + b == c + "/" + d
    ensures a == c && b == d
  {
    var x := a + "/" + b;
    assert x[|a|] == '/' && x[|c|] == '/';
    assert forall i :: |a| < i < |x| ==> x[i] == b[i - |a| - 1] && x[i] != '/';
    assert forall i :: |c| < i < |x| ==> x[i] == d[i - |c| - 1] && x[i] != '/';
    assert a == x[..|a|] && c == x[..|c|];
    assert b == x[|a| + 1..] && d == x[|c| + 1..];
  }

  /** A route whose names join to a name below path `p` has a step for every component. */
  lemma {:induction false} RouteLength(p: string, es: seq<Entry>, name: string)
    requires forall i :: 0 <= i < |es| ==> Slashless(es[i].name)
    requires Slashless(name) && RoutePath("", es) == WalkPath(p) + "/" + name
    ensures |es| == PathDepth(p) + 1 && es[|es| - 1].name == name && RoutePath("", es[..|es| - 1]) == WalkPath(p)
    decreases |p|
  {
    hide LastSlash, HasSlash, ParentPath, BaseName, Slashless, UpToNul;
    var init := es[..|es| - 1];
    PathInit("", es);
    SplitAtSlash(RoutePath("", init), es[|es| - 1].name, WalkPath(p), name);
    if p == "/" || !HasSlash(p) {
      if init != [] {
        PathInit("", init);
      }
    } else {
      ParentShorter(p);
      BaseSlashless(p);
      NulSlashless(BaseName(p));
      RouteLength(ParentPath(p), init, UpToNul(BaseName(p)));
    }
  }

  lemma BaseSlashless(p: string)
    requires HasSlash(p)
    ensures Slashless(BaseName(p))
  {
  }

  lemma OpenedDir(d: seq<byte>, t: Tree, now: nat, fl: Cache, n: nat) returns (p: string)
    requires Written(d, t, now, fl) && n in t.fs.inodes && Opens(d, n)
    ensures p in t.dirs && t.dirs[p] == n && p in t.entries && ReadDir(d, n) == Some(AsNamed(t.entries[p]))
    ensures IsDir(RecordOf(t, n).mode)
  {
    hide ImageOf, Finished, ReadInode, ReadDir, IsDirNum, IsDir, AsNamed, RecordOf, AsRead;
    NumbersInTable(t, n);
    InodeReads(d, t.fs, now, fl, n);
    DirByMode(t, n);
    p := PathOf(t.dirs, n);
    PathOfDir(t, n);
    DirReads(d, t, now, fl, p);
  }

  lemma NamedIn(t: Tree, p: string, e: Entry) returns (i: nat)
    requires Finished(t) && p in t.entries && e in AsNamed(t.entries[p])
    ensures i < |t.entries[p]| && e == Entry(t.entries[p][i].num, UpToNul(t.entries[p][i].name)) && e.num in t.fs.inodes
  {
    hide Finished, KeysOk, NumsOk, InodesOk, RunsTile, FilesOk, ModesOk, UpToNul;
    FinishedParts(t);
    EntriesExist(t, p);
    i :| 0 <= i < |t.entries[p]| && AsNamed(t.entries[p])[i] == e;
  }

  /** Every step of a route on the image is an entry of the tree. */
  lemma {:induction false} RouteInTree(d: seq<byte>, t: Tree, now: nat, fl: Cache, p: string, es: seq<Entry>)
    requires Written(d, t, now, fl) && p in t.entries && Leads(d, AsNamed(t.entries[p]), es)
    requires SlashFree(t)
    ensures forall i :: 0 <= i < |es| ==> Slashless(es[i].name)
    decreases |es|
  {
    hide ImageOf, Finished, ReadInode, ReadDir, IsDirNum, IsDir, AsNamed, RecordOf, UpToNul, Opens, Slashless;
    var k := NamedIn(t, p, es[0]);
    NulSlashless(t.entries[p][k].name);
    if |es| > 1 {
      var q := OpenedDir(d, t, now, fl, es[0].num);
      RouteInTree(d, t, now, fl, q, es[1..]);
      assert forall i :: 1 <= i < |es| ==> es[i] == es[1..][i - 1];
    }
  }

  lemma RootRoute(d: seq<byte>, t: Tree, now: nat, fl: Cache, es: seq<Entry>)
    requires Written(d, t, now, fl) && Route(d, 2, es)
    ensures "/" in t.dirs && "/" in t.entries && t.dirs["/"] == 2 && Leads(d, AsNamed(t.entries["/"]), es)
  {
    hide ImageOf, Finished, ReadDir, AsNamed, Leads;
    RootIsDir(t);
    DirReads(d, t, now, fl, "/");
  }

  /** What is more than 12 directories below the root is not in the walk: nothing there is called so. */
  lemma WalkIsShallow(d: seq<byte>, t: Tree, now: nat, fl: Cache, p: string, name: string, x: Item)
    requires Written(d, t, now, fl) && SlashFree(t) && PathDepth(p) > 12 && Slashless(name)
    requires WalkAll(d).Some? && x in WalkAll(d).value
    ensures x.path != WalkPath(p) + "/" + name
  {
    hide ImageOf, Finished, Slashless, WalkPath, WalkAll, ReadInode, Route, SlashFree, RoutePath;
    WalkShowsExactly(d, x);
    var es :| Route(d, 2, es) && |es| <= 13 && AtEnd(d, "", es, x);
    RootRoute(d, t, now, fl, es);
    RouteInTree(d, t, now, fl, "/", es);
    if x.path == WalkPath(p) + "/" + name {
      RouteLength(p, es, name);
    }
  }

  /** Where names tell entries apart, a route that spells a name below `p` runs through `p`, which the walk enters. */
  lemma {:induction false} RouteThrough(d: seq<byte>, t: Tree, now: nat, fl: Cache, p: string, es: seq<Entry>,
                                        name: string)
    requires Written(d, t, now, fl) && NamesDiffer(t) && p in t.dirs
    requires Route(d, 2, es) && |es| <= 13 && Slashless(name) && RoutePath("", es) == WalkPath(p) + "/" + name
    requires forall i :: 0 <= i < |es| ==> Slashless(es[i].name)
    ensures Entered(t, p) && !Dots(name) && es[|es| - 1].name == name
    ensures p in t.entries && es[|es| - 1] in AsNamed(t.entries[p])
    decreases |p|
  {
    hide ImageOf, Finished, ReadInode, ReadDir, IsDirNum, IsDir, AsNamed, RecordOf, UpToNul, Slashless, LastSlash,
      HasSlash, ParentPath, BaseName, Opens, Leads, RoutePath, NamesDiffer, Dots;
    RouteLength(p, es, name);
    RootRoute(d, t, now, fl, es);
    if p == "/" {
      LeadsStart(d, AsNamed(t.entries["/"]), es);
      assert es == [es[0]];
    } else {
      DirShapes(t, p);
      var pp, base := ParentPath(p), UpToNul(BaseName(p));
      ParentShorter(p);
      LeadsInit(d, AsNamed(t.entries["/"]), es);
      BaseSlashless(p);
      NulSlashless(BaseName(p));
      var init := es[..|es| - 1];
      InitRoute(d, 2, es);
      RouteThrough(d, t, now, fl, pp, init, base);
      OnlyEntry(t, pp, init[|init| - 1], Entry(t.dirs[p], BaseName(p)));
      DirNumExists(t, p);
      var q := OpenedDir(d, t, now, fl, t.dirs[p]);
      DirReads(d, t, now, fl, p);
    }
  }

  lemma OnlyEntry(t: Tree, p: string, a: Entry, e: Entry)
    requires NamesDiffer(t) && p in t.entries && a in AsNamed(t.entries[p]) && e in t.entries[p]
    requires a.name == UpToNul(e.name)
    ensures a.num == e.num
  {
    hide UpToNul;
    var i :| 0 <= i < |t.entries[p]| && AsNamed(t.entries[p])[i] == a;
    var j :| 0 <= j < |t.entries[p]| && t.entries[p][j] == e;
  }

  ghost predicate IsShownAt(items: seq<Item>, path: string) {
    exists x :: x in items && x.path == path
  }

  /** Where names tell entries apart, the walk shows an entry of `p` exactly when it enters `p` and the name is not `.`
      or `..`. */
  lemma WalkShowsWhen(d: seq<byte>, t: Tree, now: nat, fl: Cache, p: string, e: Entry)
    requires Written(d, t, now, fl) && SlashFree(t) && NamesDiffer(t)
    requires p in t.dirs && p in t.entries && e in t.entries[p]
    ensures WalkAll(d).Some?
    ensures IsShownAt(WalkAll(d).value, WalkPath(p) + "/" + UpToNul(e.name)) <==>
      Entered(t, p) && !Dots(UpToNul(e.name))
  {
    hide ImageOf, Finished, Slashless, WalkPath, WalkAll, ReadInode, Route, NamesDiffer, Entered, Dots, UpToNul,
      RecordOf, RoutePath;
    WalkReturnsTree(d, t, now, fl);
    var path, name := WalkPath(p) + "/" + UpToNul(e.name), UpToNul(e.name);
    if Entered(t, p) && !Dots(name) {
      WalkMissesNothing(d, t, now, fl, p, e);
      assert Item(path, e.num, RecordOf(t, e.num)).path == path;
    }
    if x :| x in WalkAll(d).value && x.path == path {
      WalkShowsExactly(d, x);
      var es :| Route(d, 2, es) && |es| <= 13 && AtEnd(d, "", es, x);
      RootRoute(d, t, now, fl, es);
      RouteInTree(d, t, now, fl, "/", es);
      NulSlashless(e.name);
      RouteThrough(d, t, now, fl, p, es, name);
    }
  }

  // --- paths as the walk spells them -----------------------------------------------------------

  /** A path from the root that names something, and has no NUL: empty components after the first do no harm. */
  predicate PlainPath(p: string) {
    p == "" || (|p| >= 2 && p[0] == '/' && p[1] != '/' && '\0' !in p)
  }

  lemma {:induction false} NoNul(s: string)
    ensures UpToNul(s) == s <==> '\0' !in s
    ensures |UpToNul(s)| <= |s|
  {
    if s != "" {
      NoNul(s[1..]);
      assert s == [s[0]] + s[1..];
    }
  }

  lemma SplitPath(p: string)
    requires HasSlash(p)
    ensures p == p[..LastSlash(p)] + "/" + BaseName(p)
  {
  }

  lemma {:induction false} WalkPathShort(p: string)
    ensures |WalkPath(p)| <= |p|
    decreases |p|
  {
    hide UpToNul, LastSlash;
    if p != "/" && HasSlash(p) {
      NoNul(BaseName(p));
      SplitPath(p);
      if LastSlash(p) == 0 {
        assert WalkPath("/") == "";
      } else {
        ParentShorter(p);
        WalkPathShort(ParentPath(p));
      }
    }
  }

  lemma PartsEqual(a: string, b: string, c: string, d: string)
    requires |a| <= |c| && |b| <= |d|
    ensures a + "/" + b == c + "/" + d <==> a == c && b == d
  {
    if a + "/" + b == c + "/" + d {
      assert |a| + |b| == |c| + |d|;
      assert a == (a + "/" + b)[..|a|] && c == (c + "/" + d)[..|c|];
      assert b == (a + "/" + b)[|a| + 1..] && d == (c + "/" + d)[|c| + 1..];
    }
  }

  lemma PlainParts(p: string)
    requires HasSlash(p) && LastSlash(p) > 0 && p[..LastSlash(p)] != "/"
    ensures PlainPath(p) <==> PlainPath(p[..LastSlash(p)]) && '\0' !in BaseName(p)
  {
    SplitPath(p);
    var a, b := p[..LastSlash(p)], BaseName(p);
    assert '\0' in p <==> '\0' in a || '\0' in b by {
      assert forall i :: 0 <= i < |p| ==> p[i] == if i < |a| then a[i] else if i == |a| then '/' else b[i - |a| - 1];
      assert forall i :: 0 <= i < |b| ==> b[i] == p[|a| + 1 + i];
    }
    hide LastSlash, BaseName;
    assert p[0] == a[0] && (|a| > 1 ==> p[1] == a[1]);
    if |a| == 1 {
      assert a == [a[0]];
    }
  }

  lemma RootPart(p: string)
    requires HasSlash(p) && LastSlash(p) == 0 && p != "/"
    ensures PlainPath(p) <==> '\0' !in BaseName(p)
    ensures p == "" + "/" + BaseName(p)
  {
    assert p == ['/'] + p[1..];
    assert |p| == 1 ==> p == "/";
  }

  /** How the walk spells a path with a slash that is not the root. */
  lemma WalkPathParts(p: string)
    requires p != "/" && HasSlash(p)
    ensures p == p[..LastSlash(p)] + "/" + BaseName(p)
    ensures LastSlash(p) == 0 ==> WalkPath(p) == "" + "/" + UpToNul(BaseName(p))
    ensures LastSlash(p) > 0 ==>
      |p[..LastSlash(p)]| < |p| && WalkPath(p) == WalkPath(p[..LastSlash(p)]) + "/" + UpToNul(BaseName(p))
  {
    hide UpToNul, LastSlash;
    SplitPath(p);
    if LastSlash(p) == 0 {
      assert WalkPath("/") == "";
    } else {
      ParentShorter(p);
    }
  }

  /** The walk shows a path itself exactly when it is plain. */
  lemma {:induction false} WalkShowsPath(p: string)
    ensures WalkPath(p) == p <==> PlainPath(p)
    decreases |p|
  {
    if p == "" || p == "/" || !HasSlash(p) {
      hide LastSlash, UpToNul;
    } else {
      hide UpToNul, LastSlash, HasSlash, BaseName, WalkPath, PlainPath;
      WalkPathParts(p);
      NoNul(BaseName(p));
      if LastSlash(p) == 0 {
        RootPart(p);
        PartsEqual("", UpToNul(BaseName(p)), "", BaseName(p));
      } else if p[..LastSlash(p)] == "/" {
        DoubleSlash(p);
      } else {
        WalkPathShort(p[..LastSlash(p)]);
        PartsEqual(WalkPath(p[..LastSlash(p)]), UpToNul(BaseName(p)), p[..LastSlash(p)], BaseName(p));
        WalkShowsPath(p[..LastSlash(p)]);
        PlainParts(p);
      }
    }
  }

  lemma DoubleSlash(p: string)
    requires HasSlash(p) && LastSlash(p) > 0 && p[..LastSlash(p)] == "/"
    ensures WalkPath(p) != p && !PlainPath(p)
  {
    WalkPathParts(p);
    NoNul(BaseName(p));
    hide UpToNul, LastSlash;
    assert WalkPath("/") == "";
    assert p[0] == '/' && p[1] == '/';
  }
}
