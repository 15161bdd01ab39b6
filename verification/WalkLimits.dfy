/** What the walk leaves out, seen from the input: directories too deep, and directories a `dir` line gives another
    type. An input of one deep directory shows that the depth limit does bite. */
module WalkLimits {
  import opened Bytes
  import opened S5Reader
  import opened FileStore
  import opened FsModel
  import opened TreeModel
  import opened TreeInvariant
  import opened TreeSteps
  import opened TreeRuns
  import opened TreeFinish
  import opened TreeInput
  import opened OnDisk
  import opened FreeList
  import opened Image
  import opened RoundTrip
  import opened WalkExact
  import opened WalkComplete
  import opened InputAccounts
  import opened BlockUse
  import opened BuildOutcome

  // --- names without slashes --------------------------------------------------------------------

  ghost predicate HostSlashless(host: seq<Visit>) {
    forall i, j :: 0 <= i < |host| && 0 <= j < |host[i].files| ==> Slashless(host[i].files[j].name)
  }

  lemma SlashFreeAppend(t: Tree, t': Tree, p: string, e: Entry)
    requires SlashFree(t) && Slashless(e.name) && p in t.entries && t'.entries == Append(t.entries, p, e)
    ensures SlashFree(t')
  {
    hide Slashless;
    forall q, i | q in t'.entries && 0 <= i < |t'.entries[q]|
      ensures Slashless(t'.entries[q][i].name)
    {
      if q == p && i == |t.entries[p]| {
        assert t'.entries[q][i] == e;
      } else {
        assert t'.entries[q][i] == t.entries[q][i];
      }
    }
  }

  lemma SlashFreeNewDir(t: Tree, t': Tree, path: string, d: nat, parent: nat)
    requires SlashFree(t) && HasSlash(path) && path !in t.entries && ParentPath(path) in t.entries
    requires t'.entries == WithDirEntries(t.entries, path, d, parent)
    ensures SlashFree(t')
  {
    hide HasSlash, ParentPath, BaseName;
    var mid := t.(entries := t.entries[path := [Entry(d, "."), Entry(parent, "..")]]);
    assert SlashFree(mid);
    BaseSlashless(path);
    SlashFreeAppend(mid, t', ParentPath(path), Entry(d, BaseName(path)));
  }

  lemma {:induction false} SlashFreeGetDir(t: Tree, path: string)
    requires Keyed(t) && GetDir(t, path).Success? && SlashFree(t)
    ensures SlashFree(GetDir(t, path).value)
    decreases |path|
  {
    hide NewDir, SlashFree, LastSlash, HasSlash, ParentPath, WithDir, WithDirEntries;
    if path !in t.dirs {
      ParentShorter(path);
      var t1 := GetDir(t, ParentPath(path)).value;
      SlashFreeGetDir(t, ParentPath(path));
      NewDirParts(t1, path);
      KeysAlike(t1, path);
      SlashFreeNewDir(t1, NewDir(t1, path).value, path, t1.fs.nextIno, t1.dirs[ParentPath(path)]);
    }
  }

  lemma KeysAlike(t: Tree, p: string)
    requires Keyed(t)
    ensures p in t.dirs <==> p in t.entries
  {
    assert p in t.dirs.Keys <==> p in t.entries.Keys;
  }

  lemma {:induction false} SlashFreeFiles(t: Tree, here: string, files: seq<HostFile>)
    requires Keyed(t) && here in t.entries && AddFiles(t, here, files).Success? && SlashFree(t)
    requires forall j :: 0 <= j < |files| ==> Slashless(files[j].name)
    ensures SlashFree(AddFiles(t, here, files).value)
  {
    hide AddFile, SlashFree, Slashless;
    if files != [] {
      var init, f := files[..|files| - 1], files[|files| - 1];
      SlashFreeFiles(t, here, init);
      var t1 := AddFiles(t, here, init).value;
      AddFileEffect(t1, here, f);
      SlashFreeAppend(t1, AddFile(t1, here, f).value, here, Entry(t1.fs.nextIno, f.name));
    }
  }

  lemma {:induction false} SlashFreeVisits(t: Tree, host: seq<Visit>)
    requires Keyed(t) && AddVisits(t, host).Success? && SlashFree(t) && HostSlashless(host)
    ensures SlashFree(AddVisits(t, host).value)
  {
    hide GetDir, AddFiles, SlashFree, Slashless;
    if host != [] {
      var init, v := host[..|host| - 1], host[|host| - 1];
      assert forall i :: 0 <= i < |init| ==> init[i] == host[i];
      SlashFreeVisits(t, init);
      var t1 := AddVisits(t, init).value;
      SlashFreeGetDir(t1, v.here);
      SlashFreeFiles(GetDir(t1, v.here).value, v.here, v.files);
    }
  }

  lemma SlashFreeLine(t: Tree, line: SpecLine)
    requires Keyed(t) && AddLine(t, line).Success? && SlashFree(t)
    ensures SlashFree(AddLine(t, line).value)
  {
    hide GetDir, HasSlash, LastSlash, ParentPath, BaseName, LastMatch, BitOr, DeviceMode, DeviceNumber, SlashFree,
      Slashless, Append, AddLink;
    var t1, t' := GetDir(t, LineDir(line)).value, AddLine(t, line).value;
    SlashFreeGetDir(t, LineDir(line));
    if line.DirLine? {
      SameEntries(t1, t');
    } else {
      BaseSlashless(line.path);
      var n := if line.DevLine? then t1.fs.nextIno else
        LastMatch(t1.entries[ParentPath(line.target)], BaseName(line.target)).value;
      SlashFreeAppend(t1, t', ParentPath(line.path), Entry(n, BaseName(line.path)));
    }
  }

  lemma SameEntries(t: Tree, t': Tree)
    requires SlashFree(t) && t'.entries == t.entries
    ensures SlashFree(t')
  {
  }

  lemma {:induction false} SlashFreeLines(t: Tree, spec: seq<SpecLine>)
    requires Keyed(t) && AddLines(t, spec).Success? && SlashFree(t)
    ensures SlashFree(AddLines(t, spec).value)
  {
    hide AddLine, SlashFree;
    if spec != [] {
      SlashFreeLines(t, spec[..|spec| - 1]);
      SlashFreeLine(AddLines(t, spec[..|spec| - 1]).value, spec[|spec| - 1]);
    }
  }

  /** Spec lines cannot bring a slash into a name, and host names have none. */
  lemma BuildSlashFree(nblocks: nat, ninodes: nat, host: seq<Visit>, spec: seq<SpecLine>)
    requires Build(Init(nblocks, ninodes), host, spec).Success? && HostSlashless(host)
    ensures SlashFree(Build(Init(nblocks, ninodes), host, spec).value)
  {
    hide AddVisits, AddLines, StoreDirs, Init, Root, SlashFree, HostSlashless;
    var t0 := Root(Init(nblocks, ninodes)).value;
    assert SlashFree(t0) by {
      RootSlashFree(nblocks, ninodes);
    }
    RootKeyed(nblocks, ninodes);
    var t1 := AddVisits(t0, host).value;
    var t := AddLines(t1, spec).value;
    SlashFreeVisits(t0, host);
    SlashFreeLines(t1, spec);
    SameEntries(t, StoreDirs(t, t.order).value);
  }

  lemma RootSlashFree(nblocks: nat, ninodes: nat)
    requires Root(Init(nblocks, ninodes)).Success?
    ensures SlashFree(Root(Init(nblocks, ninodes)).value)
  {
    RootValue(nblocks, ninodes);
  }

  lemma RootKeyed(nblocks: nat, ninodes: nat)
    requires Root(Init(nblocks, ninodes)).Success?
    ensures Keyed(Root(Init(nblocks, ninodes)).value)
  {
  }

  /** For every input whose host names have no slash: the walk of the image shows no name more than 12 directories below
      the root. */
  lemma DeepIsLeftOut(nblocks: nat, ninodes: nat, host: seq<Visit>, spec: seq<SpecLine>,
                      d: seq<byte>, now: nat, fl: Cache, p: string, name: string)
    requires Build(Init(nblocks, ninodes), host, spec).Success? && HostSlashless(host)
    requires Written(d, Build(Init(nblocks, ninodes), host, spec).value, now, fl)
    requires PathDepth(p) > 12 && Slashless(name)
    ensures WalkAll(d).Some? && !IsShownAt(WalkAll(d).value, WalkPath(p) + "/" + name)
  {
    hide Build, Init, Written, HostSlashless, SlashFree, Slashless, WalkPath, WalkAll;
    var t := Build(Init(nblocks, ninodes), host, spec).value;
    BuildSlashFree(nblocks, ninodes, host, spec);
    WalkReturnsTree(d, t, now, fl);
    if x :| x in WalkAll(d).value && x.path == WalkPath(p) + "/" + name {
      WalkIsShallow(d, t, now, fl, p, name, x);
    }
  }

  // --- the type of a directory ------------------------------------------------------------------

  lemma Nibble(x: nat)
    ensures x % 16 == x % 2 + 2 * (x / 2 % 2) + 4 * (x / 2 / 2 % 2) + 8 * (x / 2 / 2 / 2 % 2)
  {
    var a := x / 2;
    var b := a / 2;
    var c := b / 2;
    Sixteen(x, c / 2, x % 2 + 2 * (a % 2) + 4 * (b % 2) + 8 * (c % 2));
  }

  lemma Sixteen(x: nat, e: nat, s: nat)
    requires x == 16 * e + s && s < 16
    ensures x % 16 == s
  {
  }

  lemma OrFour(x: nat)
    ensures BitOr(4, x) % 16 == 4 <==> x % 16 == 0 || x % 16 == 4
  {
    hide BitOr;
    var r := BitOr(4, x);
    BitOrHalf(4, x);
    BitOrHalf(2, x / 2);
    BitOrHalf(1, x / 2 / 2);
    OrNothing(x / 2 / 2 / 2);
    Nibble(r);
    Nibble(x);
  }

  lemma OrNothing(x: nat)
    ensures BitOr(0, x) == x
  {
  }

  lemma Shift12(a: nat)
    ensures Shift(a, 12) == a / 4096
  {
    hide Shift;
    ShiftAdd(a, 4, 8);
    Shift4(a);
    ShiftAdd(a / 16, 4, 4);
    Shift4(a / 16);
    Shift4(a / 256);
  }

  /** A `dir` line leaves the directory's type alone exactly when the type bits of its mode are none or a
      directory's own. With any other, 0100000 for one, the walk does not enter the directory. */
  lemma DirLineKeepsType(mode: nat)
    ensures IsDir(BitOr(S_IFDIR, mode)) <==> mode / 4096 % 16 == 0 || mode / 4096 % 16 == 4
  {
    hide BitOr, Shift;
    BitOrShift(S_IFDIR, mode, 12);
    Shift12(BitOr(S_IFDIR, mode));
    Shift12(S_IFDIR);
    Shift12(mode);
    OrFour(mode / 4096);
  }

  // --- a directory too deep ---------------------------------------------------------------------

  const DEEP: nat := 14

  /** `/a/a/.../a`, `k` names. */
  function Deep(k: nat): (p: string)
    ensures |p| == if k == 0 then 1 else 2 * k
    ensures p[0] == '/'
  {
    if k == 0 then "/" else if k == 1 then "/a" else Deep(k - 1) + "/a"
  }

  lemma DeepParts(k: nat)
    requires k > 0
    ensures HasSlash(Deep(k)) && ParentPath(Deep(k)) == Deep(k - 1) && BaseName(Deep(k)) == "a" && Deep(k) != "/"
  {
    var p := Deep(k);
    var front := p[..|p| - 1];
    assert p[|p| - 1] == 'a' && front[|front| - 1] == '/';
    assert LastSlash(front) == |front| - 1;
    assert LastSlash(p) == |p| - 2;
    if k > 1 {
      assert p[..|p| - 2] == Deep(k - 1);
    }
  }

  function DeepHost(): seq<Visit> {
    [Visit(Deep(DEEP), [])]
  }

  function DeepStart(): State {
    Init(64, 512)
  }

  /** The names after the directory of `k` names is made. */
  ghost predicate Chain(n: Names, k: nat) {
    && Rooted(n)
    && |n.order| == k + 1
    && (forall p :: p in n.names ==> |p| <= |Deep(k)|)
    && (forall p :: p in n.names ==> Short(n.names[p]))
    && Deep(k) in n.names && |n.names[Deep(k)]| == 2
  }

  predicate Short(names: seq<string>) {
    |names| <= 3 && forall i :: 0 <= i < |names| ==> |names[i]| <= 2 && Latin1(names[i])
  }

  lemma ShortFits(names: seq<string>)
    requires Short(names)
    ensures DirFits(names) && Total(DirSize(|names|)) <= 1
  {
  }

  lemma {:induction false} ChainGrows(k: nat)
    ensures Rooted(RootNames())
    ensures var r := NameDir(RootNames(), Deep(k));
      r.Some? && Chain(r.value, k)
  {
    if k > 0 {
      ChainGrows(k - 1);
      DeepParts(k);
      hide LastSlash, HasSlash, ParentPath, BaseName, Deep;
      assert Deep(k) !in RootNames().names;
      var n := NameDir(RootNames(), Deep(k - 1)).value;
      ChainStep(n, k);
    }
  }

  lemma ChainStep(n: Names, k: nat)
    requires k > 0 && Chain(n, k - 1)
    requires HasSlash(Deep(k)) && ParentPath(Deep(k)) == Deep(k - 1) && BaseName(Deep(k)) == "a"
    ensures Deep(k) !in n.names && Chain(NameNewDir(n, Deep(k)), k)
  {
    hide LastSlash, HasSlash, ParentPath, BaseName;
  }

  lemma {:induction false} ChainTotal(n: Names, order: seq<string>)
    requires forall p :: p in n.names ==> Short(n.names[p])
    ensures NamesTotal(n.names, order) <= |order|
  {
    hide Short, Total;
    if order != [] {
      ChainTotal(n, order[..|order| - 1]);
      var p := order[|order| - 1];
      if p in n.names {
        ShortFits(n.names[p]);
      }
    }
  }

  lemma DeepBuilt()
    ensures Build(DeepStart(), DeepHost(), []).Success?
  {
    hide Deep, NameDir, RootNames, NamesTotal, Rooted, Build,
      DirFits, Short;
    ChainGrows(DEEP);
    var n := NameDir(RootNames(), Deep(DEEP)).value;
    assert DeepHost()[..0] == [];
    assert NameFiles(n, Deep(DEEP), []) == n;
    assert NameVisits(RootNames(), []) == Some(RootNames());
    assert NameVisits(RootNames(), DeepHost()) == Some(n);
    assert Sketch(DeepHost(), []) == Some(n);
    ChainTotal(n, n.order);
    forall p | p in n.names
      ensures DirFits(n.names[p])
    {
      ShortFits(n.names[p]);
    }
    NoContents();
    BuildSucceedsWhen(64, 512, DeepHost(), []);
  }

  lemma NoContents()
    ensures FileCount(DeepHost()) == 0 && DeviceLines([]) == 0
    ensures HostContents(DeepHost()) == [] && RunTotal([]) == 0 && SizesOk([])
  {
    assert DeepHost()[..0] == [];
  }

  lemma {:induction false} DeepPaths(k: nat)
    ensures PathDepth(Deep(k)) == k && WalkPath(Deep(k)) == if k == 0 then "" else Deep(k)
  {
    hide LastSlash, HasSlash, ParentPath, BaseName, Deep, UpToNul;
    if k > 0 {
      DeepParts(k);
      DeepPaths(k - 1);
      AName();
      DeepSplits(k);
    } else {
      RootDeep();
    }
  }

  lemma AName()
    ensures UpToNul("a") == "a" && !Dots("a") && Slashless("a")
  {
    assert UpToNul("a") == ['a'] + UpToNul("");
  }

  lemma NoLineType(p: string)
    ensures IsDir(SpecMode([], p))
  {
  }

  lemma RootDeep()
    ensures Deep(0) == "/"
  {
  }

  lemma {:induction false} DeepEnters(k: nat)
    requires k <= 12
    ensures Enters([], Deep(k))
  {
    hide LastSlash, HasSlash, ParentPath, BaseName, Deep, PathDepth, UpToNul, WalkPath, Dots, IsDir;
    if k > 0 {
      DeepParts(k);
      DeepPaths(k);
      AName();
      DeepEnters(k - 1);
      NoLineType(Deep(k));
    } else {
      assert Deep(0) == "/" by {
        RootDeep();
      }
    }
  }

  lemma {:induction false} DeepOnWay(j: nat, k: nat)
    requires j <= k
    ensures OnWay(Deep(j), Deep(k))
    decreases k
  {
    hide LastSlash, HasSlash, ParentPath, BaseName, Deep;
    if j < k {
      DeepParts(k);
      DeepOnWay(j, k - 1);
    }
  }

  /** Fourteen directories one below the other: all are on the image, and the walk shows all but the last. */
  lemma DeepIsCut(d: seq<byte>, now: nat, fl: Cache, k: nat)
    requires Build(DeepStart(), DeepHost(), []).Success?
    requires ImageOf(d, Build(DeepStart(), DeepHost(), []).value.fs, now, fl) && 1 <= k <= DEEP
    ensures DirAt(d, Build(DeepStart(), DeepHost(), []).value, Deep(k))
    ensures WalkAll(d).Some? && (IsShownAt(WalkAll(d).value, Deep(k)) <==> k <= 13)
  {
    hide Build, ImageOf, Finished, Deep, HasVisits, LinesDone, Accounts, WalkAll, DirAt, DotsAt, HasSlash,
      ParentPath, BaseName, WalkPath, PathDepth, Enters, OnWay, LastSlash, Walked, Dots;
    var t := Build(DeepStart(), DeepHost(), []).value;
    BuildOk(64, 512, DeepHost(), []);
    BuildAccounts(64, 512, DeepHost(), []);
    RoomForRoot(t);
    BuildSize(64, 512, DeepHost(), []);
    DeepOnWay(k, DEEP);
    assert DeepHost()[0].here == Deep(DEEP);
    AccountsDirs(t, DeepHost(), [], Deep(k));
    DirsReached(d, t, now, fl, Deep(k));
    DeepParts(k);
    DeepPaths(k - 1);
    DeepPaths(k);
    AName();
    if k <= 13 {
      DeepEnters(k - 1);
      ShownBelow(d, t, now, fl, k);
    } else {
      DeepIsLeftOut(64, 512, DeepHost(), [], d, now, fl, Deep(k - 1), "a");
      DeepSplits(k);
    }
  }

  lemma AccountsDirs(t: Tree, host: seq<Visit>, spec: seq<SpecLine>, q: string)
    requires Accounts(t, host, spec) && |host| > 0 && OnWay(q, host[0].here)
    ensures q in t.dirs
  {
    hide EntryTotal, SpecMode, FileCount, DeviceLines, LinkLines, LinksMade, ModeOf, OnWay;
    assert VisitsAsk(host, q);
  }

  lemma DeepSplits(k: nat)
    requires k > 0
    ensures Deep(k) == (if k == 1 then "" else Deep(k - 1)) + "/" + "a"
  {
  }

  lemma ShownBelow(d: seq<byte>, t: Tree, now: nat, fl: Cache, k: nat)
    requires Written(d, t, now, fl) && Accounts(t, DeepHost(), []) && 1 <= k && Enters([], Deep(k - 1))
    requires Deep(k) in t.dirs
    ensures WalkAll(d).Some? && IsShownAt(WalkAll(d).value, Deep(k))
  {
    hide Written, Accounts, Enters, Entered, Deep, WalkAll, HasSlash, ParentPath, BaseName, WalkPath, Dots, Holding,
      Reached, LastSlash, PathDepth, ReadDir, ReadInode;
    DeepParts(k);
    DeepPaths(k - 1);
    DeepSplits(k);
    AName();
    DirsReached(d, t, now, fl, Deep(k));
    WrittenTree(d, t, now, fl);
    EntersIs(t, DeepHost(), [], Deep(k - 1));
    EntryWalked(d, t, now, fl, Deep(k - 1), Entry(t.dirs[Deep(k)], "a"));
  }
}
