/** Every inode of a build is a directory, a host file or the special file of a device line, and the block log holds
    just the first two. So each allocated block has one owner among all inodes that are not special files. */
module InodeKinds {
  import opened Bytes
  import opened S5Reader
  import opened FsModel
  import opened TreeModel
  import opened AllocInvariant
  import opened Links
  import opened TreeInvariant
  import opened TreeSteps
  import opened TreeRuns
  import opened TreeFinish
  import opened FreeList
  import opened Image
  import opened Ownership

  predicate Regular(mode: nat) {
    mode == S_IFREG + 493 || mode == S_IFREG + 420
  }

  /** `i` is what device line `line` makes, up to its link count. */
  predicate DeviceOf(line: SpecLine, i: Inode) {
    && line.DevLine? && i.mode == DeviceMode(line.mode, line.block)
    && i.size == 0 && i.addr == NoAddrs()[0 := DeviceNumber(line.major, line.minor)]
  }

  ghost predicate IsDevice(spec: seq<SpecLine>, i: Inode) {
    exists j :: 0 <= j < |spec| && DeviceOf(spec[j], i)
  }

  ghost predicate KindOk(t: Tree, spec: seq<SpecLine>, n: nat)
    requires n in t.fs.inodes
  {
    || IsDirNum(t.dirs, n)
    || (IsStored(t.fs, n) && Regular(t.fs.inodes[n].mode))
    || (!IsStored(t.fs, n) && IsDevice(spec, t.fs.inodes[n]))
  }

  ghost predicate KindsOk(t: Tree, spec: seq<SpecLine>) {
    forall n :: n in t.fs.inodes ==> KindOk(t, spec, n)
  }

  /** Inodes that exist and are no directories neither gain content nor lose it. */
  ghost predicate LogQuiet(t: Tree, t': Tree) {
    forall n :: n in t.fs.inodes && !IsDirNum(t.dirs, n) ==> (IsStored(t'.fs, n) <==> IsStored(t.fs, n))
  }

  ghost predicate FreshOk(t: Tree, t': Tree, spec: seq<SpecLine>) {
    forall n :: n in t'.fs.inodes && n !in t.fs.inodes ==> KindOk(t', spec, n)
  }

  // --- every step -------------------------------------------------------------------------------

  lemma DeviceKept(spec: seq<SpecLine>, spec': seq<SpecLine>, i: Inode, j: Inode)
    requires IsDevice(spec, i) && spec <= spec' && j == i.(nlink := j.nlink)
    ensures IsDevice(spec', j)
  {
    hide NoAddrs, DeviceMode, DeviceNumber;
    var k :| 0 <= k < |spec| && DeviceOf(spec[k], i);
    assert DeviceOf(spec'[k], j);
  }

  lemma DirNumKept(t: Tree, t': Tree, n: nat)
    requires DirsKeep(t, t') && IsDirNum(t.dirs, n)
    ensures IsDirNum(t'.dirs, n)
  {
    var p :| p in t.dirs && t.dirs[p] == n;
    assert t'.dirs[p] == n;
  }

  lemma KindsStep(t: Tree, t': Tree, spec: seq<SpecLine>, spec': seq<SpecLine>)
    requires KindsOk(t, spec) && TreeGrew(t, t') && LogQuiet(t, t') && spec <= spec' && FreshOk(t, t', spec')
    ensures KindsOk(t', spec')
  {
    hide IsStored, IsDirNum, IsDevice, Regular, Grew;
    forall n | n in t'.fs.inodes
      ensures KindOk(t', spec', n)
    {
      if n in t.fs.inodes {
        assert KindOk(t, spec, n);
        if IsDirNum(t.dirs, n) {
          DirNumKept(t, t', n);
        } else if !IsStored(t.fs, n) {
          DeviceKept(spec, spec', t.fs.inodes[n], t'.fs.inodes[n]);
        }
      }
    }
  }

  lemma QuietLog(t: Tree, t': Tree)
    requires t'.fs.stored == t.fs.stored
    ensures LogQuiet(t, t')
  {
    SameLog(t.fs, t'.fs);
    hide IsStored, IsDirNum;
  }

  lemma NewDirKinds(t: Tree, path: string, spec: seq<SpecLine>)
    requires TreeOk(t) && HasSlash(path) && path !in t.dirs && ParentPath(path) in t.dirs
    requires NewDir(t, path).Success? && KindsOk(t, spec)
    ensures KindsOk(NewDir(t, path).value, spec)
  {
    hide LinksOk, ShapeOk, NumsOk, ModesOk, DirsEmpty, IsStored, AllocOk, NewDir, WithDir, IsDirNum, ParentPath,
      BaseName, HasSlash, LastSlash, TreeGrew, WithDirEntries, KindsOk, LogQuiet, FreshOk;
    NewDirParts(t, path);
    NewDirGrew(t, path);
    var t', d, parent := NewDir(t, path).value, t.fs.nextIno, t.dirs[ParentPath(path)];
    ParentExists(t, ParentPath(path));
    WithDirOk(t.fs, parent);
    QuietLog(t, t');
    FreshDir(t, t', path, d, parent, spec);
    KindsStep(t, t', spec, spec);
  }

  lemma FreshDir(t: Tree, t': Tree, path: string, d: nat, parent: nat, spec: seq<SpecLine>)
    requires DirInodeAdded(t.fs.inodes, t'.fs.inodes, d, parent) && t'.dirs == t.dirs[path := d]
    ensures FreshOk(t, t', spec)
  {
    hide NoAddrs;
    assert t'.dirs[path] == d;
  }

  lemma {:induction false} GetDirKinds(t: Tree, path: string, spec: seq<SpecLine>)
    requires Keyed(t) && GetDir(t, path).Success? && KindsOk(t, spec)
    requires TreeOk(t)
    ensures KindsOk(GetDir(t, path).value, spec)
    decreases |path|
  {
    hide TreeOk, NewDir, KindsOk, LastSlash, HasSlash, ParentPath;
    if path !in t.dirs {
      ParentShorter(path);
      GetDirKinds(t, ParentPath(path), spec);
      GetDirOk(t, ParentPath(path));
      NewDirKinds(GetDir(t, ParentPath(path)).value, path, spec);
    }
  }

  lemma NewFileKinds(t: Tree, t': Tree, f: Stored, i: Inode, spec: seq<SpecLine>)
    requires f.ino == t.fs.nextIno && f.ino !in t.fs.inodes && Regular(i.mode)
    requires t'.fs.stored == t.fs.stored + [f] && t'.fs.inodes == t.fs.inodes[f.ino := i]
    ensures LogQuiet(t, t') && FreshOk(t, t', spec)
  {
    LogGrew(t.fs, t'.fs, f);
    hide IsStored, IsDirNum, IsDevice;
  }

  lemma AddFileKinds(t: Tree, here: string, f: HostFile, spec: seq<SpecLine>)
    requires Keyed(t) && here in t.entries && AddFile(t, here, f).Success? && KindsOk(t, spec)
    requires TreeOk(t)
    ensures KindsOk(AddFile(t, here, f).value, spec)
  {
    TreeAlloc(t);
    hide TreeOk, AddFile, WithFile, Append, AllocOk, TreeGrew, LogQuiet, FreshOk, KindsOk, IsDir, IsStored, IsDirNum;
    AddFileEffect(t, here, f);
    WithFileEffect(t.fs, FileMode(f), f.content);
    AddFileGrew(t, here, f);
    FreshIsNoDir(t);
    var t' := AddFile(t, here, f).value;
    NewFileKinds(t, t', Stored(t.fs.nextIno, t.fs.nextBlock, f.content), t'.fs.inodes[t.fs.nextIno], spec);
    KindsStep(t, t', spec, spec);
  }

  lemma {:induction false} AddFilesKinds(t: Tree, here: string, files: seq<HostFile>, spec: seq<SpecLine>)
    requires Keyed(t) && here in t.entries && AddFiles(t, here, files).Success? && KindsOk(t, spec)
    requires TreeOk(t)
    ensures KindsOk(AddFiles(t, here, files).value, spec)
  {
    hide TreeOk, AddFile, KindsOk, TreeGrew, HasFiles;
    if files != [] {
      var init, f := files[..|files| - 1], files[|files| - 1];
      AddFilesKinds(t, here, init, spec);
      AddFilesOk(t, here, init);
      AddFileKinds(AddFiles(t, here, init).value, here, f, spec);
    }
  }

  lemma {:induction false} AddVisitsKinds(t: Tree, host: seq<Visit>, spec: seq<SpecLine>)
    requires Keyed(t) && AddVisits(t, host).Success? && KindsOk(t, spec)
    requires TreeOk(t)
    ensures KindsOk(AddVisits(t, host).value, spec)
  {
    hide TreeOk, GetDir, AddFiles, KindsOk, TreeGrew, HasVisits;
    if host != [] {
      var init, v := host[..|host| - 1], host[|host| - 1];
      AddVisitsKinds(t, init, spec);
      AddVisitsOk(t, init);
      var t1 := AddVisits(t, init).value;
      GetDirKinds(t1, v.here, spec);
      GetDirOk(t1, v.here);
      AddFilesKinds(GetDir(t1, v.here).value, v.here, v.files, spec);
    }
  }

  /** A step that makes no inode. */
  lemma NothingFresh(t: Tree, t': Tree, spec: seq<SpecLine>)
    requires forall n :: n in t'.fs.inodes ==> n in t.fs.inodes
    ensures FreshOk(t, t', spec)
  {
    hide KindOk;
  }

  lemma FreshDevice(t: Tree, t': Tree, spec: seq<SpecLine>, line: SpecLine)
    requires spec != [] && spec[|spec| - 1] == line && line.DevLine?
    requires !IsStored(t.fs, t.fs.nextIno) && t'.fs.stored == t.fs.stored
    requires t'.fs.inodes == t.fs.inodes[t.fs.nextIno :=
      Inode(DeviceMode(line.mode, line.block), 1, 0, 0, 0, NoAddrs()[0 := DeviceNumber(line.major, line.minor)])]
    ensures FreshOk(t, t', spec)
  {
    SameLog(t.fs, t'.fs);
    hide IsStored, IsDirNum, NoAddrs, DeviceMode, DeviceNumber;
    var n := t.fs.nextIno;
    assert DeviceOf(spec[|spec| - 1], t'.fs.inodes[n]);
    assert IsDevice(spec, t'.fs.inodes[n]);
  }

  /** What a line does once its directory is there. */
  lemma RestKinds(t: Tree, t': Tree, line: SpecLine, spec: seq<SpecLine>)
    requires Keyed(t) && TreeOk(t) && HasSlash(line.path) && LineDir(line) in t.dirs && KindsOk(t, spec)
    requires match line
      case DirLine(path, mode) => SetMode(t, t.dirs[path], BitOr(S_IFDIR, mode)) == Success(t')
      case LinkLine(path, target) =>
        ParentPath(path) in t.entries && LinkEntry(t, ParentPath(path), BaseName(path), target) == Success(t')
      case DevLine(path, mode, block, major, minor) =>
        && ParentPath(path) in t.entries
        && AddDevice(t, ParentPath(path), BaseName(path), DeviceMode(mode, block), DeviceNumber(major, minor))
             == Success(t')
    ensures KindsOk(t', spec + [line])
  {
    TreeAlloc(t);
    FreshIsNoDir(t);
    hide TreeOk, HasSlash, ParentPath, BaseName, LastMatch, Append, AllocOk, TreeGrew, LogQuiet, FreshOk, KindsOk,
      IsStored, IsDirNum, BitOr, DeviceMode, DeviceNumber, NoAddrs, AddDevice, IsDir;
    match line
    case DirLine(path, mode) =>
      SetModeGrew(t, path, BitOr(S_IFDIR, mode));
      QuietLog(t, t');
      NothingFresh(t, t', spec + [line]);
      KindsStep(t, t', spec, spec + [line]);
    case LinkLine(path, target) =>
      LinkEntryGrew(t, ParentPath(path), BaseName(path), target);
      QuietLog(t, t');
      NothingFresh(t, t', spec + [line]);
      KindsStep(t, t', spec, spec + [line]);
    case DevLine(path, mode, block, major, minor) =>
      AddDeviceEffect(t, ParentPath(path), BaseName(path), DeviceMode(mode, block), DeviceNumber(major, minor));
      DeviceNotDir(mode, block);
      AddDeviceGrew(t, ParentPath(path), BaseName(path), DeviceMode(mode, block), DeviceNumber(major, minor));
      QuietLog(t, t');
      FreshDevice(t, t', spec + [line], line);
      KindsStep(t, t', spec, spec + [line]);
  }

  lemma {:induction false} AddLinesKinds(t: Tree, spec: seq<SpecLine>)
    requires Keyed(t) && AddLines(t, spec).Success? && KindsOk(t, [])
    requires TreeOk(t)
    ensures KindsOk(AddLines(t, spec).value, spec)
  {
    hide TreeOk, GetDir, SetMode, LinkEntry, AddDevice, HasSlash, LastSlash, ParentPath, BaseName, BitOr, DeviceMode,
      DeviceNumber, KindsOk, TreeGrew, LinesDone;
    if spec != [] {
      var init, line := spec[..|spec| - 1], spec[|spec| - 1];
      AddLinesKinds(t, init);
      AddLinesOk(t, init);
      var t1 := AddLines(t, init).value;
      GetDirKinds(t1, LineDir(line), init);
      GetDirOk(t1, LineDir(line));
      var t2 := GetDir(t1, LineDir(line)).value;
      TreeAlloc(t2);
      assert LineDir(line) in t2.dirs.Keys;
      RestKinds(t2, AddLines(t, spec).value, line, init);
      assert init + [line] == spec;
    }
  }

  // --- the finished tree ------------------------------------------------------------------------

  lemma {:induction false} StoreDirsInos(t: Tree, order: seq<string>)
    requires Keyed(t) && StoreDirs(t, order).Success?
    ensures forall n :: IsStored(t.fs, n) ==> IsStored(StoreDirs(t, order).value.fs, n)
    ensures forall n :: IsStored(StoreDirs(t, order).value.fs, n) ==> IsStored(t.fs, n) || IsDirNum(t.dirs, n)
  {
    hide StoreDir, IsStored, IsDirNum;
    if order != [] {
      var init, p := order[..|order| - 1], order[|order| - 1];
      StoreDirsInos(t, init);
      StoreDirInos(StoreDirs(t, init).value, p);
    }
  }

  lemma StoreDirInos(t: Tree, p: string)
    requires Keyed(t) && StoreDir(t, p).Success?
    ensures forall n :: IsStored(t.fs, n) ==> IsStored(StoreDir(t, p).value.fs, n)
    ensures forall n :: IsStored(StoreDir(t, p).value.fs, n) ==> IsStored(t.fs, n) || IsDirNum(t.dirs, n)
  {
    hide Blob;
    StoreDirParts(t, p);
    LogGrew(t.fs, StoreDir(t, p).value.fs, Stored(t.dirs[p], t.fs.nextBlock, Blob(t.entries[p]).value));
    hide IsStored, StoreDir;
    assert IsDirNum(t.dirs, t.dirs[p]);
  }

  lemma StoringKinds(t: Tree, t': Tree, spec: seq<SpecLine>)
    requires KindsOk(t, spec) && Storing(t, t', t.order)
    requires forall n :: IsStored(t.fs, n) ==> IsStored(t'.fs, n)
    requires forall n :: IsStored(t'.fs, n) ==> IsStored(t.fs, n) || IsDirNum(t.dirs, n)
    ensures KindsOk(t', spec)
  {
    StoringGrew(t, t');
    NothingNew(t, t', spec);
    hide Storing, TreeGrew, IsStored, IsDirNum, FreshOk, KindsOk;
    KindsStep(t, t', spec, spec);
  }

  lemma NothingNew(t: Tree, t': Tree, spec: seq<SpecLine>)
    requires Storing(t, t', t.order)
    ensures FreshOk(t, t', spec)
  {
    hide AllocOk, OthersEmpty, DirStored, IsDirNum, KindOk;
  }

  lemma RootKinds(nblocks: nat, ninodes: nat)
    requires Root(Init(nblocks, ninodes)).Success?
    ensures KindsOk(Root(Init(nblocks, ninodes)).value, [])
  {
    RootValue(nblocks, ninodes);
    var t := Root(Init(nblocks, ninodes)).value;
    assert t.dirs["/"] == 2;
    assert IsDirNum(t.dirs, 2);
  }

  /** For every input `build` accepts, every inode is one of the three kinds. */
  lemma BuildKinds(nblocks: nat, ninodes: nat, host: seq<Visit>, spec: seq<SpecLine>)
    requires Build(Init(nblocks, ninodes), host, spec).Success?
    ensures KindsOk(Build(Init(nblocks, ninodes), host, spec).value, spec)
  {
    hide TreeOk, Init, Root, AddVisits, AddLines, StoreDirs, Storing, HasVisits, LinesDone, TreeGrew, KindsOk, IsStored,
      IsDirNum;
    var t0 := Root(Init(nblocks, ninodes)).value;
    RootOk(nblocks, ninodes);
    RootKinds(nblocks, ninodes);
    TreeAlloc(t0);
    var t1 := AddVisits(t0, host).value;
    AddVisitsOk(t0, host);
    AddVisitsKinds(t0, host, []);
    TreeAlloc(t1);
    var t := AddLines(t1, spec).value;
    AddLinesKinds(t1, spec);
    GrowOk(nblocks, ninodes, host, spec);
    assert t.order[..|t.order|] == t.order;
    StoreDirsOk(t, |t.order|);
    StoreDirsInos(t, t.order);
    StoringKinds(t, StoreDirs(t, t.order).value, spec);
  }

  // --- the log is all inodes but the special files ---------------------------------------------------

  lemma DirHasLog(t: Tree, n: nat)
    requires Finished(t) && IsDirNum(t.dirs, n)
    ensures IsStored(t.fs, n) && n in t.fs.inodes && t.fs.inodes[n].size > 0
  {
    hide Finished, Blob, NumsOk, ModesOk, RunsTile, InodesOk, KeysOk;
    var p :| p in t.dirs && t.dirs[p] == n;
    var k := DirLog(t, p);
    FinishedParts(t);
    DirNumExists(t, p);
    DirNotEmpty(t, p);
    assert FileOk(t.fs, t.fs.stored[k]);
  }

  lemma DirNotEmpty(t: Tree, p: string)
    requires Finished(t) && p in t.dirs
    ensures p in t.entries && t.entries[p] != []
  {
    hide AllocOk, NumsOk, LinksOk, ModesOk, AllDirsStored, HasSlash, ParentPath, BaseName;
    assert DirShape(t.dirs, t.entries, p);
  }

  lemma NotRegular(mode: nat, block: bool)
    ensures !Regular(DeviceMode(mode, block))
  {
    var kind := if block then S_IFBLK else S_IFCHR;
    BitOrShift(mode, kind, 13);
    Shift13(BitOr(mode, kind));
    Shift13(mode);
    Shift13(kind);
    BitOrHalf(mode / 8192, kind / 8192);
    assert kind / 8192 % 2 == 1;
  }

  /** An inode has content in the log exactly when it is not the special file of a device line. */
  lemma LogIsTheRest(t: Tree, spec: seq<SpecLine>, n: nat)
    requires Finished(t) && KindsOk(t, spec) && n in t.fs.inodes
    ensures IsStored(t.fs, n) <==> !IsDevice(spec, t.fs.inodes[n])
  {
    hide Finished, IsStored, NoAddrs, DeviceNumber, DeviceMode, Regular;
    assert KindOk(t, spec, n);
    if IsDirNum(t.dirs, n) {
      DirHasLog(t, n);
    } else if IsDevice(spec, t.fs.inodes[n]) {
      var j :| 0 <= j < |spec| && DeviceOf(spec[j], t.fs.inodes[n]);
      NotRegular(spec[j].mode, spec[j].block);
    }
  }

  // --- owners ----------------------------------------------------------------------------------------

  lemma {:induction false} SomeOwns(d: seq<byte>, s: State, k: nat, b: nat) returns (j: nat)
    requires k <= |s.stored| && OwnedByFirst(d, s, k, b) > 0
    ensures j < k && OwnedBy(d, s, s.stored[j].ino, b) > 0
    decreases k
  {
    hide OwnedBy;
    if OwnedBy(d, s, s.stored[k - 1].ino, b) > 0 {
      j := k - 1;
    } else {
      j := SomeOwns(d, s, k - 1, b);
    }
  }

  lemma {:induction false} OwnsAtLeast(d: seq<byte>, s: State, k: nat, i: nat, j: nat, b: nat)
    requires i <= j < k <= |s.stored|
    ensures OwnedByFirst(d, s, k, b) >= OwnedBy(d, s, s.stored[j].ino, b)
    ensures i < j ==> OwnedByFirst(d, s, k, b) >= OwnedBy(d, s, s.stored[i].ino, b) + OwnedBy(d, s, s.stored[j].ino, b)
    decreases k
  {
    hide OwnedBy;
    if j < k - 1 {
      OwnsAtLeast(d, s, k - 1, i, j, b);
    } else if i < j {
      OwnsAtLeast(d, s, k - 1, i, i, b);
    }
  }

  /** Inode `n`, not a special file, owns block `b` in one of its roles. */
  ghost predicate Owns(d: seq<byte>, t: Tree, spec: seq<SpecLine>, n: nat, b: nat) {
    n in t.fs.inodes && !IsDevice(spec, t.fs.inodes[n]) && OwnedBy(d, t.fs, n, b) == 1
  }

  /** Each allocated block has one owner, once, among all inodes but the special files, and no other block has any. */
  lemma OneOwner(nblocks: nat, ninodes: nat, host: seq<Visit>, spec: seq<SpecLine>,
                 d: seq<byte>, now: nat, fl: Cache, b: nat)
    requires Build(Init(nblocks, ninodes), host, spec).Success?
    requires ImageOf(d, Build(Init(nblocks, ninodes), host, spec).value.fs, now, fl)
    requires Build(Init(nblocks, ninodes), host, spec).value.fs.nextBlock <= 0x100_0000
    ensures var t := Build(Init(nblocks, ninodes), host, spec).value;
      && ((exists n :: Owns(d, t, spec, n, b)) <==> t.fs.FirstData() <= b < t.fs.nextBlock)
      && (forall m, n :: Owns(d, t, spec, m, b) && Owns(d, t, spec, n, b) ==> m == n)
      && (forall n :: n in t.fs.inodes && !IsDevice(spec, t.fs.inodes[n]) ==> OwnedBy(d, t.fs, n, b) <= 1)
  {
    hide Build, Init, ImageOf, Finished, HasVisits, LinesDone, KindsOk, IsDevice, OwnedBy, RunsTile, InodesOk,
      KeysOk, NumsOk, ModesOk, OwnedByFirst;
    var t := Build(Init(nblocks, ninodes), host, spec).value;
    BuildOk(nblocks, ninodes, host, spec);
    BuildKinds(nblocks, ninodes, host, spec);
    FinishedParts(t);
    OwnedExactlyOnce(d, t.fs, now, fl, b);
    OwnersAre(d, t, spec, b);
  }

  lemma OwnersAre(d: seq<byte>, t: Tree, spec: seq<SpecLine>, b: nat)
    requires Finished(t) && KindsOk(t, spec)
    requires OwnedByFirst(d, t.fs, |t.fs.stored|, b) <= 1
    ensures (exists n :: Owns(d, t, spec, n, b)) <==> OwnedByFirst(d, t.fs, |t.fs.stored|, b) == 1
    ensures forall m, n :: Owns(d, t, spec, m, b) && Owns(d, t, spec, n, b) ==> m == n
    ensures forall n :: n in t.fs.inodes && !IsDevice(spec, t.fs.inodes[n]) ==> OwnedBy(d, t.fs, n, b) <= 1
  {
    hide Finished, KindsOk, IsDevice, OwnedBy, RunsTile, InodesOk, KeysOk, NumsOk, ModesOk, OwnedByFirst;
    var s := t.fs;
    forall n | n in s.inodes && !IsDevice(spec, s.inodes[n])
      ensures OwnedBy(d, s, n, b) <= 1
      ensures OwnedBy(d, s, n, b) <= OwnedByFirst(d, s, |s.stored|, b)
    {
      var j := InLog(t, spec, n);
      OwnsAtLeast(d, s, |s.stored|, j, j, b);
    }
    forall m, n | Owns(d, t, spec, m, b) && Owns(d, t, spec, n, b)
      ensures m == n
    {
      var i := InLog(t, spec, m);
      var j := InLog(t, spec, n);
      OwnsAtLeast(d, s, |s.stored|, if i < j then i else j, if i < j then j else i, b);
    }
    if OwnedByFirst(d, s, |s.stored|, b) == 1 {
      var j := SomeOwns(d, s, |s.stored|, b);
      LogNotDevice(t, spec, j);
      assert Owns(d, t, spec, s.stored[j].ino, b);
    }
  }

  lemma InLog(t: Tree, spec: seq<SpecLine>, n: nat) returns (j: nat)
    requires Finished(t) && KindsOk(t, spec) && n in t.fs.inodes && !IsDevice(spec, t.fs.inodes[n])
    ensures j < |t.fs.stored| && t.fs.stored[j].ino == n
  {
    LogIsTheRest(t, spec, n);
    hide Finished, KindsOk, IsDevice;
    j :| 0 <= j < |t.fs.stored| && t.fs.stored[j].ino == n;
  }

  lemma LogNotDevice(t: Tree, spec: seq<SpecLine>, j: nat)
    requires Finished(t) && KindsOk(t, spec) && j < |t.fs.stored|
    ensures t.fs.stored[j].ino in t.fs.inodes && !IsDevice(spec, t.fs.inodes[t.fs.stored[j].ino])
  {
    hide Finished, KindsOk, IsDevice, RunsTile, InodesOk, KeysOk, NumsOk, ModesOk;
    FinishedParts(t);
    assert FileOk(t.fs, t.fs.stored[j]);
    assert IsStored(t.fs, t.fs.stored[j].ino);
    LogIsTheRest(t, spec, t.fs.stored[j].ino);
  }
}
