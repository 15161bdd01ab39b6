/** `build` over whole inputs: the invariant at the end, and what became of each host file and device line. */
module TreeRuns {
  import opened Bytes
  import opened FileStore
  import opened FsModel
  import opened S5Reader
  import opened TreeModel
  import opened AllocInvariant
  import opened Links
  import opened TreeInvariant
  import opened TreeSteps

  // --- nothing made is unmade --------------------------------------------------------

  /** Files and devices that exist keep their inode; only directories are still to be given a mode or content. */
  ghost predicate InodesKept(t: Tree, t': Tree) {
    forall n :: n in t.fs.inodes && !IsDirNum(t.dirs, n) ==>
      && n in t'.fs.inodes
      && !IsDirNum(t'.dirs, n)
      && t'.fs.inodes[n] == t.fs.inodes[n].(nlink := t'.fs.inodes[n].nlink)
  }

  ghost predicate DirsKeep(t: Tree, t': Tree) {
    forall p :: p in t.dirs ==> p in t'.dirs && t'.dirs[p] == t.dirs[p]
  }

  ghost predicate TreeGrew(t: Tree, t': Tree) {
    && DirsKeep(t, t')
    && Grew(t.entries, t'.entries)
    && t.fs.stored <= t'.fs.stored
    && InodesKept(t, t')
  }

  lemma GrewTrans(a: map<string, seq<Entry>>, b: map<string, seq<Entry>>, c: map<string, seq<Entry>>)
    requires Grew(a, b) && Grew(b, c)
    ensures Grew(a, c)
  {
    forall p | p in a
      ensures p in c && a[p] <= c[p]
    {
      assert a[p] <= b[p] <= c[p];
    }
  }

  lemma InodesKeptTrans(a: Tree, b: Tree, c: Tree)
    requires InodesKept(a, b) && InodesKept(b, c)
    ensures InodesKept(a, c)
  {
    hide IsDirNum;
  }

  lemma TreeGrewTrans(a: Tree, b: Tree, c: Tree)
    requires TreeGrew(a, b) && TreeGrew(b, c)
    ensures TreeGrew(a, c)
  {
    hide Grew, InodesKept;
    GrewTrans(a.entries, b.entries, c.entries);
    InodesKeptTrans(a, b, c);
  }

  lemma TreeGrewRefl(t: Tree)
    ensures TreeGrew(t, t)
  {
    hide IsDirNum;
  }

  lemma SameDirsKept(t: Tree, t': Tree)
    requires t'.dirs == t.dirs
    requires forall n :: n in t.fs.inodes && !IsDirNum(t.dirs, n) ==>
      n in t'.fs.inodes && t'.fs.inodes[n] == t.fs.inodes[n].(nlink := t'.fs.inodes[n].nlink)
    ensures InodesKept(t, t') && DirsKeep(t, t')
  {
    hide IsDirNum;
  }

  lemma NewDirGrew(t: Tree, path: string)
    requires TreeOk(t) && HasSlash(path) && path !in t.dirs && ParentPath(path) in t.dirs
    requires NewDir(t, path).Success?
    ensures TreeGrew(t, NewDir(t, path).value)
  {
    hide LinksOk, ShapeOk, NumsOk, ModesOk, DirsEmpty, IsStored, AllocOk, NewDir, WithDir, IsDirNum, LinkCount,
      ParentPath, BaseName, HasSlash, LastSlash, Grew, WithDirEntries, InodesKept;
    NewDirParts(t, path);
    var t', d, parent := NewDir(t, path).value, t.fs.nextIno, t.dirs[ParentPath(path)];
    FreshIsNoDir(t);
    ParentExists(t, ParentPath(path));
    WithDirOk(t.fs, parent);
    NewDirEntries(t.entries, path, d, parent);
    NewDirKept(t, t', path, d, parent);
  }

  lemma NewDirKept(t: Tree, t': Tree, path: string, d: nat, parent: nat)
    requires DirInodeAdded(t.fs.inodes, t'.fs.inodes, d, parent) && t'.dirs == t.dirs[path := d]
    ensures InodesKept(t, t')
  {
    hide LinkCount;
    forall n | n in t.fs.inodes && !IsDirNum(t.dirs, n)
      ensures !IsDirNum(t'.dirs, n)
    {
      assert n != d;
      assert forall p :: p in t'.dirs ==> p == path || (p in t.dirs && t'.dirs[p] == t.dirs[p]);
    }
  }

  lemma {:induction false} GetDirGrew(t: Tree, path: string)
    requires TreeOk(t) && GetDir(t, path).Success?
    ensures TreeGrew(t, GetDir(t, path).value)
    decreases |path|
  {
    hide LinksOk, ShapeOk, NumsOk, ModesOk, DirsEmpty, AllocOk, NewDir, LastSlash, HasSlash, ParentPath, TreeGrew;
    if path in t.dirs {
      TreeGrewRefl(t);
    } else {
      ParentShorter(path);
      var t1 := GetDir(t, ParentPath(path)).value;
      GetDirOk(t, ParentPath(path));
      GetDirGrew(t, ParentPath(path));
      NewDirGrew(t1, path);
      TreeGrewTrans(t, t1, GetDir(t, path).value);
    }
  }

  lemma AddFileGrew(t: Tree, here: string, f: HostFile)
    requires TreeOk(t) && here in t.entries && AddFile(t, here, f).Success?
    ensures TreeGrew(t, AddFile(t, here, f).value)
  {
    hide LinksOk, ShapeOk, NumsOk, ModesOk, DirsEmpty, IsStored, AllocOk, AddFile, WithFile, Append, Addrs,
      NBlocks, IsDir, FileMode, Grew, InodesKept, IsDirNum;
    AddFileEffect(t, here, f);
    var t' := AddFile(t, here, f).value;
    WithFileEffect(t.fs, FileMode(f), f.content);
    FreshIsNoDir(t);
    AppendGrew(t.entries, here, Entry(t.fs.nextIno, f.name));
    SameDirsKept(t, t');
  }

  lemma AddDeviceGrew(t: Tree, parentPath: string, name: string, mode: nat, dev: nat)
    requires TreeOk(t) && parentPath in t.entries && AddDevice(t, parentPath, name, mode, dev).Success?
    ensures TreeGrew(t, AddDevice(t, parentPath, name, mode, dev).value)
  {
    hide LinksOk, ShapeOk, NumsOk, ModesOk, DirsEmpty, IsStored, AllocOk, AddDevice, Append, NoAddrs, IsDir, Grew,
      InodesKept, IsDirNum;
    AddDeviceEffect(t, parentPath, name, mode, dev);
    var t' := AddDevice(t, parentPath, name, mode, dev).value;
    FreshIsNoDir(t);
    AppendGrew(t.entries, parentPath, Entry(t.fs.nextIno, name));
    SameDirsKept(t, t');
  }

  lemma LinkEntryGrew(t: Tree, parentPath: string, name: string, target: string)
    requires Keyed(t) && parentPath in t.entries && LinkEntry(t, parentPath, name, target).Success?
    ensures TreeGrew(t, LinkEntry(t, parentPath, name, target).value)
  {
    hide LastMatch, ParentPath, BaseName, HasSlash, LastSlash, Append, Grew, InodesKept, IsDirNum;
    var n := LastMatch(t.entries[ParentPath(target)], BaseName(target)).value;
    AppendGrew(t.entries, parentPath, Entry(n, name));
    SameDirsKept(t, LinkEntry(t, parentPath, name, target).value);
  }

  lemma SetModeGrew(t: Tree, path: string, mode: nat)
    requires path in t.dirs && SetMode(t, t.dirs[path], mode).Success?
    ensures TreeGrew(t, SetMode(t, t.dirs[path], mode).value)
  {
    hide InodesKept;
    assert IsDirNum(t.dirs, t.dirs[path]);
    SameDirsKept(t, SetMode(t, t.dirs[path], mode).value);
  }

  // --- each host file and device is found ---------------------------------------------

  /** The tree lists file `f` under `here`, and its content is stored. */
  ghost predicate HasFile(t: Tree, here: string, f: HostFile) {
    exists n, lo ::
      && here in t.entries && Entry(n, f.name) in t.entries[here]
      && Stored(n, lo, f.content) in t.fs.stored
      && n in t.fs.inodes && t.fs.inodes[n].mode == FileMode(f) && !IsDirNum(t.dirs, n)
  }

  /** The tree lists a special file under `parentPath` with this mode and device number. */
  ghost predicate HasDevice(t: Tree, parentPath: string, name: string, mode: nat, dev: nat) {
    exists n ::
      && parentPath in t.entries && Entry(n, name) in t.entries[parentPath]
      && n in t.fs.inodes && t.fs.inodes[n].mode == mode && t.fs.inodes[n].addr == NoAddrs()[0 := dev]
      && t.fs.inodes[n].size == 0 && !IsDirNum(t.dirs, n)
  }

  lemma HasFileKept(t: Tree, t': Tree, here: string, f: HostFile)
    requires HasFile(t, here, f) && TreeGrew(t, t')
    ensures HasFile(t', here, f)
  {
    hide IsDirNum, FileMode;
    var n, lo :|
      && here in t.entries && Entry(n, f.name) in t.entries[here]
      && Stored(n, lo, f.content) in t.fs.stored
      && n in t.fs.inodes && t.fs.inodes[n].mode == FileMode(f) && !IsDirNum(t.dirs, n);
    assert t.entries[here] <= t'.entries[here];
    assert Entry(n, f.name) in t'.entries[here] && Stored(n, lo, f.content) in t'.fs.stored;
  }

  lemma HasDeviceKept(t: Tree, t': Tree, parentPath: string, name: string, mode: nat, dev: nat)
    requires HasDevice(t, parentPath, name, mode, dev) && TreeGrew(t, t')
    ensures HasDevice(t', parentPath, name, mode, dev)
  {
    hide IsDirNum;
    var n :|
      && parentPath in t.entries && Entry(n, name) in t.entries[parentPath]
      && n in t.fs.inodes && t.fs.inodes[n].mode == mode && t.fs.inodes[n].addr == NoAddrs()[0 := dev]
      && t.fs.inodes[n].size == 0 && !IsDirNum(t.dirs, n);
    assert t.entries[parentPath] <= t'.entries[parentPath];
    assert Entry(n, name) in t'.entries[parentPath];
  }

  lemma AddFileHas(t: Tree, here: string, f: HostFile)
    requires TreeOk(t) && here in t.entries && AddFile(t, here, f).Success?
    ensures HasFile(AddFile(t, here, f).value, here, f)
  {
    hide LinksOk, ShapeOk, NumsOk, ModesOk, DirsEmpty, IsStored, AllocOk, AddFile, WithFile, Addrs, NBlocks, IsDir,
      FileMode, IsDirNum;
    AddFileEffect(t, here, f);
    var t', n := AddFile(t, here, f).value, t.fs.nextIno;
    WithFileEffect(t.fs, FileMode(f), f.content);
    FreshIsNoDir(t);
    var file := Stored(n, t.fs.nextBlock, f.content);
    assert t'.fs.stored[|t.fs.stored|] == file;
    assert t'.entries[here][|t.entries[here]|] == Entry(n, f.name);
  }

  lemma AddDeviceHas(t: Tree, parentPath: string, name: string, mode: nat, dev: nat)
    requires TreeOk(t) && parentPath in t.entries && AddDevice(t, parentPath, name, mode, dev).Success?
    ensures HasDevice(AddDevice(t, parentPath, name, mode, dev).value, parentPath, name, mode, dev)
  {
    hide LinksOk, ShapeOk, NumsOk, ModesOk, DirsEmpty, IsStored, AllocOk, AddDevice, IsDir, IsDirNum;
    AddDeviceEffect(t, parentPath, name, mode, dev);
    var t', n := AddDevice(t, parentPath, name, mode, dev).value, t.fs.nextIno;
    FreshIsNoDir(t);
    assert t'.entries[parentPath][|t.entries[parentPath]|] == Entry(n, name);
  }

  // --- folds ------------------------------------------------------------------------------

  ghost predicate HasFiles(t: Tree, here: string, files: seq<HostFile>) {
    forall i :: 0 <= i < |files| ==> HasFile(t, here, files[i])
  }

  lemma HasFilesKept(t: Tree, t': Tree, here: string, files: seq<HostFile>)
    requires HasFiles(t, here, files) && TreeGrew(t, t')
    ensures HasFiles(t', here, files)
  {
    hide HasFile, TreeGrew;
    forall i | 0 <= i < |files|
      ensures HasFile(t', here, files[i])
    {
      HasFileKept(t, t', here, files[i]);
    }
  }

  lemma {:induction false} AddFilesOk(t: Tree, here: string, files: seq<HostFile>)
    requires TreeOk(t) && here in t.entries && AddFiles(t, here, files).Success?
    ensures var t' := AddFiles(t, here, files).value;
      TreeOk(t') && TreeGrew(t, t') && HasFiles(t', here, files)
  {
    hide AllocOk, NumsOk, LinksOk, ShapeOk, ModesOk, DirsEmpty, TreeGrew, HasFile, AddFile;
    if files == [] {
      TreeGrewRefl(t);
    } else {
      var init, f := files[..|files| - 1], files[|files| - 1];
      AddFilesOk(t, here, init);
      var t1, t' := AddFiles(t, here, init).value, AddFiles(t, here, files).value;
      AddFileOk(t1, here, f);
      AddFileGrew(t1, here, f);
      AddFileHas(t1, here, f);
      TreeGrewTrans(t, t1, t');
      HasFilesKept(t1, t', here, init);
      forall i | 0 <= i < |files|
        ensures HasFile(t', here, files[i])
      {
        assert i < |init| ==> files[i] == init[i];
      }
    }
  }

  lemma AddVisitOk(t: Tree, v: Visit)
    requires TreeOk(t) && AddVisit(t, v).Success?
    ensures var t' := AddVisit(t, v).value;
      TreeOk(t') && TreeGrew(t, t') && v.here in t'.dirs && HasFiles(t', v.here, v.files)
  {
    hide AllocOk, NumsOk, LinksOk, ShapeOk, ModesOk, DirsEmpty, TreeGrew, HasFiles, GetDir, AddFiles;
    var t1 := GetDir(t, v.here).value;
    GetDirOk(t, v.here);
    GetDirGrew(t, v.here);
    AddFilesOk(t1, v.here, v.files);
    TreeGrewTrans(t, t1, AddVisit(t, v).value);
  }

  /** Every visited directory is in the tree, with its files. */
  ghost predicate HasVisits(t: Tree, host: seq<Visit>) {
    forall i :: 0 <= i < |host| ==> host[i].here in t.dirs && HasFiles(t, host[i].here, host[i].files)
  }

  lemma DirStays(t: Tree, t': Tree, p: string)
    requires TreeGrew(t, t') && p in t.dirs
    ensures p in t'.dirs && t'.dirs[p] == t.dirs[p]
  {
    hide Grew, InodesKept;
  }

  lemma HasVisitsKept(t: Tree, t': Tree, host: seq<Visit>)
    requires HasVisits(t, host) && TreeGrew(t, t')
    ensures HasVisits(t', host)
  {
    hide HasFiles, TreeGrew;
    forall i | 0 <= i < |host|
      ensures host[i].here in t'.dirs && HasFiles(t', host[i].here, host[i].files)
    {
      DirStays(t, t', host[i].here);
      HasFilesKept(t, t', host[i].here, host[i].files);
    }
  }

  lemma {:induction false} AddVisitsOk(t: Tree, host: seq<Visit>)
    requires TreeOk(t) && AddVisits(t, host).Success?
    ensures var t' := AddVisits(t, host).value;
      TreeOk(t') && TreeGrew(t, t') && HasVisits(t', host)
  {
    hide AllocOk, NumsOk, LinksOk, ShapeOk, ModesOk, DirsEmpty, TreeGrew, HasFiles, AddVisit;
    if host == [] {
      TreeGrewRefl(t);
    } else {
      var init, v := host[..|host| - 1], host[|host| - 1];
      AddVisitsOk(t, init);
      var t1, t' := AddVisits(t, init).value, AddVisits(t, host).value;
      AddVisitOk(t1, v);
      TreeGrewTrans(t, t1, t');
      HasVisitsKept(t1, t', init);
      forall i | 0 <= i < |host|
        ensures host[i].here in t'.dirs && HasFiles(t', host[i].here, host[i].files)
      {
        assert i < |init| ==> host[i] == init[i];
      }
    }
  }

  /** The directory a line is about, or adds to. */
  function LineDir(line: SpecLine): string {
    if line.DirLine? then line.path else if HasSlash(line.path) then ParentPath(line.path) else ""
  }

  /** What a line leaves in the tree: its directory, and a device. */
  ghost predicate LineDone(t: Tree, line: SpecLine) {
    && HasSlash(line.path) && LineDir(line) in t.dirs
    && (line.DevLine? ==>
          HasDevice(t, ParentPath(line.path), BaseName(line.path), DeviceMode(line.mode, line.block),
                    DeviceNumber(line.major, line.minor)))
  }

  lemma LineDoneKept(t: Tree, t': Tree, line: SpecLine)
    requires LineDone(t, line) && TreeGrew(t, t')
    ensures LineDone(t', line)
  {
    hide HasDevice, TreeGrew, HasSlash, ParentPath, BaseName, DeviceMode, DeviceNumber;
    DirStays(t, t', LineDir(line));
    if line.DevLine? {
      HasDeviceKept(t, t', ParentPath(line.path), BaseName(line.path), DeviceMode(line.mode, line.block),
                    DeviceNumber(line.major, line.minor));
    }
  }

  lemma AddLineOk(t: Tree, line: SpecLine)
    requires Keyed(t) && AddLine(t, line).Success?
    requires TreeOk(t)
    ensures var t' := AddLine(t, line).value;
      TreeOk(t') && TreeGrew(t, t') && LineDone(t', line)
  {
    hide TreeOk, TreeGrew, HasDevice, GetDir, SetMode, LinkEntry, AddDevice, HasSlash, LastSlash, ParentPath, BaseName,
      BitOr, DeviceMode, DeviceNumber, IsDir;
    var t', dir := AddLine(t, line).value, LineDir(line);
    var t1 := GetDir(t, dir).value;
    GetDirOk(t, dir);
    GetDirGrew(t, dir);
    match line
    case DirLine(path, mode) =>
      SetModeOk(t1, path, BitOr(S_IFDIR, mode));
      SetModeGrew(t1, path, BitOr(S_IFDIR, mode));
      TreeGrewTrans(t, t1, t');
      DirStays(t1, t', dir);
    case LinkLine(path, target) =>
      LinkEntryOk(t1, dir, BaseName(path), target);
      LinkEntryGrew(t1, dir, BaseName(path), target);
      TreeGrewTrans(t, t1, t');
      DirStays(t1, t', dir);
    case DevLine(path, mode, block, major, minor) =>
      DeviceNotDir(mode, block);
      AddDeviceOk(t1, dir, BaseName(path), DeviceMode(mode, block), DeviceNumber(major, minor));
      AddDeviceGrew(t1, dir, BaseName(path), DeviceMode(mode, block), DeviceNumber(major, minor));
      AddDeviceHas(t1, dir, BaseName(path), DeviceMode(mode, block), DeviceNumber(major, minor));
      TreeGrewTrans(t, t1, t');
      DirStays(t1, t', dir);
  }

  ghost predicate LinesDone(t: Tree, spec: seq<SpecLine>) {
    forall i :: 0 <= i < |spec| ==> LineDone(t, spec[i])
  }

  lemma LinesDoneKept(t: Tree, t': Tree, spec: seq<SpecLine>)
    requires LinesDone(t, spec) && TreeGrew(t, t')
    ensures LinesDone(t', spec)
  {
    hide LineDone, TreeGrew;
    forall i | 0 <= i < |spec|
      ensures LineDone(t', spec[i])
    {
      LineDoneKept(t, t', spec[i]);
    }
  }

  lemma {:induction false} AddLinesOk(t: Tree, spec: seq<SpecLine>)
    requires TreeOk(t) && AddLines(t, spec).Success?
    ensures var t' := AddLines(t, spec).value;
      TreeOk(t') && TreeGrew(t, t') && LinesDone(t', spec)
  {
    hide AllocOk, NumsOk, LinksOk, ShapeOk, ModesOk, DirsEmpty, TreeGrew, LineDone, AddLine;
    if spec == [] {
      TreeGrewRefl(t);
    } else {
      var init, line := spec[..|spec| - 1], spec[|spec| - 1];
      AddLinesOk(t, init);
      var t1, t' := AddLines(t, init).value, AddLines(t, spec).value;
      AddLineOk(t1, line);
      TreeGrewTrans(t, t1, t');
      LinesDoneKept(t1, t', init);
      forall i | 0 <= i < |spec|
        ensures LineDone(t', spec[i])
      {
        assert i < |init| ==> spec[i] == init[i];
      }
    }
  }

  // --- the start --------------------------------------------------------------------------

  lemma RootValue(nblocks: nat, ninodes: nat)
    requires Root(Init(nblocks, ninodes)).Success?
    ensures var t := Root(Init(nblocks, ninodes)).value;
      && t.dirs == map["/" := 2] && t.order == ["/"]
      && t.entries == map["/" := [Entry(2, "."), Entry(2, "..")]]
      && t.fs.inodes == map[2 := Inode(S_IFDIR + 493, 2, 0, 0, 0, NoAddrs())]
      && t.fs.stored == [] && t.fs.nextIno == 3 <= t.fs.ninodes
  {
  }

  lemma RootShape()
    ensures ShapeOk(map["/" := 2], map["/" := [Entry(2, "."), Entry(2, "..")]])
  {
    var dirs: map<string, nat>, entries := map["/" := 2], map["/" := [Entry(2, "."), Entry(2, "..")]];
    assert LastSlash("/") == 0;
    assert ParentPath("/") == "/";
    hide LastSlash, ParentPath, BaseName;
    assert DirShape(dirs, entries, "/");
    hide DirShape;
    assert forall p :: p in dirs ==> p == "/";
  }

  lemma RootKeys(t: Tree)
    requires t.dirs == map["/" := 2] && t.order == ["/"]
    requires t.entries.Keys == {"/"} && t.fs.nextIno <= t.fs.ninodes
    ensures KeysOk(t)
  {
  }

  lemma RootParts(nblocks: nat, ninodes: nat)
    requires Root(Init(nblocks, ninodes)).Success?
    ensures var t := Root(Init(nblocks, ninodes)).value;
      && KeysOk(t) && NumsOk(t.dirs, t.entries, t.fs.inodes)
      && ShapeOk(t.dirs, t.entries) && ModesOk(t.dirs, t.fs.inodes) && DirsEmpty(t.dirs, t.fs)
  {
    hide KeysOk, ShapeOk, Root, Init, NoAddrs, IsDir;
    var t := Root(Init(nblocks, ninodes)).value;
    RootValue(nblocks, ninodes);
    RootShape();
    RootKeys(t);
    assert IsDirNum(t.dirs, 2) by {
      assert t.dirs["/"] == 2;
    }
    assert forall n :: !IsStored(t.fs, n);
  }

  lemma RootLinks(nblocks: nat, ninodes: nat)
    requires Root(Init(nblocks, ninodes)).Success?
    ensures LinksOk(Root(Init(nblocks, ninodes)).value)
  {
    var t := Root(Init(nblocks, ninodes)).value;
    forall n: nat
      ensures Refs(t.order, t.entries, n) == LinkCount(t.fs.inodes, n)
    {
      TwoNames(Entry(2, "."), Entry(2, ".."), n);
      assert t.order[..0] == [];
      assert Refs([], t.entries, n) == 0;
    }
  }

  lemma RootOk(nblocks: nat, ninodes: nat)
    requires Root(Init(nblocks, ninodes)).Success?
    ensures TreeOk(Root(Init(nblocks, ninodes)).value)
  {
    var s := Init(nblocks, ninodes);
    var t, s1 := Root(s).value, AllocInode(s, S_IFDIR + 493).value;
    assert SameFiles(s1.inodes, t.fs.inodes) && t.fs == s1.(inodes := t.fs.inodes);
    hide AllocOk, NumsOk, LinksOk, ShapeOk, ModesOk, DirsEmpty, Root, AllocInode, Init, KeysOk;
    RootParts(nblocks, ninodes);
    RootLinks(nblocks, ninodes);
    InitOk(nblocks, ninodes);
    AllocInodeOk(s, S_IFDIR + 493);
    RetouchOk(s1, t.fs.inodes);
  }

  /** For every host walk and every spec, the tree `build` grows keeps the invariant and holds every file and
      device it was given. */
  lemma GrowOk(nblocks: nat, ninodes: nat, host: seq<Visit>, spec: seq<SpecLine>)
    requires Grow(Init(nblocks, ninodes), host, spec).Success?
    ensures var t := Grow(Init(nblocks, ninodes), host, spec).value;
      TreeOk(t) && HasVisits(t, host) && LinesDone(t, spec)
  {
    hide AllocOk, NumsOk, LinksOk, ShapeOk, ModesOk, DirsEmpty, TreeGrew, HasVisits, LinesDone, Root, Init,
      AddVisits, AddLines;
    var t0 := Root(Init(nblocks, ninodes)).value;
    RootOk(nblocks, ninodes);
    var t1 := AddVisits(t0, host).value;
    AddVisitsOk(t0, host);
    AddLinesOk(t1, spec);
    HasVisitsKept(t1, AddLines(t1, spec).value, host);
  }
}
