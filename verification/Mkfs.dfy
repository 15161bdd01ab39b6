/** `build` of tools/mkfs.py as it runs: an `Fs` and two dictionaries updated in place, one step at a time.
    Each method is proved equal to the step of the same name in `Tree`. */
module Mkfs {
  import opened Bytes
  import opened S5Reader
  import opened FileStore
  import opened FsModel
  import opened RunProgress
  import opened TreeModel
  import opened OnDisk
  import opened FreeBytes
  import opened FreeList
  import opened AllocInvariant
  import opened TreeInvariant
  import opened TreeRuns
  import opened TreeFinish
  import opened Image
  import opened InputAccounts
  import opened Stamps
  import opened Fs
  import BuildOutcome
  import WriteOutcome

  class Builder {
    const fs: Fs
    var dirs: map<string, nat>
    var order: seq<string>
    var entries: map<string, seq<Entry>>

    ghost function Now(): Tree
      reads this, fs
    {
      Tree(fs.Model(), dirs, order, entries)
    }

    /** Directories are inodes of the table, and every inode has its 13 addresses. */
    ghost predicate Linked()
      reads this, fs
    {
      && Keyed(Now())
      && (forall p :: p in dirs ==> dirs[p] in fs.inodes)
      && (forall n :: n in fs.inodes ==> |fs.inodes[n].addr| == 13)
    }

    ghost predicate Valid()
      reads this, fs, fs.data
    {
      fs.Valid() && Linked()
    }

    constructor (fs: Fs)
      ensures this.fs == fs
    {
      this.fs := fs;
      dirs, order, entries := map[], [], map[];
    }

    method MakeRoot() returns (r: Checked<()>)
      requires fs.Valid() && fs.inodes == map[]
      modifies this, fs
      ensures match Root(old(fs.Model()))
        case Failure(e) => r == Failure(e)
        case Success(t) => r.Success? && Valid() && Now() == t
    {
      hide Coupled;
      var n :- fs.AllocInode(S_IFDIR + 493);
      dirs, order := map["/" := n], ["/"];
      entries := map["/" := [Entry(n, "."), Entry(n, "..")]];
      fs.inodes := fs.inodes[n := fs.inodes[n].(nlink := 2)];
      return Success(());
    }

    method NewDir(path: string, parent: nat) returns (r: Checked<nat>)
      requires Valid() && HasSlash(path) && path !in dirs
      requires ParentPath(path) in dirs && parent == dirs[ParentPath(path)]
      modifies this, fs
      ensures match TreeModel.NewDir(old(Now()), path)
        case Failure(e) => r == Failure(e)
        case Success(t) => Valid() && Now() == t && path in t.dirs && r == Success(t.dirs[path])
    {
      hide Coupled, HasSlash, ParentPath, BaseName, NoAddrs;
      var d :- fs.AllocInode(S_IFDIR + 493);
      dirs, order := dirs[path := d], order + [path];
      entries := Append(entries[path := [Entry(d, "."), Entry(parent, "..")]],
                        ParentPath(path), Entry(d, BaseName(path)));
      fs.inodes := AddLink(fs.inodes[d := fs.inodes[d].(nlink := 2)], parent);
      return Success(d);
    }

    method GetDir(path: string) returns (r: Checked<nat>)
      requires Valid()
      modifies this, fs
      ensures match TreeModel.GetDir(old(Now()), path)
        case Failure(e) => r == Failure(e)
        case Success(t) => Valid() && Now() == t && r == Success(t.dirs[path])
      decreases |path|
    {
      hide Coupled, HasSlash, ParentPath, TreeModel.NewDir;
      if path in dirs {
        return Success(dirs[path]);
      }
      if !HasSlash(path) {
        return Failure(BadPath);
      }
      ParentShorter(path);
      var parent :- GetDir(ParentPath(path));
      r := NewDir(path, parent);
    }

    method AddFile(here: string, f: HostFile) returns (r: Checked<()>)
      requires Valid() && here in entries
      modifies this, fs, fs.data
      ensures match TreeModel.AddFile(old(Now()), here, f)
        case Failure(e) => r == Failure(e)
        case Success(t) => r.Success? && Valid() && Now() == t
    {
      hide Coupled, NBlocks, NewAddrs;
      var n :- fs.AllocInode(FileMode(f));
      var _ :- fs.StoreData(n, f.content);
      entries := Append(entries, here, Entry(n, f.name));
      return Success(());
    }

    method AddVisit(v: Visit) returns (r: Checked<()>)
      requires Valid()
      modifies this, fs, fs.data
      ensures match TreeModel.AddVisit(old(Now()), v)
        case Failure(e) => r == Failure(e)
        case Success(t) => r.Success? && Valid() && Now() == t
    {
      hide Coupled, TreeModel.GetDir, TreeModel.AddFile;
      ghost var t0 := Now();
      var _ :- GetDir(v.here);
      ghost var t1 := Now();
      for i := 0 to |v.files|
        invariant Valid()
        invariant TreeModel.AddFiles(t1, v.here, v.files[..i]) == Success(Now())
      {
        FilesStep(t1, v.here, v.files, i);
        var _ :- AddFile(v.here, v.files[i]);
      }
      assert v.files[..|v.files|] == v.files;
      return Success(());
    }

    method AddHost(host: seq<Visit>) returns (r: Checked<()>)
      requires Valid()
      modifies this, fs, fs.data
      ensures match AddVisits(old(Now()), host)
        case Failure(e) => r == Failure(e)
        case Success(t) => r.Success? && Valid() && Now() == t
    {
      hide Coupled, TreeModel.AddVisit;
      ghost var t0 := Now();
      for i := 0 to |host|
        invariant Valid()
        invariant AddVisits(t0, host[..i]) == Success(Now())
      {
        VisitsStep(t0, host, i);
        var _ :- AddVisit(host[i]);
      }
      assert host[..|host|] == host;
      return Success(());
    }

    method FindLast(ents: seq<Entry>, name: string) returns (r: Option<nat>)
      ensures r == LastMatch(ents, name)
    {
      r := None;
      for i := 0 to |ents|
        invariant r == LastMatch(ents[..i], name)
      {
        assert ents[..i + 1][..i] == ents[..i];
        if ents[i].name == name {
          r := Some(ents[i].num);
        }
      }
      assert ents[..|ents|] == ents;
    }

    method LinkEntry(parentPath: string, name: string, target: string) returns (r: Checked<()>)
      requires Valid() && parentPath in entries
      modifies this, fs
      ensures match TreeModel.LinkEntry(old(Now()), parentPath, name, target)
        case Failure(e) => r == Failure(e)
        case Success(t) => r.Success? && Valid() && Now() == t
    {
      hide Coupled, HasSlash, ParentPath, BaseName, LastMatch;
      if !HasSlash(target) || ParentPath(target) !in entries {
        return Failure(BadPath);
      }
      var tino := FindLast(entries[ParentPath(target)], BaseName(target));
      if tino == None {
        return Failure(LinkNotFound);
      }
      var n := tino.value;
      if n !in fs.inodes {
        return Failure(BadPath);
      }
      entries := Append(entries, parentPath, Entry(n, name));
      fs.inodes := AddLink(fs.inodes, n);
      return Success(());
    }

    method AddDevice(parentPath: string, name: string, mode: nat, dev: nat) returns (r: Checked<()>)
      requires Valid() && parentPath in entries
      modifies this, fs
      ensures match TreeModel.AddDevice(old(Now()), parentPath, name, mode, dev)
        case Failure(e) => r == Failure(e)
        case Success(t) => r.Success? && Valid() && Now() == t
    {
      hide Coupled;
      var n :- fs.AllocInode(mode);
      fs.inodes := fs.inodes[n := fs.inodes[n].(addr := fs.inodes[n].addr[0 := dev])];
      entries := Append(entries, parentPath, Entry(n, name));
      return Success(());
    }

    method AddLine(line: SpecLine) returns (r: Checked<()>)
      requires Valid()
      modifies this, fs
      ensures match TreeModel.AddLine(old(Now()), line)
        case Failure(e) => r == Failure(e)
        case Success(t) => r.Success? && Valid() && Now() == t
    {
      hide Coupled, HasSlash, ParentPath, BaseName, TreeModel.GetDir, TreeModel.LinkEntry, TreeModel.AddDevice, BitOr,
        DeviceMode, DeviceNumber;
      if !HasSlash(line.path) {
        return Failure(BadPath);
      }
      match line
      case DirLine(path, mode) =>
        var n :- GetDir(path);
        fs.inodes := fs.inodes[n := fs.inodes[n].(mode := BitOr(S_IFDIR, mode))];
        return Success(());
      case LinkLine(path, target) =>
        var _ :- GetDir(ParentPath(path));
        r := LinkEntry(ParentPath(path), BaseName(path), target);
      case DevLine(path, mode, block, major, minor) =>
        var _ :- GetDir(ParentPath(path));
        r := AddDevice(ParentPath(path), BaseName(path), DeviceMode(mode, block), DeviceNumber(major, minor));
    }

    method AddSpec(spec: seq<SpecLine>) returns (r: Checked<()>)
      requires Valid()
      modifies this, fs
      ensures match AddLines(old(Now()), spec)
        case Failure(e) => r == Failure(e)
        case Success(t) => r.Success? && Valid() && Now() == t
    {
      hide Coupled, TreeModel.AddLine;
      ghost var t0 := Now();
      for i := 0 to |spec|
        invariant Valid()
        invariant AddLines(t0, spec[..i]) == Success(Now())
      {
        LinesStep(t0, spec, i);
        var _ :- AddLine(spec[i]);
      }
      assert spec[..|spec|] == spec;
      return Success(());
    }

    /** `b''.join(Fs.dirent(n, nm) for n, nm in ents)` */
    method MakeBlob(ents: seq<Entry>) returns (r: Checked<seq<byte>>)
      ensures r == Blob(ents)
    {
      hide Dirent;
      var b: seq<byte> := [];
      for i := 0 to |ents|
        invariant Blob(ents[..i]) == Success(b)
      {
        BlobStep(ents, i);
        var rec :- Dirent(ents[i]);
        b := b + rec;
      }
      assert ents[..|ents|] == ents;
      return Success(b);
    }

    method StoreDirectories() returns (r: Checked<()>)
      requires Valid() && forall i :: 0 <= i < |order| ==> order[i] in dirs
      modifies fs, fs.data
      ensures match StoreDirs(old(Now()), old(order))
        case Failure(e) => r == Failure(e)
        case Success(t) => r.Success? && Valid() && Now() == t
    {
      hide Coupled, Blob, NBlocks, NewAddrs;
      ghost var t0 := Now();
      for i := 0 to |order|
        invariant Valid()
        invariant StoreDirs(t0, order[..i]) == Success(Now())
      {
        DirsStep(t0, order, i);
        var path := order[i];
        var blob :- MakeBlob(entries[path]);
        var _ :- fs.StoreData(dirs[path], blob);
      }
      assert order[..|order|] == order;
      return Success(());
    }

    /** Grow the tree, then write it all out: i-list, free list, superblock. */
    method Build(host: seq<Visit>, spec: seq<SpecLine>, ghost ninodes: nat) returns (r: Checked<()>)
      requires fs.Valid() && fs.Model() == Init(fs.nblocks, ninodes)
      modifies this, fs, fs.data
      ensures match TreeModel.Build(Init(fs.nblocks, ninodes), host, spec)
        case Failure(e) => r == Failure(e)
        case Success(t) =>
          && (r.Success? <==> Writable(t.fs))
          && (r.Failure? ==> r == Failure(Unencodable))
          && (r.Success? ==> Now() == t && ImageOf(fs.data[..], t.fs, fs.now, Cache(fs.nfree, fs.free)))
          && (r.Success? ==> BootBlank(fs.data[..]))
    {
      hide Coupled, Root, AddVisits, AddLines, StoreDirs, Init, TreeOk, HasVisits, LinesDone;
      InitEmpty(fs.nblocks, ninodes);
      var _ :- MakeRoot();
      var _ :- AddHost(host);
      var _ :- AddSpec(spec);
      GrowOk(fs.nblocks, ninodes, host, spec);
      OrderIsDirs(Now());
      var _ :- StoreDirectories();
      r := Finish(host, spec, ninodes);
    }

    method Finish(ghost host: seq<Visit>, ghost spec: seq<SpecLine>, ghost ninodes: nat) returns (r: Checked<()>)
      requires Valid() && TreeModel.Build(Init(fs.nblocks, ninodes), host, spec) == Success(Now())
      modifies fs`nfree, fs`free, fs`tfree, fs.data
      ensures r.Success? <==> Writable(fs.Model())
      ensures r.Failure? ==> r == Failure(Unencodable)
      ensures r.Success? ==> ImageOf(fs.data[..], fs.Model(), fs.now, Cache(fs.nfree, fs.free))
      ensures r.Success? ==> BootBlank(fs.data[..])
    {
      hide Coupled, TreeModel.Build, Init, Finished, HasVisits, LinesDone, RunsTile, FilesOk, InodesOk, NumsOk, ModesOk,
        Packable, PackedInode, SuperFits, SuperBytes, Represents, FreeStack, IList, Holds, FilesHeld, CacheFits,
        FreeInos, KeysOk;
      ghost var t, s, d0 := Now(), fs.Model(), fs.data[..];
      BuildOk(fs.nblocks, ninodes, host, spec);
      RoomForRoot(t);
      FinishedParts(t);
      CoupledFiles(d0, s, fs.firstData);
      TableNumbers(t);
      var _ :- fs.WriteInodes();
      ghost var d1 := fs.data[..];
      fs.BuildFreeList();
      ghost var d2, fl := fs.data[..], Cache(fs.nfree, fs.free);
      CacheSize(fl);
      FitsSplit(s, fl, fs.now);
      var _ :- fs.WriteSuperblock();
      ImageAssembled(d0, d1, d2, s, fs.now, fl);
      return Success(());
    }
  }

  /** The sector before the superblock is left alone. */
  ghost predicate BootBlank(d: seq<byte>) {
    |d| >= 512 && forall k :: 0 <= k < 512 ==> d[k] == 0
  }

  lemma InitEmpty(nblocks: nat, ninodes: nat)
    ensures Init(nblocks, ninodes).inodes == map[] && Init(nblocks, ninodes).nblocks == nblocks
  {
  }

  lemma OrderIsDirs(t: Tree)
    requires TreeOk(t)
    ensures forall i :: 0 <= i < |t.order| ==> t.order[i] in t.dirs
  {
    hide AllocOk, NumsOk, Links.LinksOk, ShapeOk, ModesOk, DirsEmpty;
  }

  lemma FitsSplit(s: State, fl: Cache, now: nat)
    requires CacheFits(fl) && s.nblocks <= 0xffff_ffff && now <= 0xffff_ffff
    requires forall n :: n in s.inodes ==> Packable(s.inodes[n])
    ensures fl.nfree <= 50 == |fl.free|
    ensures SuperFits(SuperOf(s, fl, now)) <==> Writable(s)
  {
    hide Packable, FreeInos;
  }

  lemma CoupledFiles(d: seq<byte>, s: State, firstData: nat)
    requires Coupled(d, firstData, s.nextBlock, s.stored)
    ensures FilesHeld(d, s)
    ensures forall k :: 0 <= k < 1024 * firstData && k < |d| ==> d[k] == 0
  {
    hide Holds;
  }

  lemma TableNumbers(t: Tree)
    requires Finished(t)
    ensures forall n :: n in t.fs.inodes ==> 1 <= n <= t.fs.ninodes
    ensures t.fs.nextIno <= t.fs.ninodes
  {
    hide Finished, RunsTile, FilesOk, NumsOk, ModesOk, InodesOk;
    FinishedParts(t);
    forall n | n in t.fs.inodes
      ensures 1 <= n <= t.fs.ninodes
    {
      NumbersInTable(t, n);
    }
  }

  /** One inode for every 8 KB or so, and 512 at the least. */
  function TableSize(nblocks: nat): nat {
    var n := (nblocks / 8 + 15) / 16 * 16;
    if n < 512 then 512 else n
  }

  /** An i-list of `blocks` blocks of 16 inodes has one inode for every eight blocks of the image and 512 at the least,
      and is the shortest that has. */
  predicate TableFor(blocks: int, nblocks: nat) {
    && blocks >= 32 && 16 * blocks >= nblocks / 8
    && (blocks == 32 || 16 * (blocks - 1) < nblocks / 8)
  }

  lemma TableIsLeast(d: seq<byte>, s: State, now: nat, fl: Cache, nblocks: nat)
    requires ImageOf(d, s, now, fl) && s.ninodes == Init(nblocks, TableSize(nblocks)).ninodes
    ensures |d| >= 1024 && TableFor(U16(d, 512) - 2, nblocks)
  {
    hide ImageOf, U16, TableFor, TableSize, Init;
    Ownership.ImageSizes(d, s, now, fl);
    SizeIsLeast(nblocks);
  }

  lemma SizeIsLeast(nblocks: nat)
    ensures var n := Init(nblocks, TableSize(nblocks)).ninodes; TableFor(n / 16, nblocks)
  {
    assert TableSize(nblocks) % 16 == 0;
  }

  /** `d` begins with a finished image of `s`, whatever the stale slots of its free list. */
  ghost predicate Imaged(d: seq<byte>, s: State, now: nat) {
    exists fl :: ImageOf(d, s, now, fl)
  }

  /** `s_isize` has 16 bits and `main` makes one inode for every eight blocks: what it can write ends at half of the
      2^24 blocks a three-byte address can tell apart. */
  lemma WritableIsNarrow(s: State, nblocks: nat)
    requires Writable(s) && s.ninodes == Init(nblocks, TableSize(nblocks)).ninodes
    ensures nblocks < 0x80_0000
  {
  }

  /** `main`: build an image and, if asked, lay a disktab over its first bytes. */
  method Make(nblocks: nat, host: seq<Visit>, spec: seq<SpecLine>, now: nat, disktab: seq<byte>)
    returns (r: Checked<seq<byte>>)
    requires nblocks <= 0xffff_ffff && now <= 0xffff_ffff && |disktab| <= 512
    ensures var s := Init(nblocks, TableSize(nblocks));
      r.Success? <==> BuildOutcome.Feasible(s, host, spec) && WriteOutcome.FieldsFit(s.ninodes, host, spec)
    ensures match TreeModel.Build(Init(nblocks, TableSize(nblocks)), host, spec)
      case Failure(e) => r == Failure(e)
      case Success(t) =>
        && (r.Success? <==> Writable(t.fs))
        && (r.Failure? ==> r == Failure(Unencodable))
        && (r.Success? ==>
              && |r.value| == nblocks * 1024
              && Imaged(r.value, t.fs, now)
              && |disktab| <= |r.value| && r.value[..|disktab|] == disktab
              && Stamped(r.value, t.fs, now) && FreeListLies(r.value, nblocks, nblocks - t.fs.nextBlock)
              && (forall k :: |disktab| <= k < 512 ==> r.value[k] == 0)
              && nblocks < 0x80_0000 && TableFor(U16(r.value, 512) - 2, nblocks)
              && ReadsBack(r.value, t, Init(nblocks, TableSize(nblocks)), host, spec))
  {
    hide Coupled, TreeModel.Build, Init, ImageOf, Writable, Finished, RunsTile, FilesOk, InodesOk, NumsOk, ModesOk,
      HasVisits, LinesDone, ReadsBack, BuildOutcome.Feasible, WriteOutcome.FieldsFit, Stamped, FreeListLies, U16,
      TableFor;
    InitEmpty(nblocks, TableSize(nblocks));
    WriteOutcome.WritesWhen(nblocks, TableSize(nblocks), host, spec);
    ghost var ninodes := Init(nblocks, TableSize(nblocks)).ninodes;
    var fs := new Fs(nblocks, TableSize(nblocks), now);
    var b := new Builder(fs);
    var _ :- b.Build(host, spec, TableSize(nblocks));
    ghost var t := b.Now();
    BuildOk(nblocks, TableSize(nblocks), host, spec);
    FinishedParts(t);
    ghost var fl := Cache(fs.nfree, fs.free);
    ImageLength(fs.data[..], t.fs, now, fl);
    BootSectorIsFree(fs.data[..], disktab, t.fs, now, fl);
    fs.Assign(0, disktab);
    assert ImageOf(fs.data[..], t.fs, now, fl);
    assert t.fs.ninodes == ninodes;
    WritableIsNarrow(t.fs, nblocks);
    RoomForRoot(t);
    ImageReadsBack(nblocks, TableSize(nblocks), host, spec, fs.data[..], now, fl);
    ImageIsStamped(fs.data[..], t.fs, now, fl);
    FreeListIs(fs.data[..], t.fs, now, fl);
    TableIsLeast(fs.data[..], t.fs, now, fl, nblocks);
    return Success(fs.data[..]);
  }

  /** With no input at all `build` succeeds exactly when there is a block for the root directory, and the image can be
      written exactly when the free inodes can be counted in 16 bits. */
  lemma EmptyTree(nblocks: nat)
    ensures var r := TreeModel.Build(Init(nblocks, TableSize(nblocks)), [], []);
      && (r.Success? <==> nblocks > TableSize(nblocks) / 16 + 2)
      && (r.Success? ==> (Writable(r.value.fs) <==> TableSize(nblocks) <= 65536))
  {
    var s := Init(nblocks, TableSize(nblocks));
    RootValue(nblocks, TableSize(nblocks));
    var t := Root(s).value;
    EmptyRoot(t);
    assert Grow(s, [], []) == Success(t);
    assert t.order[..0] == [] && StoreDirs(t, []) == Success(t);
  }

  lemma EmptyRoot(t: Tree)
    requires t.dirs == map["/" := 2] && t.entries == map["/" := [Entry(2, "."), Entry(2, "..")]]
    requires t.fs.inodes == map[2 := Inode(S_IFDIR + 493, 2, 0, 0, 0, NoAddrs())]
    ensures Keyed(t)
    ensures StoreDir(t, "/").Success? <==> t.fs.nextBlock + 1 <= t.fs.nblocks
    ensures StoreDir(t, "/").Success? ==>
      var s := StoreDir(t, "/").value.fs;
      && s.nextIno == t.fs.nextIno && s.ninodes == t.fs.ninodes
      && s.inodes.Keys == {2} && Packable(s.inodes[2])
  {
    var ents := [Entry(2, "."), Entry(2, "..")];
    assert ents[..1] == [Entry(2, ".")] && ents[..1][..0] == [];
    assert Dirent(ents[0]).Success? && Dirent(ents[1]).Success?;
    assert Blob([]) == Success([]);
    assert Blob(ents[..1]).Success?;
    assert Blob(ents).Success?;
  }

  lemma ImageLength(d: seq<byte>, s: State, now: nat, fl: Cache)
    requires ImageOf(d, s, now, fl)
    ensures |d| >= 1024
  {
    hide SuperBytes, Represents, Holds, IList, SuperFits;
  }

  // --- one turn of each loop ---------------------------------------------------------

  lemma FilesStep(t: Tree, here: string, files: seq<HostFile>, i: nat)
    requires Keyed(t) && here in t.entries && i < |files|
    ensures AddFiles(t, here, files[..i + 1]) == (
      var t1 :- AddFiles(t, here, files[..i]);
      TreeModel.AddFile(t1, here, files[i]))
    ensures AddFiles(t, here, files[..i + 1]).Failure? ==> AddFiles(t, here, files) == AddFiles(t, here, files[..i + 1])
    decreases |files| - i
  {
    assert files[..i + 1][..i] == files[..i];
    FilesFail(t, here, files, i + 1);
  }

  lemma {:induction false} FilesFail(t: Tree, here: string, files: seq<HostFile>, i: nat)
    requires Keyed(t) && here in t.entries && i <= |files|
    ensures AddFiles(t, here, files[..i]).Failure? ==> AddFiles(t, here, files) == AddFiles(t, here, files[..i])
    decreases |files| - i
  {
    hide TreeModel.AddFile;
    if i == |files| {
      assert files[..i] == files;
    } else {
      assert files[..i + 1][..i] == files[..i];
      FilesFail(t, here, files, i + 1);
    }
  }

  lemma VisitsStep(t: Tree, host: seq<Visit>, i: nat)
    requires Keyed(t) && i < |host|
    ensures AddVisits(t, host[..i + 1]) == (
      var t1 :- AddVisits(t, host[..i]);
      TreeModel.AddVisit(t1, host[i]))
    ensures AddVisits(t, host[..i + 1]).Failure? ==> AddVisits(t, host) == AddVisits(t, host[..i + 1])
  {
    assert host[..i + 1][..i] == host[..i];
    VisitsFail(t, host, i + 1);
  }

  lemma {:induction false} VisitsFail(t: Tree, host: seq<Visit>, i: nat)
    requires Keyed(t) && i <= |host|
    ensures AddVisits(t, host[..i]).Failure? ==> AddVisits(t, host) == AddVisits(t, host[..i])
    decreases |host| - i
  {
    hide TreeModel.AddVisit;
    if i == |host| {
      assert host[..i] == host;
    } else {
      assert host[..i + 1][..i] == host[..i];
      VisitsFail(t, host, i + 1);
    }
  }

  lemma LinesStep(t: Tree, spec: seq<SpecLine>, i: nat)
    requires Keyed(t) && i < |spec|
    ensures AddLines(t, spec[..i + 1]) == (
      var t1 :- AddLines(t, spec[..i]);
      TreeModel.AddLine(t1, spec[i]))
    ensures AddLines(t, spec[..i + 1]).Failure? ==> AddLines(t, spec) == AddLines(t, spec[..i + 1])
  {
    assert spec[..i + 1][..i] == spec[..i];
    LinesFail(t, spec, i + 1);
  }

  lemma {:induction false} LinesFail(t: Tree, spec: seq<SpecLine>, i: nat)
    requires Keyed(t) && i <= |spec|
    ensures AddLines(t, spec[..i]).Failure? ==> AddLines(t, spec) == AddLines(t, spec[..i])
    decreases |spec| - i
  {
    hide TreeModel.AddLine;
    if i == |spec| {
      assert spec[..i] == spec;
    } else {
      assert spec[..i + 1][..i] == spec[..i];
      LinesFail(t, spec, i + 1);
    }
  }

  lemma BlobStep(ents: seq<Entry>, i: nat)
    requires i < |ents|
    ensures Blob(ents[..i + 1]) == (
      var front :- Blob(ents[..i]);
      var last :- Dirent(ents[i]);
      Success(front + last))
    ensures Blob(ents[..i + 1]).Failure? ==> Blob(ents) == Blob(ents[..i + 1])
  {
    assert ents[..i + 1][..i] == ents[..i];
    BlobFail(ents, i + 1);
  }

  lemma {:induction false} BlobFail(ents: seq<Entry>, i: nat)
    requires i <= |ents|
    ensures Blob(ents[..i]).Failure? ==> Blob(ents) == Blob(ents[..i])
    decreases |ents| - i
  {
    hide Dirent;
    if i == |ents| {
      assert ents[..i] == ents;
    } else {
      assert ents[..i + 1][..i] == ents[..i];
      BlobFail(ents, i + 1);
    }
  }

  lemma DirsStep(t: Tree, order: seq<string>, i: nat)
    requires Keyed(t) && i < |order|
    ensures StoreDirs(t, order[..i + 1]) == (
      var t1 :- StoreDirs(t, order[..i]);
      StoreDir(t1, order[i]))
    ensures StoreDirs(t, order[..i + 1]).Failure? ==> StoreDirs(t, order) == StoreDirs(t, order[..i + 1])
  {
    assert order[..i + 1][..i] == order[..i];
    DirsFail(t, order, i + 1);
  }

  lemma {:induction false} DirsFail(t: Tree, order: seq<string>, i: nat)
    requires Keyed(t) && i <= |order|
    ensures StoreDirs(t, order[..i]).Failure? ==> StoreDirs(t, order) == StoreDirs(t, order[..i])
    decreases |order| - i
  {
    hide StoreDir;
    if i == |order| {
      assert order[..i] == order;
    } else {
      assert order[..i + 1][..i] == order[..i];
      DirsFail(t, order, i + 1);
    }
  }
}
