/** Every step of `build` keeps `TreeOk`, so every tree it can reach has it. */
module TreeSteps {
  import opened Bytes
  import opened FileStore
  import opened FsModel
  import opened S5Reader
  import opened TreeModel
  import opened AllocInvariant
  import opened Links
  import opened TreeInvariant

  lemma TreeAlloc(t: Tree)
    requires TreeOk(t)
    ensures AllocOk(t.fs) && Keyed(t)
  {
    hide AllocOk, NumsOk, LinksOk, ShapeOk, ModesOk, DirsEmpty, Distinct;
  }

  lemma FreshIsNoDir(t: Tree)
    requires TreeOk(t)
    ensures t.fs.nextIno !in t.fs.inodes && !IsStored(t.fs, t.fs.nextIno) && !IsDirNum(t.dirs, t.fs.nextIno)
  {
    FreshNotStored(t.fs);
    hide AllocOk, LinksOk, ShapeOk, ModesOk, DirsEmpty, KeysOk, IsStored;
  }

  // --- regular files -------------------------------------------------------------

  /** State after `alloc_inode` and `store_data`. */
  function WithFile(s: State, mode: nat, content: seq<byte>): Checked<State> {
    var s1 :- AllocInode(s, mode);
    FsModel.StoreData(s1, s.nextIno, content)
  }

  lemma WithFileEffect(s: State, mode: nat, content: seq<byte>)
    requires AllocOk(s) && WithFile(s, mode, content).Success?
    ensures var n, f, s' := s.nextIno, Stored(s.nextIno, s.nextBlock, content), WithFile(s, mode, content).value;
      && s'.stored == s.stored + [f]
      && s'.nextIno == n + 1 <= s.ninodes == s'.ninodes && s'.nblocks == s.nblocks
      && s'.inodes == s.inodes[n := Inode(mode, 1, 0, 0, |content|, Addrs(f.lo, NBlocks(content)))]
    ensures AllocOk(WithFile(s, mode, content).value)
  {
    var s1 := AllocInode(s, mode).value;
    AllocInodeOk(s, mode);
    StoreDataEffect(s1, s.nextIno, content);
    hide AllocOk, IsStored, Addrs, NBlocks, NoAddrs, FsModel.StoreData;
    StoreDataOk(s1, s.nextIno, content);
  }

  lemma ModesAdd(dirs: map<string, nat>, inodes: map<nat, Inode>, n: nat, i: Inode)
    requires ModesOk(dirs, inodes) && (!IsDir(i.mode) || IsDirNum(dirs, n))
    ensures ModesOk(dirs, inodes[n := i])
  {
    hide IsDir;
  }

  lemma DirsKept(dirs: map<string, nat>, s: State, s': State, n: nat, i: Inode)
    requires DirsEmpty(dirs, s) && n !in s.inodes && s'.inodes == s.inodes[n := i]
    requires forall m :: IsStored(s', m) ==> IsStored(s, m) || m == n
    ensures DirsEmpty(dirs, s')
  {
    hide IsStored;
  }

  lemma OneMoreLink(inodes: map<nat, Inode>, n: nat, i: Inode)
    requires n !in inodes && i.nlink == 1
    ensures forall m: nat :: LinkCount(inodes[n := i], m) == LinkCount(inodes, m) + One(m == n)
  {
  }

  /** A new inode that is no directory, with one entry for it. */
  lemma NewFileOk(t: Tree, t': Tree, here: string, name: string, i: Inode)
    requires TreeOk(t) && here in t.entries
    requires t' == Tree(t'.fs, t.dirs, t.order, Append(t.entries, here, Entry(t.fs.nextIno, name)))
    requires AllocOk(t'.fs) && t'.fs.nextIno <= t'.fs.ninodes
    requires t'.fs.inodes == t.fs.inodes[t.fs.nextIno := i] && i.nlink == 1 && !IsDir(i.mode)
    requires forall m :: IsStored(t'.fs, m) ==> IsStored(t.fs, m) || m == t.fs.nextIno
    ensures TreeOk(t')
  {
    hide IsStored, IsDir, AllocOk, LinksOk, ShapeOk, NumsOk, ModesOk, DirsEmpty, KeysOk, LinkCount, Append;
    var n := t.fs.nextIno;
    FreshIsNoDir(t);
    ModesAdd(t.dirs, t.fs.inodes, n, i);
    DirsKept(t.dirs, t.fs, t'.fs, n, i);
    OneMoreLink(t.fs.inodes, n, i);
    AppendOk(t, t', here, Entry(n, name));
  }

  lemma AddFileEffect(t: Tree, here: string, f: HostFile)
    requires Keyed(t) && here in t.entries && AddFile(t, here, f).Success?
    ensures var t' := AddFile(t, here, f).value;
      && WithFile(t.fs, FileMode(f), f.content) == Success(t'.fs)
      && t' == Tree(t'.fs, t.dirs, t.order, Append(t.entries, here, Entry(t.fs.nextIno, f.name)))
    ensures !IsDir(FileMode(f))
  {
    hide FsModel.StoreData, Append;
  }

  lemma AddFileOk(t: Tree, here: string, f: HostFile)
    requires TreeOk(t) && here in t.entries && AddFile(t, here, f).Success?
    ensures TreeOk(AddFile(t, here, f).value)
  {
    hide LinksOk, ShapeOk, NumsOk, ModesOk, DirsEmpty, IsStored, AllocOk, AddFile, WithFile, Append, Addrs,
      NBlocks, IsDir, FileMode;
    AddFileEffect(t, here, f);
    var t' := AddFile(t, here, f).value;
    WithFileEffect(t.fs, FileMode(f), f.content);
    LogGrew(t.fs, t'.fs, Stored(t.fs.nextIno, t.fs.nextBlock, f.content));
    NewFileOk(t, t', here, f.name, t'.fs.inodes[t.fs.nextIno]);
  }

  // --- special files --------------------------------------------------------------

  lemma AddDeviceEffect(t: Tree, parentPath: string, name: string, mode: nat, dev: nat)
    requires AllocOk(t.fs) && Keyed(t) && parentPath in t.entries && AddDevice(t, parentPath, name, mode, dev).Success?
    ensures var n, t' := t.fs.nextIno, AddDevice(t, parentPath, name, mode, dev).value;
      && t' == Tree(t'.fs, t.dirs, t.order, Append(t.entries, parentPath, Entry(n, name)))
      && t'.fs.inodes == t.fs.inodes[n := Inode(mode, 1, 0, 0, 0, NoAddrs()[0 := dev])]
      && t'.fs.stored == t.fs.stored
      && t'.fs.nextIno == n + 1 <= t.fs.ninodes == t'.fs.ninodes
      && AllocOk(t'.fs)
  {
    hide AllocOk, IsStored, NoAddrs;
    var n, s1 := t.fs.nextIno, AllocInode(t.fs, mode).value;
    AllocInodeOk(t.fs, mode);
    DeviceOk(s1, n, dev);
  }

  lemma AddDeviceOk(t: Tree, parentPath: string, name: string, mode: nat, dev: nat)
    requires TreeOk(t) && parentPath in t.entries && !IsDir(mode)
    requires AddDevice(t, parentPath, name, mode, dev).Success?
    ensures TreeOk(AddDevice(t, parentPath, name, mode, dev).value)
  {
    hide LinksOk, ShapeOk, NumsOk, ModesOk, DirsEmpty, IsStored, AllocOk, AddDevice, Append, NoAddrs, IsDir;
    AddDeviceEffect(t, parentPath, name, mode, dev);
    var t' := AddDevice(t, parentPath, name, mode, dev).value;
    SameLog(t.fs, t'.fs);
    NewFileOk(t, t', parentPath, name, t'.fs.inodes[t.fs.nextIno]);
  }

  // --- changes to inodes that exist ---------------------------------------------------

  lemma ModesRetouched(dirs: map<string, nat>, a: map<nat, Inode>, b: map<nat, Inode>)
    requires ModesOk(dirs, a) && forall n :: n in b ==> n in a && (b[n].mode == a[n].mode || IsDirNum(dirs, n))
    ensures ModesOk(dirs, b)
  {
    hide IsDir, IsDirNum;
  }

  lemma DirsRetouched(dirs: map<string, nat>, s: State, s': State)
    requires DirsEmpty(dirs, s) && s'.stored == s.stored && SameFiles(s.inodes, s'.inodes)
    ensures DirsEmpty(dirs, s')
  {
    SameLog(s, s');
    hide IsStored;
  }

  lemma AddLinkEffect(inodes: map<nat, Inode>, n: nat)
    requires n in inodes
    ensures SameFiles(inodes, AddLink(inodes, n)) && Extends(inodes, AddLink(inodes, n))
    ensures forall m: nat :: LinkCount(AddLink(inodes, n), m) == LinkCount(inodes, m) + One(m == n)
    ensures forall m :: m in AddLink(inodes, n) ==> m in inodes && AddLink(inodes, n)[m].mode == inodes[m].mode
  {
  }

  /** One more name for an inode that exists. */
  lemma LinkEntryOk(t: Tree, parentPath: string, name: string, target: string)
    requires TreeOk(t) && parentPath in t.entries && LinkEntry(t, parentPath, name, target).Success?
    ensures TreeOk(LinkEntry(t, parentPath, name, target).value)
  {
    hide LinksOk, ShapeOk, NumsOk, ModesOk, DirsEmpty, IsStored, AllocOk, Append, AddLink, LastMatch, ParentPath,
      BaseName, HasSlash, LastSlash;
    var n := LastMatch(t.entries[ParentPath(target)], BaseName(target)).value;
    NewNameOk(t, parentPath, name, n);
  }

  lemma NewNameOk(t: Tree, parentPath: string, name: string, n: nat)
    requires TreeOk(t) && parentPath in t.entries && n in t.fs.inodes
    ensures TreeOk(t.(
      fs := t.fs.(inodes := AddLink(t.fs.inodes, n)),
      entries := Append(t.entries, parentPath, Entry(n, name))))
  {
    hide LinksOk, ShapeOk, NumsOk, ModesOk, DirsEmpty, IsStored, AllocOk, Append, AddLink, LinkCount, SameFiles;
    var inodes := AddLink(t.fs.inodes, n);
    var t' := t.(fs := t.fs.(inodes := inodes), entries := Append(t.entries, parentPath, Entry(n, name)));
    AddLinkEffect(t.fs.inodes, n);
    RetouchOk(t.fs, inodes);
    ModesRetouched(t.dirs, t.fs.inodes, inodes);
    DirsRetouched(t.dirs, t.fs, t'.fs);
    AppendOk(t, t', parentPath, Entry(n, name));
  }

  lemma NumsRetouched(dirs: map<string, nat>, entries: map<string, seq<Entry>>, a: map<nat, Inode>, b: map<nat, Inode>)
    requires NumsOk(dirs, entries, a) && Extends(a, b)
    ensures NumsOk(dirs, entries, b)
  {
  }

  lemma ModeChanged(inodes: map<nat, Inode>, n: nat, mode: nat)
    requires n in inodes
    ensures var b := inodes[n := inodes[n].(mode := mode)];
      && SameFiles(inodes, b) && Extends(inodes, b)
      && (forall m: nat :: LinkCount(b, m) == LinkCount(inodes, m))
      && (forall m :: m in b ==> m in inodes && (m == n || b[m].mode == inodes[m].mode))
  {
  }

  lemma SetModeOk(t: Tree, path: string, mode: nat)
    requires TreeOk(t) && path in t.dirs && SetMode(t, t.dirs[path], mode).Success?
    ensures TreeOk(SetMode(t, t.dirs[path], mode).value)
  {
    hide LinksOk, ShapeOk, NumsOk, ModesOk, DirsEmpty, IsStored, AllocOk, LinkCount, SameFiles, Extends;
    var n := t.dirs[path];
    var t' := SetMode(t, n, mode).value;
    ModeChanged(t.fs.inodes, n, mode);
    RetouchOk(t.fs, t'.fs.inodes);
    ModesRetouched(t.dirs, t.fs.inodes, t'.fs.inodes);
    DirsRetouched(t.dirs, t.fs, t'.fs);
    NumsRetouched(t.dirs, t.entries, t.fs.inodes, t'.fs.inodes);
    LinksSame(t, t');
  }

  // --- new directories ----------------------------------------------------------------

  /** A state with one more directory inode, and one more link to its parent. */
  function WithDir(s: State, parent: nat): Checked<State> {
    var fs :- AllocInode(s, S_IFDIR + 493);
    if parent !in fs.inodes then Failure(BadPath) else
      Success(fs.(inodes := AddLink(fs.inodes[s.nextIno := fs.inodes[s.nextIno].(nlink := 2)], parent)))
  }

  ghost predicate DirInodeAdded(a: map<nat, Inode>, b: map<nat, Inode>, d: nat, parent: nat) {
    && d !in a && d in b && b[d].addr == NoAddrs() && b[d].size == 0 && b[d].mode == S_IFDIR + 493
    && Extends(a, b)
    && (forall n :: n in b ==> n == d || (n in a && b[n] == a[n].(nlink := b[n].nlink)))
    && (forall n: nat :: LinkCount(b, n) == LinkCount(a, n) + 2 * One(d == n) + One(parent == n))
  }

  lemma WithDirEffect(s: State, parent: nat)
    requires s.nextIno !in s.inodes && parent in s.inodes && WithDir(s, parent).Success?
    ensures var s' := WithDir(s, parent).value;
      && DirInodeAdded(s.inodes, s'.inodes, s.nextIno, parent)
      && s'.stored == s.stored && s'.nextIno == s.nextIno + 1 <= s.ninodes == s'.ninodes
    ensures AllocInode(s, S_IFDIR + 493).Success?
    ensures var s1 := AllocInode(s, S_IFDIR + 493).value;
      && SameFiles(s1.inodes, WithDir(s, parent).value.inodes)
      && WithDir(s, parent).value == s1.(inodes := WithDir(s, parent).value.inodes)
  {
  }

  lemma WithDirOk(s: State, parent: nat)
    requires AllocOk(s) && parent in s.inodes && WithDir(s, parent).Success?
    ensures AllocOk(WithDir(s, parent).value)
    ensures var s' := WithDir(s, parent).value;
      && DirInodeAdded(s.inodes, s'.inodes, s.nextIno, parent)
      && s'.stored == s.stored && s'.nextIno == s.nextIno + 1 <= s.ninodes == s'.ninodes
  {
    hide AllocOk, DirInodeAdded, WithDir, AllocInode, SameFiles;
    FreshNotStored(s);
    WithDirEffect(s, parent);
    AllocInodeOk(s, S_IFDIR + 493);
    RetouchOk(AllocInode(s, S_IFDIR + 493).value, WithDir(s, parent).value.inodes);
  }

  function WithDirEntries(entries: map<string, seq<Entry>>, path: string, d: nat, parent: nat): map<string, seq<Entry>>
    requires HasSlash(path) && ParentPath(path) in entries
  {
    Append(entries[path := [Entry(d, "."), Entry(parent, "..")]], ParentPath(path), Entry(d, BaseName(path)))
  }

  lemma KeysNewDir(t: Tree, t': Tree, path: string, d: nat)
    requires KeysOk(t) && path !in t.dirs && !IsDirNum(t.dirs, d)
    requires t'.dirs == t.dirs[path := d] && t'.order == t.order + [path]
    requires t'.entries.Keys == t.entries.Keys + {path} && t'.fs.nextIno <= t'.fs.ninodes
    ensures KeysOk(t')
  {
  }

  lemma NumsNewDir(t: Tree, path: string, d: nat, parent: nat, b: map<nat, Inode>)
    requires NumsOk(t.dirs, t.entries, t.fs.inodes) && path !in t.entries
    requires HasSlash(path) && ParentPath(path) in t.entries
    requires Extends(t.fs.inodes, b) && d in b && parent in b
    ensures NumsOk(t.dirs[path := d], WithDirEntries(t.entries, path, d, parent), b)
  {
    hide ParentPath, BaseName, HasSlash, LastSlash;
    var entries': map<string, seq<Entry>> := WithDirEntries(t.entries, path, d, parent);
    forall p: string, i | p in entries' && 0 <= i < |entries'[p]|
      ensures entries'[p][i].num in b
    {
      if p == ParentPath(path) {
        if i < |t.entries[p]| {
          assert entries'[p][i] == t.entries[p][i];
        }
      } else if p != path {
        assert entries'[p] == t.entries[p];
      }
    }
  }

  lemma NewDirEntries(entries: map<string, seq<Entry>>, path: string, d: nat, parent: nat)
    requires path !in entries && HasSlash(path) && ParentPath(path) in entries
    ensures var entries' := WithDirEntries(entries, path, d, parent);
      && Grew(entries, entries')
      && entries'.Keys == entries.Keys + {path}
      && entries'[path] == [Entry(d, "."), Entry(parent, "..")]
      && Entry(d, BaseName(path)) in entries'[ParentPath(path)]
  {
    hide ParentPath, BaseName, HasSlash, LastSlash;
    var pp := ParentPath(path);
    var entries': map<string, seq<Entry>> := WithDirEntries(entries, path, d, parent);
    assert entries'[pp] == entries[pp] + [Entry(d, BaseName(path))];
    assert entries[pp] <= entries'[pp];
  }

  lemma NewDirShape(dirs: map<string, nat>, entries: map<string, seq<Entry>>, path: string, d: nat)
    requires dirs.Keys == entries.Keys && path !in dirs
    requires HasSlash(path) && ParentPath(path) in dirs
    ensures var entries' := WithDirEntries(entries, path, d, dirs[ParentPath(path)]);
      path in entries' && DirShape(dirs[path := d], entries', path)
  {
    hide ParentPath, BaseName, HasSlash, LastSlash, WithDirEntries;
    NewDirEntries(entries, path, d, dirs[ParentPath(path)]);
  }

  lemma ShapeNewDir(dirs: map<string, nat>, entries: map<string, seq<Entry>>, path: string, d: nat)
    requires ShapeOk(dirs, entries) && path !in dirs
    requires HasSlash(path) && ParentPath(path) in dirs
    ensures ShapeOk(dirs[path := d], WithDirEntries(entries, path, d, dirs[ParentPath(path)]))
  {
    hide ParentPath, BaseName, HasSlash, LastSlash, WithDirEntries, DirShape, Grew;
    var dirs', entries' := dirs[path := d], WithDirEntries(entries, path, d, dirs[ParentPath(path)]);
    NewDirEntries(entries, path, d, dirs[ParentPath(path)]);
    NewDirShape(dirs, entries, path, d);
    forall q | q in dirs'
      ensures DirShape(dirs', entries', q)
    {
      if q != path {
        DirShapeGrew(dirs, entries, dirs', entries', q);
      }
    }
  }

  lemma ModesNewDir(dirs: map<string, nat>, a: map<nat, Inode>, b: map<nat, Inode>, path: string, d: nat)
    requires ModesOk(dirs, a) && path !in dirs
    requires forall n :: n in b ==> n == d || (n in a && b[n].mode == a[n].mode)
    ensures ModesOk(dirs[path := d], b)
  {
    hide IsDir;
    forall n | n in b && IsDir(b[n].mode)
      ensures IsDirNum(dirs[path := d], n)
    {
      if n == d {
        assert dirs[path := d][path] == n;
      } else {
        assert IsDirNum(dirs, n);
        var p :| p in dirs && dirs[p] == n;
        assert dirs[path := d][p] == n;
      }
    }
  }

  lemma DirsEmptyNewDir(dirs: map<string, nat>, s: State, s': State, path: string, d: nat)
    requires DirsEmpty(dirs, s) && s'.stored == s.stored && d in s'.inodes && s'.inodes[d].addr == NoAddrs()
    requires !IsStored(s, d)
    requires forall n :: n in s.inodes ==> n in s'.inodes && s'.inodes[n].addr == s.inodes[n].addr
    requires d !in s.inodes && Extends(s.inodes, s'.inodes)
    ensures DirsEmpty(dirs[path := d], s')
  {
    SameLog(s, s');
    hide IsStored;
  }

  lemma NewDirOk(t: Tree, path: string)
    requires TreeOk(t) && HasSlash(path) && path !in t.dirs && ParentPath(path) in t.dirs
    requires NewDir(t, path).Success?
    ensures TreeOk(NewDir(t, path).value)
  {
    hide LinksOk, ShapeOk, NumsOk, ModesOk, DirsEmpty, IsStored, AllocOk, NewDir, WithDir, IsDirNum, LinkCount,
      ParentPath, BaseName, HasSlash, LastSlash;
    NewDirParts(t, path);
    var t', d, parent := NewDir(t, path).value, t.fs.nextIno, t.dirs[ParentPath(path)];
    FreshIsNoDir(t);
    ParentExists(t, ParentPath(path));
    WithDirOk(t.fs, parent);
    KeysNewDir(t, t', path, d);
    NumsNewDir(t, path, d, parent, t'.fs.inodes);
    LinksNewDir(t, t', path, ParentPath(path), BaseName(path), d, parent);
    ShapeNewDir(t.dirs, t.entries, path, d);
    ModesNewDir(t.dirs, t.fs.inodes, t'.fs.inodes, path, d);
    DirsEmptyNewDir(t.dirs, t.fs, t'.fs, path, d);
  }

  lemma NewDirParts(t: Tree, path: string)
    requires Keyed(t) && HasSlash(path) && path !in t.dirs && ParentPath(path) in t.dirs
    requires NewDir(t, path).Success?
    ensures var t', d, parent := NewDir(t, path).value, t.fs.nextIno, t.dirs[ParentPath(path)];
      && WithDir(t.fs, parent) == Success(t'.fs)
      && t' == Tree(t'.fs, t.dirs[path := d], t.order + [path], WithDirEntries(t.entries, path, d, parent))
      && t'.entries.Keys == t.entries.Keys + {path}
  {
  }

  lemma ParentExists(t: Tree, path: string)
    requires TreeOk(t) && path in t.dirs
    ensures t.dirs[path] in t.fs.inodes
  {
    hide LinksOk, ShapeOk, ModesOk, DirsEmpty, IsStored, AllocOk;
  }

  lemma {:induction false} GetDirOk(t: Tree, path: string)
    requires TreeOk(t) && GetDir(t, path).Success?
    ensures TreeOk(GetDir(t, path).value)
    decreases |path|
  {
    hide LinksOk, ShapeOk, NumsOk, ModesOk, DirsEmpty, AllocOk, NewDir, LastSlash, HasSlash, ParentPath;
    if path !in t.dirs {
      ParentShorter(path);
      GetDirOk(t, ParentPath(path));
      NewDirOk(GetDir(t, ParentPath(path)).value, path);
    }
  }
}
