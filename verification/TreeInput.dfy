/** The tree against its input, line by line and in total: what `dir` and `link` lines do, and that nothing is in the
    tree that the input did not ask for. */
module TreeInput {
  import opened Bytes
  import opened FileStore
  import opened FsModel
  import opened S5Reader
  import opened TreeModel
  import opened AllocInvariant
  import opened Links
  import opened TreeInvariant
  import opened TreeSteps
  import opened TreeRuns

  // --- counting entries -----------------------------------------------------------------

  /** All entries of the directories of `order`. */
  function EntryTotal(order: seq<string>, entries: map<string, seq<Entry>>): nat {
    if order == [] then 0 else
      var p := order[|order| - 1];
      EntryTotal(order[..|order| - 1], entries) + (if p in entries then |entries[p]| else 0)
  }

  lemma {:induction false} TotalFrame(order: seq<string>, a: map<string, seq<Entry>>, b: map<string, seq<Entry>>)
    requires forall p :: p in order ==> p in a && p in b && a[p] == b[p]
    ensures EntryTotal(order, a) == EntryTotal(order, b)
  {
    if order != [] {
      TotalFrame(order[..|order| - 1], a, b);
    }
  }

  lemma {:induction false} TotalAppend(order: seq<string>, entries: map<string, seq<Entry>>, p: string, e: Entry)
    requires Distinct(order) && p in order && forall q :: q in order ==> q in entries
    ensures EntryTotal(order, Append(entries, p, e)) == EntryTotal(order, entries) + 1
  {
    var init, last := order[..|order| - 1], order[|order| - 1];
    if p == last {
      TotalFrame(init, entries, Append(entries, p, e));
    } else {
      assert p in init;
      TotalAppend(init, entries, p, e);
    }
  }

  lemma TotalNewDir(order: seq<string>, entries: map<string, seq<Entry>>, path: string, d: nat, parent: nat)
    requires Distinct(order) && forall q :: q in order ==> q in entries
    requires path !in order && HasSlash(path) && ParentPath(path) in order
    ensures EntryTotal(order + [path], WithDirEntries(entries, path, d, parent)) == EntryTotal(order, entries) + 3
  {
    hide HasSlash, ParentPath, BaseName;
    var mid := entries[path := [Entry(d, "."), Entry(parent, "..")]];
    assert (order + [path])[..|order|] == order;
    TotalFrame(order, entries, mid);
    TotalAppend(order + [path], mid, ParentPath(path), Entry(d, BaseName(path)));
  }

  /** `entries` more entries and `inodes` more inodes than new directories account for: three entries and one inode
      each. */
  ghost predicate Counted(t: Tree, t': Tree, entries: int, inodes: int) {
    && EntryTotal(t'.order, t'.entries) - 3 * |t'.order| == EntryTotal(t.order, t.entries) - 3 * |t.order| + entries
    && t'.fs.nextIno - |t'.order| == t.fs.nextIno - |t.order| + inodes
  }

  // --- modes of directories ---------------------------------------------------------------

  const DIR_MODE: nat := S_IFDIR + 493

  function ModeOf(t: Tree, p: string): nat {
    if p in t.dirs && t.dirs[p] in t.fs.inodes then t.fs.inodes[t.dirs[p]].mode else DIR_MODE
  }

  /** Directories stay and keep their mode; new ones have the default. */
  ghost predicate ModesGrew(t: Tree, t': Tree) {
    DirsKeep(t, t') && forall p :: ModeOf(t', p) == ModeOf(t, p)
  }

  /** The mode the spec gives to directory `p`: that of its last `dir` line. */
  function SpecMode(spec: seq<SpecLine>, p: string): nat {
    if spec == [] then DIR_MODE else
      var last := spec[|spec| - 1];
      if last.DirLine? && last.path == p then BitOr(S_IFDIR, last.mode) else SpecMode(spec[..|spec| - 1], p)
  }

  lemma ModesGrewTrans(a: Tree, b: Tree, c: Tree)
    requires ModesGrew(a, b) && ModesGrew(b, c)
    ensures ModesGrew(a, c)
  {
    hide ModeOf;
  }

  /** A step that adds entries and inodes, and touches no directory that exists. */
  ghost predicate Added(t: Tree, t': Tree, entries: int, inodes: int) {
    Counted(t, t', entries, inodes) && ModesGrew(t, t')
  }

  lemma AddedTrans(a: Tree, b: Tree, c: Tree, e1: int, i1: int, e2: int, i2: int)
    requires Added(a, b, e1, i1) && Added(b, c, e2, i2)
    ensures Added(a, c, e1 + e2, i1 + i2)
  {
    hide ModesGrew, EntryTotal;
    ModesGrewTrans(a, b, c);
  }

  lemma AddedNothing(t: Tree)
    ensures Added(t, t, 0, 0)
  {
    hide EntryTotal, ModeOf;
  }

  // --- which directories ------------------------------------------------------------------

  /** `q` is `p` or a directory above it. */
  predicate OnWay(q: string, p: string)
    decreases |p|
  {
    q == p || (p != "/" && HasSlash(p) && (ParentShorter(p); OnWay(q, ParentPath(p))))
  }

  /** What `getdir` adds: the path it is asked for and every directory above it. */
  ghost predicate DirsMade(t: Tree, t': Tree, path: string) {
    forall q :: q in t'.dirs <==> q in t.dirs || OnWay(q, path)
  }

  lemma ParentIn(t: Tree, p: string)
    requires TreeOk(t) && p in t.dirs
    ensures HasSlash(p) && ParentPath(p) in t.dirs
  {
    hide AllocOk, NumsOk, LinksOk, ModesOk, DirsEmpty, Distinct, HasSlash, ParentPath, BaseName;
    assert DirShape(t.dirs, t.entries, p);
  }

  lemma {:induction false} WayIn(t: Tree, p: string, q: string)
    requires TreeOk(t) && p in t.dirs && OnWay(q, p)
    ensures q in t.dirs
    decreases |p|
  {
    hide TreeOk, HasSlash, ParentPath;
    if q != p {
      ParentIn(t, p);
      ParentShorter(p);
      WayIn(t, ParentPath(p), q);
    }
  }

  lemma OneDirMade(t: Tree, t1: Tree, t': Tree, path: string)
    requires path != "/" && HasSlash(path) && DirsMade(t, t1, ParentPath(path))
    requires t'.dirs.Keys == t1.dirs.Keys + {path}
    ensures DirsMade(t, t', path)
  {
    hide HasSlash, ParentPath;
    forall q
      ensures q in t'.dirs <==> q in t.dirs || OnWay(q, path)
    {
      assert q in t'.dirs <==> q in t'.dirs.Keys;
      assert q in t1.dirs <==> q in t1.dirs.Keys;
    }
  }

  lemma {:induction false} GetDirDirs(t: Tree, path: string)
    requires Keyed(t) && GetDir(t, path).Success?
    requires TreeOk(t)
    ensures DirsMade(t, GetDir(t, path).value, path)
    decreases |path|
  {
    hide TreeOk, NewDir, LastSlash, HasSlash, ParentPath, DirsMade, OnWay;
    if path in t.dirs {
      KnownDirs(t, path);
    } else {
      ParentShorter(path);
      var t1 := GetDir(t, ParentPath(path)).value;
      GetDirDirs(t, ParentPath(path));
      NewDirParts(t1, path);
      OneDirMade(t, t1, GetDir(t, path).value, path);
    }
  }

  lemma KnownDirs(t: Tree, path: string)
    requires TreeOk(t) && path in t.dirs
    ensures DirsMade(t, t, path)
  {
    hide TreeOk, OnWay;
    forall q | OnWay(q, path)
      ensures q in t.dirs
    {
      WayIn(t, path, q);
    }
  }

  /** Visiting `host` calls for directory `q`. */
  ghost predicate VisitsAsk(host: seq<Visit>, q: string) {
    exists i :: 0 <= i < |host| && OnWay(q, host[i].here)
  }

  ghost predicate LinesAsk(spec: seq<SpecLine>, q: string) {
    exists i :: 0 <= i < |spec| && OnWay(q, LineDir(spec[i]))
  }

  /** The root, every visited directory, that of every `dir` line and the one every other line adds to, and all the
      directories above them. */
  ghost predicate Asked(host: seq<Visit>, spec: seq<SpecLine>, q: string) {
    q == "/" || VisitsAsk(host, q) || LinesAsk(spec, q)
  }

  lemma VisitsAskSnoc(host: seq<Visit>, q: string)
    requires host != []
    ensures VisitsAsk(host, q) <==> VisitsAsk(host[..|host| - 1], q) || OnWay(q, host[|host| - 1].here)
  {
    hide OnWay;
    var init := host[..|host| - 1];
    assert forall i :: 0 <= i < |init| ==> init[i] == host[i];
  }

  lemma LinesAskSnoc(spec: seq<SpecLine>, q: string)
    requires spec != []
    ensures LinesAsk(spec, q) <==> LinesAsk(spec[..|spec| - 1], q) || OnWay(q, LineDir(spec[|spec| - 1]))
  {
    hide OnWay, LineDir;
    var init := spec[..|spec| - 1];
    assert forall i :: 0 <= i < |init| ==> init[i] == spec[i];
  }

  // --- steps ------------------------------------------------------------------------------

  lemma KeysParts(t: Tree)
    requires TreeOk(t)
    ensures Distinct(t.order) && (forall p :: p in t.order <==> p in t.dirs) && t.dirs.Keys == t.entries.Keys
    ensures forall p :: p in t.dirs ==> t.dirs[p] in t.fs.inodes
  {
    hide AllocOk, LinksOk, ShapeOk, ModesOk, DirsEmpty, Distinct;
  }

  lemma NewDirAdded(t: Tree, path: string)
    requires Keyed(t) && HasSlash(path) && path !in t.dirs && ParentPath(path) in t.dirs
    requires NewDir(t, path).Success?
    requires TreeOk(t)
    ensures Added(t, NewDir(t, path).value, 0, 0)
  {
    hide TreeOk, NewDir, WithDir, DirInodeAdded, WithDirEntries, ModesGrew, Distinct, HasSlash, ParentPath, BaseName,
      LastSlash, EntryTotal;
    NewDirParts(t, path);
    KeysParts(t);
    FreshIsNoDir(t);
    TreeAlloc(t);
    var t', d, parent := NewDir(t, path).value, t.fs.nextIno, t.dirs[ParentPath(path)];
    WithDirOk(t.fs, parent);
    TotalNewDir(t.order, t.entries, path, d, parent);
    NewDirModes(t, t', path, parent);
  }

  lemma NewDirModes(t: Tree, t': Tree, path: string, parent: nat)
    requires DirInodeAdded(t.fs.inodes, t'.fs.inodes, t.fs.nextIno, parent)
    requires path !in t.dirs && t'.dirs == t.dirs[path := t.fs.nextIno]
    requires forall p :: p in t.dirs ==> t.dirs[p] in t.fs.inodes
    ensures ModesGrew(t, t')
  {
    hide LinkCount, NoAddrs;
    forall p
      ensures ModeOf(t', p) == ModeOf(t, p)
    {
    }
  }

  lemma {:induction false} GetDirAdded(t: Tree, path: string)
    requires Keyed(t) && GetDir(t, path).Success?
    requires TreeOk(t)
    ensures Added(t, GetDir(t, path).value, 0, 0) && DirsMade(t, GetDir(t, path).value, path)
    decreases |path|
  {
    hide TreeOk, NewDir, Added, LastSlash, HasSlash, ParentPath, DirsMade;
    GetDirDirs(t, path);
    if path in t.dirs {
      AddedNothing(t);
    } else {
      ParentShorter(path);
      var t1 := GetDir(t, ParentPath(path)).value;
      GetDirOk(t, ParentPath(path));
      GetDirAdded(t, ParentPath(path));
      NewDirAdded(t1, path);
      AddedTrans(t, t1, GetDir(t, path).value, 0, 0, 0, 0);
    }
  }

  lemma ModesUntouched(t: Tree, t': Tree)
    requires t'.dirs == t.dirs && forall p :: p in t.dirs ==> t.dirs[p] in t.fs.inodes
    requires forall n :: n in t.fs.inodes ==> n in t'.fs.inodes && t'.fs.inodes[n].mode == t.fs.inodes[n].mode
    ensures ModesGrew(t, t')
  {
  }

  lemma OneMoreEntry(t: Tree, t': Tree, p: string, e: Entry, inodes: int)
    requires Distinct(t.order) && (forall q :: q in t.order ==> q in t.entries) && p in t.order && p in t.entries
    requires t'.order == t.order && t'.entries == Append(t.entries, p, e) && t'.fs.nextIno == t.fs.nextIno + inodes
    ensures Counted(t, t', 1, inodes)
  {
    hide Distinct, Append, EntryTotal;
    TotalAppend(t.order, t.entries, p, e);
  }

  /** One entry more, directories left alone. */
  lemma EntryAdded(t: Tree, t': Tree, p: string, e: Entry, inodes: int)
    requires p in t.entries && t'.dirs == t.dirs && t'.order == t.order
    requires t'.entries == Append(t.entries, p, e) && t'.fs.nextIno == t.fs.nextIno + inodes
    requires forall n :: n in t.fs.inodes ==> n in t'.fs.inodes && t'.fs.inodes[n].mode == t.fs.inodes[n].mode
    requires TreeOk(t)
    ensures Added(t, t', 1, inodes)
  {
    hide TreeOk, Distinct, Append, ModesGrew, Counted;
    KeysParts(t);
    ModesUntouched(t, t');
    OneMoreEntry(t, t', p, e, inodes);
  }

  lemma AddFileAdded(t: Tree, here: string, f: HostFile)
    requires Keyed(t) && here in t.entries && AddFile(t, here, f).Success?
    requires TreeOk(t)
    ensures Added(t, AddFile(t, here, f).value, 1, 1)
  {
    hide TreeOk, AddFile, WithFile, Append, FileMode, Added, AllocOk, Addrs, NBlocks, IsDir;
    TreeAlloc(t);
    AddFileEffect(t, here, f);
    WithFileEffect(t.fs, FileMode(f), f.content);
    FreshIsNoDir(t);
    EntryAdded(t, AddFile(t, here, f).value, here, Entry(t.fs.nextIno, f.name), 1);
  }

  lemma AddDeviceAdded(t: Tree, parentPath: string, name: string, mode: nat, dev: nat)
    requires Keyed(t) && parentPath in t.entries && AddDevice(t, parentPath, name, mode, dev).Success?
    requires TreeOk(t)
    ensures Added(t, AddDevice(t, parentPath, name, mode, dev).value, 1, 1)
  {
    hide TreeOk, AddDevice, Append, Added, AllocOk, NoAddrs;
    TreeAlloc(t);
    AddDeviceEffect(t, parentPath, name, mode, dev);
    FreshIsNoDir(t);
    EntryAdded(t, AddDevice(t, parentPath, name, mode, dev).value, parentPath, Entry(t.fs.nextIno, name), 1);
  }

  /** Some entry is called `name`, and the last of them names inode `n`. */
  ghost predicate IsLast(ents: seq<Entry>, name: string, n: nat) {
    exists i :: 0 <= i < |ents| && ents[i] == Entry(n, name) && forall j :: i < j < |ents| ==> ents[j].name != name
  }

  /** The loop over the entries takes the last of that name, and nothing when there is none. */
  lemma {:induction false} LastMatchIs(ents: seq<Entry>, name: string)
    ensures forall n: nat :: LastMatch(ents, name) == Some(n) <==> IsLast(ents, name, n)
    ensures LastMatch(ents, name) == None <==> forall i :: 0 <= i < |ents| ==> ents[i].name != name
  {
    if ents != [] {
      var init, last := ents[..|ents| - 1], ents[|ents| - 1];
      LastMatchIs(init, name);
      assert forall i :: 0 <= i < |init| ==> init[i] == ents[i];
      forall n: nat
        ensures LastMatch(ents, name) == Some(n) <==> IsLast(ents, name, n)
      {
        if last.name == name {
          assert last == Entry(last.num, name) && ents[|ents| - 1] == last;
        } else {
          LastOfInit(ents, name, n);
        }
      }
    }
  }

  lemma LastOfInit(ents: seq<Entry>, name: string, n: nat)
    requires ents != [] && ents[|ents| - 1].name != name
    ensures IsLast(ents, name, n) <==> IsLast(ents[..|ents| - 1], name, n)
  {
    var init := ents[..|ents| - 1];
    if IsLast(ents, name, n) {
      var i :| 0 <= i < |ents| && ents[i] == Entry(n, name) && forall j :: i < j < |ents| ==> ents[j].name != name;
      assert init[i] == Entry(n, name) && forall j :: i < j < |init| ==> init[j] == ents[j];
    }
    if IsLast(init, name, n) {
      var i :| 0 <= i < |init| && init[i] == Entry(n, name) && forall j :: i < j < |init| ==> init[j].name != name;
      assert ents[i] == Entry(n, name);
      forall j | i < j < |ents|
        ensures ents[j].name != name
      {
        assert j < |init| ==> ents[j] == init[j];
      }
    }
  }

  /** Two names for one inode. */
  ghost predicate SameInode(entries: map<string, seq<Entry>>, p: string, name: string, q: string, target: string) {
    p in entries && q in entries && exists n :: Entry(n, name) in entries[p] && Entry(n, target) in entries[q]
  }

  lemma SameInodeGrew(a: map<string, seq<Entry>>, b: map<string, seq<Entry>>, p: string, name: string, q: string,
                      target: string)
    requires SameInode(a, p, name, q, target) && Grew(a, b)
    ensures SameInode(b, p, name, q, target)
  {
    var n :| Entry(n, name) in a[p] && Entry(n, target) in a[q];
    assert a[p] <= b[p] && a[q] <= b[q];
    assert Entry(n, name) in b[p] && Entry(n, target) in b[q];
  }

  lemma LastIsThere(ents: seq<Entry>, name: string, n: nat)
    requires IsLast(ents, name, n)
    ensures Entry(n, name) in ents
  {
  }

  lemma LinkEntryAdded(t: Tree, parentPath: string, name: string, target: string)
    requires Keyed(t) && parentPath in t.entries && LinkEntry(t, parentPath, name, target).Success?
    requires TreeOk(t)
    ensures Added(t, LinkEntry(t, parentPath, name, target).value, 1, 0)
    ensures HasSlash(target)
    ensures SameInode(LinkEntry(t, parentPath, name, target).value.entries, parentPath, name, ParentPath(target),
                      BaseName(target))
  {
    hide TreeOk, Append, AddLink, LastMatch, IsLast, ParentPath, BaseName, HasSlash, Added, SameFiles, LinkCount;
    var q := ParentPath(target);
    var n := LastMatch(t.entries[q], BaseName(target)).value;
    LastMatchIs(t.entries[q], BaseName(target));
    LastIsThere(t.entries[q], BaseName(target), n);
    AddLinkEffect(t.fs.inodes, n);
    TreeAlloc(t);
    var t' := LinkEntry(t, parentPath, name, target).value;
    EntryAdded(t, t', parentPath, Entry(n, name), 0);
    Linked(t.entries, parentPath, n, name, q, BaseName(target));
  }

  lemma Linked(entries: map<string, seq<Entry>>, p: string, n: nat, name: string, q: string, target: string)
    requires p in entries && q in entries && Entry(n, target) in entries[q]
    ensures SameInode(Append(entries, p, Entry(n, name)), p, name, q, target)
  {
    var b: map<string, seq<Entry>> := Append(entries, p, Entry(n, name));
    assert b[p][|entries[p]|] == Entry(n, name);
    var i :| 0 <= i < |entries[q]| && entries[q][i] == Entry(n, target);
    assert b[q][i] == Entry(n, target);
  }

  // --- host files ---------------------------------------------------------------------------

  lemma {:induction false} AddFilesAdded(t: Tree, here: string, files: seq<HostFile>)
    requires Keyed(t) && here in t.entries && AddFiles(t, here, files).Success?
    requires TreeOk(t)
    ensures Added(t, AddFiles(t, here, files).value, |files|, |files|)
  {
    hide TreeOk, AddFile, Added, TreeGrew, HasFiles;
    if files == [] {
      AddedNothing(t);
    } else {
      var init, f := files[..|files| - 1], files[|files| - 1];
      AddFilesAdded(t, here, init);
      AddFilesOk(t, here, init);
      var t1 := AddFiles(t, here, init).value;
      AddFileAdded(t1, here, f);
      AddedTrans(t, t1, AddFiles(t, here, files).value, |init|, |init|, 1, 1);
    }
  }

  lemma NoneAsked()
    ensures forall q :: !VisitsAsk([], q) && !LinesAsk([], q)
  {
  }

  function FileCount(host: seq<Visit>): nat {
    if host == [] then 0 else FileCount(host[..|host| - 1]) + |host[|host| - 1].files|
  }

  lemma {:induction false} AddVisitsAdded(t: Tree, host: seq<Visit>)
    requires Keyed(t) && AddVisits(t, host).Success?
    requires TreeOk(t)
    ensures Added(t, AddVisits(t, host).value, FileCount(host), FileCount(host))
    ensures forall q :: q in AddVisits(t, host).value.dirs <==> q in t.dirs || VisitsAsk(host, q)
  {
    hide TreeOk, GetDir, AddFiles, Added, TreeGrew, HasVisits, VisitsAsk, OnWay;
    if host == [] {
      AddedNothing(t);
      assert forall q :: !VisitsAsk(host, q) by {
        NoneAsked();
      }
    } else {
      var init, v := host[..|host| - 1], host[|host| - 1];
      AddVisitsAdded(t, init);
      AddVisitsOk(t, init);
      var t1 := AddVisits(t, init).value;
      var t2 := GetDir(t1, v.here).value;
      GetDirAdded(t1, v.here);
      GetDirOk(t1, v.here);
      AddFilesAdded(t2, v.here, v.files);
      AddedTrans(t1, t2, AddVisits(t, host).value, 0, 0, |v.files|, |v.files|);
      AddedTrans(t, t1, AddVisits(t, host).value, FileCount(init), FileCount(init), |v.files|, |v.files|);
      forall q
        ensures q in AddVisits(t, host).value.dirs <==> q in t.dirs || VisitsAsk(host, q)
      {
        VisitsAskSnoc(host, q);
      }
    }
  }

  // --- spec lines -----------------------------------------------------------------------------

  function DeviceLines(spec: seq<SpecLine>): nat {
    if spec == [] then 0 else DeviceLines(spec[..|spec| - 1]) + One(spec[|spec| - 1].DevLine?)
  }

  function LinkLines(spec: seq<SpecLine>): nat {
    if spec == [] then 0 else LinkLines(spec[..|spec| - 1]) + One(spec[|spec| - 1].LinkLine?)
  }

  /** What a line does to the modes of directories. */
  ghost predicate LineModes(t: Tree, t': Tree, line: SpecLine) {
    && DirsKeep(t, t')
    && (line.DirLine? ==> line.path in t'.dirs)
    && forall p :: ModeOf(t', p) ==
         if line.DirLine? && line.path == p then BitOr(S_IFDIR, line.mode) else ModeOf(t, p)
  }

  ghost predicate LinkMade(t: Tree, line: SpecLine) {
    line.LinkLine? ==>
      && HasSlash(line.path) && HasSlash(line.target)
      && SameInode(t.entries, ParentPath(line.path), BaseName(line.path),
                   ParentPath(line.target), BaseName(line.target))
  }

  ghost predicate LineAdded(t: Tree, t': Tree, line: SpecLine) {
    && DirsMade(t, t', LineDir(line))
    && Counted(t, t', One(!line.DirLine?), One(line.DevLine?))
    && LineModes(t, t', line)
    && LinkMade(t', line)
  }

  ghost predicate DirsNumbered(t: Tree) {
    && (forall p :: p in t.dirs ==> t.dirs[p] in t.fs.inodes)
    && (forall p, q :: p in t.dirs && q in t.dirs && p != q ==> t.dirs[p] != t.dirs[q])
  }

  lemma ModesSet(t: Tree, t': Tree, path: string, mode: nat)
    requires path in t.dirs && SetMode(t, t.dirs[path], mode) == Success(t') && DirsNumbered(t)
    ensures forall p :: ModeOf(t', p) == if path == p then mode else ModeOf(t, p)
  {
  }

  lemma SameCounts(t: Tree, t1: Tree, t': Tree)
    requires Counted(t, t1, 0, 0) && t'.order == t1.order && t'.entries == t1.entries && t'.fs.nextIno == t1.fs.nextIno
    ensures Counted(t, t', 0, 0)
  {
  }

  lemma SetModeModes(t: Tree, t1: Tree, path: string, mode: nat)
    requires path in t1.dirs && SetMode(t1, t1.dirs[path], BitOr(S_IFDIR, mode)).Success?
    requires Added(t, t1, 0, 0) && DirsMade(t, t1, path) && TreeOk(t1)
    ensures LineAdded(t, SetMode(t1, t1.dirs[path], BitOr(S_IFDIR, mode)).value, DirLine(path, mode))
  {
    hide TreeOk, ModeOf, DirsNumbered, Counted, BitOr, OnWay;
    NumbersDiffer(t1);
    var t' := SetMode(t1, t1.dirs[path], BitOr(S_IFDIR, mode)).value;
    ModesSet(t1, t', path, BitOr(S_IFDIR, mode));
    SameCounts(t, t1, t');
  }

  lemma NumbersDiffer(t: Tree)
    requires TreeOk(t)
    ensures DirsNumbered(t)
  {
    hide AllocOk, LinksOk, ShapeOk, ModesOk, DirsEmpty, Distinct;
  }

  lemma AddedLine(t: Tree, t': Tree, line: SpecLine)
    requires !line.DirLine? && Added(t, t', 1, One(line.DevLine?)) && LinkMade(t', line)
    requires DirsMade(t, t', LineDir(line))
    ensures LineAdded(t, t', line)
  {
    hide EntryTotal, ModeOf, LinkMade, DirsMade, LineDir;
  }

  lemma AddLineAdded(t: Tree, line: SpecLine)
    requires Keyed(t) && AddLine(t, line).Success?
    requires TreeOk(t)
    ensures LineAdded(t, AddLine(t, line).value, line)
  {
    hide TreeOk, GetDir, SetMode, LinkEntry, AddDevice, HasSlash, LastSlash, ParentPath, BaseName, BitOr, DeviceMode,
      DeviceNumber, Added, LineAdded, SameInode, DirsMade;
    var t' := AddLine(t, line).value;
    var dir := LineDir(line);
    var t1 := GetDir(t, dir).value;
    GetDirOk(t, dir);
    GetDirAdded(t, dir);
    match line
    case DirLine(path, mode) =>
      SetModeModes(t, t1, path, mode);
    case LinkLine(path, target) =>
      LinkEntryAdded(t1, dir, BaseName(path), target);
      AddedTrans(t, t1, t', 0, 0, 1, 0);
      SameDirsMade(t, t1, t', dir);
      AddedLine(t, t', line);
    case DevLine(path, mode, block, major, minor) =>
      AddDeviceAdded(t1, dir, BaseName(path), DeviceMode(mode, block), DeviceNumber(major, minor));
      AddedTrans(t, t1, t', 0, 0, 1, 1);
      SameDirsMade(t, t1, t', dir);
      AddedLine(t, t', line);
  }

  lemma SameDirsMade(t: Tree, t1: Tree, t': Tree, path: string)
    requires DirsMade(t, t1, path) && t'.dirs == t1.dirs
    ensures DirsMade(t, t', path)
  {
    hide OnWay;
  }

  ghost predicate LinksMade(t: Tree, spec: seq<SpecLine>) {
    forall i :: 0 <= i < |spec| ==> LinkMade(t, spec[i])
  }

  /** Since before the first line. */
  ghost predicate SpecAdded(t: Tree, t': Tree, spec: seq<SpecLine>) {
    && Counted(t, t', DeviceLines(spec) + LinkLines(spec), DeviceLines(spec))
    && (forall q :: q in t'.dirs <==> q in t.dirs || LinesAsk(spec, q))
    && (forall p :: ModeOf(t, p) == DIR_MODE ==> ModeOf(t', p) == SpecMode(spec, p))
    && LinksMade(t', spec)
  }

  lemma LinkMadeKept(t: Tree, t': Tree, line: SpecLine)
    requires LinkMade(t, line) && TreeGrew(t, t')
    ensures LinkMade(t', line)
  {
    hide HasSlash, ParentPath, BaseName, SameInode, Grew, InodesKept;
    if line.LinkLine? {
      SameInodeGrew(t.entries, t'.entries, ParentPath(line.path), BaseName(line.path), ParentPath(line.target),
                    BaseName(line.target));
    }
  }

  lemma LinksMadeKept(t: Tree, t': Tree, spec: seq<SpecLine>)
    requires LinksMade(t, spec) && TreeGrew(t, t')
    ensures LinksMade(t', spec)
  {
    hide LinkMade, TreeGrew;
    forall i | 0 <= i < |spec|
      ensures LinkMade(t', spec[i])
    {
      LinkMadeKept(t, t', spec[i]);
    }
  }

  lemma CountedTrans(a: Tree, b: Tree, c: Tree, e1: int, i1: int, e2: int, i2: int)
    requires Counted(a, b, e1, i1) && Counted(b, c, e2, i2)
    ensures Counted(a, c, e1 + e2, i1 + i2)
  {
    hide EntryTotal;
  }

  lemma {:induction false} AddLinesAdded(t: Tree, spec: seq<SpecLine>)
    requires Keyed(t) && AddLines(t, spec).Success?
    requires TreeOk(t)
    ensures SpecAdded(t, AddLines(t, spec).value, spec)
  {
    hide TreeOk, AddLine, Counted, ModeOf, LinkMade, TreeGrew, LinesDone, LineDone, DirsKeep, BitOr, OnWay, LinesAsk,
      LineDir;
    if spec == [] {
      CountedNothing(t);
      NoneAsked();
    } else {
      var init, line := spec[..|spec| - 1], spec[|spec| - 1];
      AddLinesAdded(t, init);
      AddLinesOk(t, init);
      var t1, t' := AddLines(t, init).value, AddLines(t, spec).value;
      AddLineAdded(t1, line);
      AddLineOk(t1, line);
      CountedTrans(t, t1, t', DeviceLines(init) + LinkLines(init), DeviceLines(init), One(!line.DirLine?),
                   One(line.DevLine?));
      LinksMadeKept(t1, t', init);
      assert forall i :: 0 <= i < |init| ==> spec[i] == init[i];
      forall q
        ensures q in t'.dirs <==> q in t.dirs || LinesAsk(spec, q)
      {
        LinesAskSnoc(spec, q);
      }
    }
  }

  lemma CountedNothing(t: Tree)
    ensures Counted(t, t, 0, 0)
  {
  }

  // --- the inode a link takes -----------------------------------------------------------------

  /** The link of `line` in `t` is for the inode that the last entry of the target's name had in `t1`. */
  ghost predicate LinkTaken(t1: Tree, t: Tree, line: SpecLine) {
    && HasSlash(line.path) && line.LinkLine? && HasSlash(line.target)
    && ParentPath(line.target) in t1.entries
    && exists n: nat ::
         && IsLast(t1.entries[ParentPath(line.target)], BaseName(line.target), n)
         && Named(t.entries, ParentPath(line.path), n, BaseName(line.path))
         && Named(t.entries, ParentPath(line.target), n, BaseName(line.target))
  }

  ghost predicate Named(entries: map<string, seq<Entry>>, p: string, n: nat, name: string) {
    p in entries && Entry(n, name) in entries[p]
  }

  lemma NamedGrew(a: map<string, seq<Entry>>, b: map<string, seq<Entry>>, p: string, n: nat, name: string)
    requires Named(a, p, n, name) && Grew(a, b)
    ensures Named(b, p, n, name)
  {
    assert a[p] <= b[p];
    assert Entry(n, name) in b[p];
  }

  lemma LinkTakenGrew(t1: Tree, t: Tree, t': Tree, line: SpecLine)
    requires LinkTaken(t1, t, line) && Grew(t.entries, t'.entries)
    ensures LinkTaken(t1, t', line)
  {
    hide IsLast, HasSlash, ParentPath, BaseName, Named, Grew;
    var n: nat :|
      && IsLast(t1.entries[ParentPath(line.target)], BaseName(line.target), n)
      && Named(t.entries, ParentPath(line.path), n, BaseName(line.path))
      && Named(t.entries, ParentPath(line.target), n, BaseName(line.target));
    NamedGrew(t.entries, t'.entries, ParentPath(line.path), n, BaseName(line.path));
    NamedGrew(t.entries, t'.entries, ParentPath(line.target), n, BaseName(line.target));
  }

  lemma LinkTakes(t1: Tree, line: SpecLine)
    requires Keyed(t1) && HasSlash(line.path) && line.LinkLine? && ParentPath(line.path) in t1.entries
    requires LinkEntry(t1, ParentPath(line.path), BaseName(line.path), line.target).Success?
    ensures LinkTaken(t1, LinkEntry(t1, ParentPath(line.path), BaseName(line.path), line.target).value, line)
  {
    hide IsLast, LastMatch, HasSlash, ParentPath, BaseName, Grew, AddLink, Append;
    var q := ParentPath(line.target);
    var n := LastMatch(t1.entries[q], BaseName(line.target)).value;
    LastMatchIs(t1.entries[q], BaseName(line.target));
    LastIsThere(t1.entries[q], BaseName(line.target), n);
    var e := Entry(n, BaseName(line.path));
    AppendGrew(t1.entries, ParentPath(line.path), e);
    NamedGrew(t1.entries, Append(t1.entries, ParentPath(line.path), e), q, n, BaseName(line.target));
    AppendNamed(t1.entries, ParentPath(line.path), e);
  }

  lemma AppendNamed(entries: map<string, seq<Entry>>, p: string, e: Entry)
    requires p in entries
    ensures Named(Append(entries, p, e), p, e.num, e.name)
  {
    assert (entries[p] + [e])[|entries[p]|] == e;
  }

  /** The tree as link line `i` finds it, once the directory of its path is there. */
  function BeforeLink(t: Tree, spec: seq<SpecLine>, i: nat): (r: Checked<Tree>)
    requires Keyed(t) && i < |spec| && HasSlash(spec[i].path)
    ensures r.Success? ==> Keyed(r.value)
  {
    var t1 :- AddLines(t, spec[..i]);
    GetDir(t1, ParentPath(spec[i].path))
  }

  lemma {:induction false} LinkLineTakes(t: Tree, spec: seq<SpecLine>, i: nat)
    requires Keyed(t) && AddLines(t, spec).Success? && i < |spec| && spec[i].LinkLine?
    requires TreeOk(t)
    ensures HasSlash(spec[i].path) && BeforeLink(t, spec, i).Success?
    ensures LinkTaken(BeforeLink(t, spec, i).value, AddLines(t, spec).value, spec[i])
    decreases |spec|
  {
    hide TreeOk, GetDir, LinkEntry, TreeGrew, LinesDone, LineDone, LinkTaken, HasSlash, ParentPath, BaseName, SetMode,
      AddDevice;
    var init, line := spec[..|spec| - 1], spec[|spec| - 1];
    AddLinesOk(t, init);
    var t1, t' := AddLines(t, init).value, AddLines(t, spec).value;
    if i == |spec| - 1 {
      LinkTakes(GetDir(t1, ParentPath(line.path)).value, line);
    } else {
      assert init[..i] == spec[..i] && init[i] == spec[i];
      LinkLineTakes(t, init, i);
      AddLineOk(t1, line);
      GrewEntries(t1, t');
      LinkTakenGrew(BeforeLink(t, spec, i).value, t1, t', spec[i]);
    }
  }

  lemma GrewEntries(t: Tree, t': Tree)
    requires TreeGrew(t, t')
    ensures Grew(t.entries, t'.entries)
  {
    hide Grew, InodesKept;
  }

  // --- the whole input ------------------------------------------------------------------------

  /** The finished tree accounts for its input: its directories are those asked for; there is an inode for each
      directory, file and device, three entries for each directory but two for the root, and one for each file, device
      and link; every directory has the mode of its last `dir` line, or 0755; every link names the inode its target
      names. */
  ghost predicate Accounts(t: Tree, host: seq<Visit>, spec: seq<SpecLine>) {
    && (forall q :: q in t.dirs <==> Asked(host, spec, q))
    && |t.order| == |t.dirs|
    && t.fs.nextIno == 2 + |t.order| + FileCount(host) + DeviceLines(spec)
    && EntryTotal(t.order, t.entries) + 1 == 3 * |t.order| + FileCount(host) + DeviceLines(spec) + LinkLines(spec)
    && (forall p :: ModeOf(t, p) == SpecMode(spec, p))
    && LinksMade(t, spec)
  }

  lemma RootCounts(nblocks: nat, ninodes: nat)
    requires Root(Init(nblocks, ninodes)).Success?
    ensures var t := Root(Init(nblocks, ninodes)).value;
      && t.dirs == map["/" := 2]
      && EntryTotal(t.order, t.entries) == 2 && |t.order| == 1 && t.fs.nextIno == 3
      && forall p :: ModeOf(t, p) == DIR_MODE
  {
    RootValue(nblocks, ninodes);
    hide Root, Init, NoAddrs;
    var t := Root(Init(nblocks, ninodes)).value;
    assert t.order[..0] == [];
    assert EntryTotal([], t.entries) == 0;
  }

  lemma AccountsFrom(t0: Tree, t1: Tree, t: Tree, host: seq<Visit>, spec: seq<SpecLine>)
    requires EntryTotal(t0.order, t0.entries) == 2 && |t0.order| == 1 && t0.fs.nextIno == 3
    requires t0.dirs == map["/" := 2] && forall p :: ModeOf(t0, p) == DIR_MODE
    requires Added(t0, t1, FileCount(host), FileCount(host)) && SpecAdded(t1, t, spec)
    requires forall q :: q in t1.dirs <==> q in t0.dirs || VisitsAsk(host, q)
    requires |t.order| == |t.dirs|
    ensures Accounts(t, host, spec)
  {
    hide EntryTotal, ModeOf, FileCount, DeviceLines, LinkLines, SpecMode, LinksMade, VisitsAsk, LinesAsk;
  }

  lemma {:induction false} DistinctSize(order: seq<string>, keys: set<string>)
    requires Distinct(order) && forall p :: p in order <==> p in keys
    ensures |order| == |keys|
  {
    if order == [] {
      assert keys == {};
    } else {
      var init, last := order[..|order| - 1], order[|order| - 1];
      assert order[|order| - 1] in order;
      forall p
        ensures p in init <==> p in keys - {last}
      {
        if p in keys - {last} {
          assert p in order;
        }
        assert p in init ==> p in order;
      }
      DistinctSize(init, keys - {last});
    }
  }

  lemma OrderSize(t: Tree)
    requires TreeOk(t)
    ensures |t.order| == |t.dirs|
  {
    hide TreeOk, Distinct;
    KeysParts(t);
    DistinctSize(t.order, t.dirs.Keys);
  }

  lemma GrowAccounts(nblocks: nat, ninodes: nat, host: seq<Visit>, spec: seq<SpecLine>)
    requires Grow(Init(nblocks, ninodes), host, spec).Success?
    ensures Accounts(Grow(Init(nblocks, ninodes), host, spec).value, host, spec)
  {
    hide TreeOk, Root, Init, AddVisits, AddLines, ModeOf, EntryTotal, Added, SpecAdded, TreeGrew, HasVisits, LinesDone,
      Accounts, FileCount, VisitsAsk;
    var t0 := Root(Init(nblocks, ninodes)).value;
    RootOk(nblocks, ninodes);
    TreeAlloc(t0);
    RootCounts(nblocks, ninodes);
    var t1 := AddVisits(t0, host).value;
    AddVisitsOk(t0, host);
    AddVisitsAdded(t0, host);
    TreeAlloc(t1);
    AddLinesAdded(t1, spec);
    AddLinesOk(t1, spec);
    OrderSize(AddLines(t1, spec).value);
    AccountsFrom(t0, t1, AddLines(t1, spec).value, host, spec);
  }
}
