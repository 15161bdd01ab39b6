/** What the input asks for is what the image holds: counts, modes of directories, hard links. */
module InputAccounts {
  import opened Bytes
  import opened S5Reader
  import opened FsModel
  import opened TreeModel
  import opened AllocInvariant
  import opened TreeInvariant
  import opened TreeSteps
  import opened TreeRuns
  import opened TreeFinish
  import opened TreeInput
  import opened OnDisk
  import opened FreeList
  import opened Image
  import opened Ownership
  import opened RoundTrip
  import opened WalkExact
  import opened WalkComplete

  /** For every input `build` accepts. */
  lemma BuildAccounts(nblocks: nat, ninodes: nat, host: seq<Visit>, spec: seq<SpecLine>)
    requires Build(Init(nblocks, ninodes), host, spec).Success?
    ensures Accounts(Build(Init(nblocks, ninodes), host, spec).value, host, spec)
  {
    hide TreeOk, Init, Grow, StoreDirs, Storing, EntryTotal, SpecMode, LinksMade, FileCount, DeviceLines, LinkLines,
      HasVisits, LinesDone, Asked;
    var t := Grow(Init(nblocks, ninodes), host, spec).value;
    GrowOk(nblocks, ninodes, host, spec);
    GrowAccounts(nblocks, ninodes, host, spec);
    assert t.order[..|t.order|] == t.order;
    StoreDirsOk(t, |t.order|);
    StoringModes(t, StoreDirs(t, t.order).value);
    LinksMadeSame(t, StoreDirs(t, t.order).value, spec);
  }

  lemma StoringModes(t: Tree, t': Tree)
    requires Storing(t, t', t.order)
    ensures t'.order == t.order && t'.dirs == t.dirs && t'.entries == t.entries && t'.fs.nextIno == t.fs.nextIno
    ensures forall p :: ModeOf(t', p) == ModeOf(t, p)
  {
    hide AllocOk, OthersEmpty, DirStored, IsDirNum;
  }

  lemma LinksMadeSame(t: Tree, t': Tree, spec: seq<SpecLine>)
    requires LinksMade(t, spec) && t'.entries == t.entries
    ensures LinksMade(t', spec)
  {
    hide HasSlash, ParentPath, BaseName, SameInode;
    forall i | 0 <= i < |spec|
      ensures LinkMade(t', spec[i])
    {
      assert LinkMade(t, spec[i]);
    }
  }

  // --- on the image ---------------------------------------------------------------------------

  predicate NoDirLine(spec: seq<SpecLine>, p: string) {
    forall i :: 0 <= i < |spec| ==> !(spec[i].DirLine? && spec[i].path == p)
  }

  /** Line `i` is the last `dir` line for `p`. */
  predicate LastDirLine(spec: seq<SpecLine>, p: string, i: int) {
    && 0 <= i < |spec| && spec[i].DirLine? && spec[i].path == p
    && forall j :: i < j < |spec| ==> !(spec[j].DirLine? && spec[j].path == p)
  }

  lemma {:induction false} ModeFromSpec(spec: seq<SpecLine>, p: string)
    ensures NoDirLine(spec, p) ==> SpecMode(spec, p) == DIR_MODE
    ensures forall i :: LastDirLine(spec, p, i) ==> SpecMode(spec, p) == BitOr(S_IFDIR, spec[i].mode)
  {
    hide BitOr;
    if spec != [] {
      var n, last := |spec| - 1, spec[|spec| - 1];
      if last.DirLine? && last.path == p {
        assert forall i :: LastDirLine(spec, p, i) ==> i == n;
      } else {
        ModeFromSpec(spec[..n], p);
        assert forall i :: LastDirLine(spec, p, i) ==> LastDirLine(spec[..n], p, i);
      }
    }
  }

  lemma PlainDirMode(spec: seq<SpecLine>, p: string)
    ensures NoDirLine(spec, p) ==> SpecMode(spec, p) == 0x4000 + 493
    ensures forall i :: LastDirLine(spec, p, i) && spec[i].mode < 4096 ==> SpecMode(spec, p) == 0x4000 + spec[i].mode
  {
    hide BitOr, SpecMode, NoDirLine;
    ModeFromSpec(spec, p);
    forall i | LastDirLine(spec, p, i) && spec[i].mode < 4096
      ensures SpecMode(spec, p) == 0x4000 + spec[i].mode
    {
      ModesFit(spec[i].mode);
    }
  }

  /** The mode of every directory on the image is that of its last `dir` line, or 0755. */
  lemma DirModeOnImage(d: seq<byte>, t: Tree, now: nat, fl: Cache, host: seq<Visit>, spec: seq<SpecLine>, p: string)
    requires Written(d, t, now, fl) && Accounts(t, host, spec) && p in t.dirs
    ensures ReadInode(d, t.dirs[p]).Some? && ReadInode(d, t.dirs[p]).value.mode == SpecMode(spec, p)
    ensures NoDirLine(spec, p) ==> ReadInode(d, t.dirs[p]).value.mode == 0x4000 + 493
    ensures forall i :: LastDirLine(spec, p, i) && spec[i].mode < 4096 ==>
      ReadInode(d, t.dirs[p]).value.mode == 0x4000 + spec[i].mode
  {
    PlainDirMode(spec, p);
    hide ImageOf, Finished, ReadInode, EntryTotal, SpecMode, FileCount, DeviceLines, LinkLines, LinksMade, AsRead,
      NoDirLine, LastDirLine, BitOr;
    DirNumExists(t, p);
    NumbersInTable(t, t.dirs[p]);
    InodeReads(d, t.fs, now, fl, t.dirs[p]);
    ModeAsRead(t.fs.inodes[t.dirs[p]]);
    assert ModeOf(t, p) == SpecMode(spec, p);
  }

  /** Directory `p` of the image names inode `n` so. */
  ghost predicate NamedOnImage(d: seq<byte>, t: Tree, p: string, n: nat, name: string) {
    DirAt(d, t, p) && Holding(d, t.dirs[p], n, name)
  }

  lemma EntryReads(d: seq<byte>, t: Tree, now: nat, fl: Cache, p: string, n: nat, name: string)
    requires Written(d, t, now, fl) && Named(t.entries, p, n, name)
    ensures NamedOnImage(d, t, p, n, name)
  {
    hide ImageOf, Finished, ReadDir, UpToNul, KeysOk, NumsOk, InodesOk, RunsTile, FilesOk, ModesOk, Reached, DotsAt;
    FinishedParts(t);
    EntriesAreDirs(t, p);
    DirReads(d, t, now, fl, p);
    DirsReached(d, t, now, fl, p);
    var i :| 0 <= i < |t.entries[p]| && t.entries[p][i] == Entry(n, name);
    assert AsNamed(t.entries[p])[i] == Entry(n, UpToNul(name));
  }

  /** The tree link line `i` of a build finds. */
  function Before(s: State, host: seq<Visit>, spec: seq<SpecLine>, i: nat): Checked<Tree>
    requires i < |spec| && HasSlash(spec[i].path)
  {
    var t0 :- Root(s);
    var t1 :- AddVisits(t0, host);
    BeforeLink(t1, spec, i)
  }

  /** In a finished tree, link line `i` is for the inode its target's last entry had when the line was reached. */
  lemma BuildLinks(nblocks: nat, ninodes: nat, host: seq<Visit>, spec: seq<SpecLine>, i: nat)
    requires Build(Init(nblocks, ninodes), host, spec).Success? && i < |spec| && spec[i].LinkLine?
    ensures HasSlash(spec[i].path) && Before(Init(nblocks, ninodes), host, spec, i).Success?
    ensures LinkTaken(Before(Init(nblocks, ninodes), host, spec, i).value,
                      Build(Init(nblocks, ninodes), host, spec).value, spec[i])
  {
    hide TreeOk, Init, Root, AddVisits, StoreDirs, Storing, LinkTaken, HasVisits, LinesDone, TreeGrew, BeforeLink,
      HasSlash;
    var t0 := Root(Init(nblocks, ninodes)).value;
    RootOk(nblocks, ninodes);
    TreeAlloc(t0);
    var t1 := AddVisits(t0, host).value;
    AddVisitsOk(t0, host);
    TreeAlloc(t1);
    var t := AddLines(t1, spec).value;
    LinkLineTakes(t1, spec, i);
    GrowOk(nblocks, ninodes, host, spec);
    assert t.order[..|t.order|] == t.order;
    StoreDirsOk(t, |t.order|);
    StoringModes(t, StoreDirs(t, t.order).value);
    SameGrew(t.entries);
    LinkTakenGrew(BeforeLink(t1, spec, i).value, t, StoreDirs(t, t.order).value, spec[i]);
  }

  lemma SameGrew(entries: map<string, seq<Entry>>)
    ensures Grew(entries, entries)
  {
  }

  /** On the image, too: the link and its target are two names for that inode. */
  ghost predicate LinkFound(d: seq<byte>, t: Tree, t1: Tree, line: SpecLine)
    requires HasSlash(line.path) && line.LinkLine?
  {
    && HasSlash(line.target) && ParentPath(line.target) in t1.entries
    && exists n: nat ::
         && IsLast(t1.entries[ParentPath(line.target)], BaseName(line.target), n)
         && NamedOnImage(d, t, ParentPath(line.path), n, BaseName(line.path))
         && NamedOnImage(d, t, ParentPath(line.target), n, BaseName(line.target))
  }

  lemma LinkReads(d: seq<byte>, t: Tree, now: nat, fl: Cache, t1: Tree, line: SpecLine)
    requires Written(d, t, now, fl) && LinkTaken(t1, t, line)
    ensures LinkFound(d, t, t1, line)
  {
    hide Written, IsLast, Named, NamedOnImage, HasSlash, ParentPath, BaseName;
    var p, q := ParentPath(line.path), ParentPath(line.target);
    var n: nat :| IsLast(t1.entries[q], BaseName(line.target), n)
      && Named(t.entries, p, n, BaseName(line.path)) && Named(t.entries, q, n, BaseName(line.target));
    EntryReads(d, t, now, fl, p, n, BaseName(line.path));
    EntryReads(d, t, now, fl, q, n, BaseName(line.target));
  }

  lemma LinkIsFound(nblocks: nat, ninodes: nat, host: seq<Visit>, spec: seq<SpecLine>, i: nat,
                    d: seq<byte>, now: nat, fl: Cache)
    requires Build(Init(nblocks, ninodes), host, spec).Success? && i < |spec| && spec[i].LinkLine?
    requires Written(d, Build(Init(nblocks, ninodes), host, spec).value, now, fl)
    ensures HasSlash(spec[i].path) && Before(Init(nblocks, ninodes), host, spec, i).Success?
    ensures LinkFound(d, Build(Init(nblocks, ninodes), host, spec).value,
                      Before(Init(nblocks, ninodes), host, spec, i).value, spec[i])
  {
    hide Build, Init, Before, Written, LinkTaken, LinkFound, HasSlash;
    BuildLinks(nblocks, ninodes, host, spec, i);
    LinkReads(d, Build(Init(nblocks, ninodes), host, spec).value, now, fl,
              Before(Init(nblocks, ninodes), host, spec, i).value, spec[i]);
  }

  /** Free inodes, inode 1, directories, files and devices make up the table. */
  lemma InodesOfInput(d: seq<byte>, t: Tree, now: nat, fl: Cache, host: seq<Visit>, spec: seq<SpecLine>)
    requires Written(d, t, now, fl) && Accounts(t, host, spec)
    ensures |d| >= 1024 && U16(d, 948) + 1 + |t.order| + FileCount(host) + DeviceLines(spec) == t.fs.ninodes
  {
    hide ImageOf, Finished, ReadInode, EntryTotal, SpecMode, FileCount, DeviceLines, LinkLines, LinksMade, ModeOf,
      KeysOk, NumsOk, InodesOk, RunsTile, FilesOk, ModesOk, U16;
    FinishedParts(t);
    NextInTable(t);
    InodesAccounted(d, t.fs, now, fl);
  }

  lemma NextInTable(t: Tree)
    requires KeysOk(t)
    ensures t.fs.nextIno <= t.fs.ninodes
  {
  }

  // --- everything the input asks for, on the image --------------------------------------------

  /** Directory `p` is on the image, under its path, with mode `mode`, and `..` in it is the directory above. */
  ghost predicate DirFound(d: seq<byte>, t: Tree, p: string, mode: nat) {
    && DirAt(d, t, p) && DotsAt(d, t, p)
    && ReadInode(d, t.dirs[p]).Some? && ReadInode(d, t.dirs[p]).value.mode == mode
  }

  /** Every directory asked for, and no other, is on the image, with the mode of its last `dir` line. */
  ghost predicate DirsFound(d: seq<byte>, t: Tree, host: seq<Visit>, spec: seq<SpecLine>) {
    forall p :: if Asked(host, spec, p) then DirFound(d, t, p, SpecMode(spec, p)) else p !in t.dirs
  }

  lemma DirsAreFound(d: seq<byte>, t: Tree, now: nat, fl: Cache, host: seq<Visit>, spec: seq<SpecLine>)
    requires Written(d, t, now, fl) && Accounts(t, host, spec)
    ensures DirsFound(d, t, host, spec)
  {
    hide Written, ReadInode, DirAt, DotsAt, EntryTotal, SpecMode, FileCount, DeviceLines, LinkLines, LinksMade, ModeOf,
      Asked;
    forall p
      ensures if Asked(host, spec, p) then DirFound(d, t, p, SpecMode(spec, p)) else p !in t.dirs
    {
      if Asked(host, spec, p) {
        DirModeOnImage(d, t, now, fl, host, spec, p);
        DirsReached(d, t, now, fl, p);
      }
    }
  }

  /** No other inode on the image is a directory. */
  ghost predicate OnlyDirs(d: seq<byte>, t: Tree) {
    forall n: nat :: 1 <= n <= t.fs.ninodes && ReadInode(d, n).Some? && IsDir(ReadInode(d, n).value.mode) ==>
      IsDirNum(t.dirs, n)
  }

  lemma OnlyDirsRead(d: seq<byte>, t: Tree, now: nat, fl: Cache)
    requires Written(d, t, now, fl)
    ensures OnlyDirs(d, t)
  {
    hide ImageOf, Finished, ReadInode, IsDirNum, RecordOf, AsRead;
    forall n: nat | 1 <= n <= t.fs.ninodes && ReadInode(d, n).Some? && IsDir(ReadInode(d, n).value.mode)
      ensures IsDirNum(t.dirs, n)
    {
      if n in t.fs.inodes {
        NumbersInTable(t, n);
        InodeReads(d, t.fs, now, fl, n);
        DirByMode(t, n);
      } else {
        FreeInodeReads(d, t.fs, now, fl, n);
      }
    }
  }

  // --- what the walk shows of it ----------------------------------------------------------------

  /** The spec lets the walk enter `p`: it and the directories above it lie within the depth limit, are not called
      `.` or `..`, and no `dir` line takes away their type. */
  predicate Enters(spec: seq<SpecLine>, p: string)
    decreases |p|
  {
    if p == "/" then true else
      && HasSlash(p)
      && (ParentShorter(p); Enters(spec, ParentPath(p)))
      && PathDepth(p) <= 12
      && !Dots(UpToNul(BaseName(p)))
      && IsDir(SpecMode(spec, p))
  }

  lemma RecordMode(t: Tree, host: seq<Visit>, spec: seq<SpecLine>, p: string)
    requires Finished(t) && Accounts(t, host, spec) && p in t.dirs
    ensures RecordOf(t, t.dirs[p]).mode == SpecMode(spec, p)
  {
    hide Finished, EntryTotal, SpecMode, FileCount, DeviceLines, LinkLines, LinksMade, Asked, RecordOf, AsRead, IsDir;
    DirNumExists(t, p);
    DirByMode(t, t.dirs[p]);
    NumbersInTable(t, t.dirs[p]);
    ModeAsRead(t.fs.inodes[t.dirs[p]]);
    assert ModeOf(t, p) == SpecMode(spec, p);
  }

  /** The walk enters a directory of the tree exactly when the spec lets it. */
  lemma {:induction false} EntersIs(t: Tree, host: seq<Visit>, spec: seq<SpecLine>, p: string)
    requires Finished(t) && Accounts(t, host, spec) && p in t.dirs
    ensures Entered(t, p) <==> Enters(spec, p)
    decreases |p|
  {
    hide Finished, Accounts, RecordOf, SpecMode, IsDir, Dots, UpToNul, HasSlash, ParentPath, BaseName;
    if p != "/" {
      DirShapes(t, p);
      ParentShorter(p);
      EntersIs(t, host, spec, ParentPath(p));
      RecordMode(t, host, spec, p);
    }
  }

  /** The walk shows entry `e` of directory `p` under its path, with its inode as read. */
  ghost predicate Walked(d: seq<byte>, p: string, e: Entry) {
    && WalkAll(d).Some? && ReadInode(d, e.num).Some?
    && Item(WalkPath(p) + "/" + e.name, e.num, ReadInode(d, e.num).value) in WalkAll(d).value
  }

  /** Every entry of every directory asked for that the spec lets the walk enter. */
  ghost predicate EntriesWalked(d: seq<byte>, t: Tree, spec: seq<SpecLine>) {
    forall p, e: Entry ::
      p in t.dirs && Enters(spec, p) && Holding(d, t.dirs[p], e.num, e.name) && !Dots(UpToNul(e.name)) ==>
        Walked(d, p, Entry(e.num, UpToNul(e.name)))
  }

  lemma EntryWalked(d: seq<byte>, t: Tree, now: nat, fl: Cache, p: string, e: Entry)
    requires Written(d, t, now, fl) && p in t.dirs && Entered(t, p)
    requires Holding(d, t.dirs[p], e.num, e.name) && !Dots(UpToNul(e.name))
    ensures Walked(d, p, Entry(e.num, UpToNul(e.name)))
  {
    hide ImageOf, Finished, ReadDir, ReadInode, UpToNul, Dots, Entered, WalkPath, WalkAll, RecordOf, AsNamed, AsRead;
    DirReads(d, t, now, fl, p);
    var i := NamedIn(t, p, Entry(e.num, UpToNul(e.name)));
    WalkMissesNothing(d, t, now, fl, p, t.entries[p][i]);
    NumbersInTable(t, e.num);
    InodeReads(d, t.fs, now, fl, e.num);
    DirByMode(t, e.num);
  }

  lemma EntriesAreWalked(d: seq<byte>, t: Tree, now: nat, fl: Cache, host: seq<Visit>, spec: seq<SpecLine>)
    requires Written(d, t, now, fl) && Accounts(t, host, spec)
    ensures EntriesWalked(d, t, spec)
  {
    hide Written, Accounts, UpToNul, Dots, Enters, Entered, Holding, Walked;
    forall p, e: Entry |
      p in t.dirs && Enters(spec, p) && Holding(d, t.dirs[p], e.num, e.name) && !Dots(UpToNul(e.name))
      ensures Walked(d, p, Entry(e.num, UpToNul(e.name)))
    {
      assert Finished(t) by {
        WrittenTree(d, t, now, fl);
      }
      EntersIs(t, host, spec, p);
      EntryWalked(d, t, now, fl, p, e);
    }
  }

  lemma WrittenTree(d: seq<byte>, t: Tree, now: nat, fl: Cache)
    requires Written(d, t, now, fl)
    ensures Finished(t)
  {
    hide ImageOf, Finished;
  }

  /** The walk shows host file `f` at its own path, with its mode; the data of the inode it shows is the content. */
  ghost predicate FileWalked(d: seq<byte>, here: string, f: HostFile) {
    WalkAll(d).Some? && exists x ::
      && x in WalkAll(d).value && x.path == WalkPath(here) + "/" + UpToNul(f.name)
      && ReadInode(d, x.ino) == Some(x.inode) && PlainMode(x.inode.mode, f.executable)
      && Data(d, x.inode) == Some(f.content)
  }

  ghost predicate FilesWalked(d: seq<byte>, host: seq<Visit>, spec: seq<SpecLine>) {
    forall i, j :: 0 <= i < |host| && 0 <= j < |host[i].files| ==>
      Enters(spec, host[i].here) && !Dots(UpToNul(host[i].files[j].name)) ==>
        FileWalked(d, host[i].here, host[i].files[j])
  }

  lemma FileIsWalked(d: seq<byte>, t: Tree, spec: seq<SpecLine>, here: string, f: HostFile)
    requires EntriesWalked(d, t, spec) && FileFound(d, t, here, f)
    requires Enters(spec, here) && !Dots(UpToNul(f.name))
    ensures FileWalked(d, here, f)
  {
    hide ReadDir, Data, UpToNul, Dots, Enters, WalkPath, WalkAll, PlainMode, Reached, Holding;
    var n :|
      && Holding(d, t.dirs[here], n, f.name)
      && ReadInode(d, n).Some?
      && PlainMode(ReadInode(d, n).value.mode, f.executable)
      && Data(d, ReadInode(d, n).value) == Some(f.content);
    var e := Entry(n, f.name);
    assert Walked(d, here, Entry(e.num, UpToNul(e.name)));
    var x := Item(WalkPath(here) + "/" + UpToNul(f.name), n, ReadInode(d, n).value);
    assert x in WalkAll(d).value;
  }

  lemma FilesAreWalked(d: seq<byte>, t: Tree, host: seq<Visit>, spec: seq<SpecLine>)
    requires EntriesWalked(d, t, spec) && HostFound(d, t, host)
    ensures FilesWalked(d, host, spec)
  {
    hide EntriesWalked, FileFound, FileWalked, Enters, Dots, UpToNul;
    forall i, j | 0 <= i < |host| && 0 <= j < |host[i].files| && Enters(spec, host[i].here)
      && !Dots(UpToNul(host[i].files[j].name))
      ensures FileWalked(d, host[i].here, host[i].files[j])
    {
      FileIsWalked(d, t, spec, host[i].here, host[i].files[j]);
    }
  }

  // --- the whole --------------------------------------------------------------------------------

  /** Link line `i` has done what it asks for. */
  ghost predicate LinkLineFound(d: seq<byte>, t: Tree, s: State, host: seq<Visit>, spec: seq<SpecLine>, i: nat)
    requires i < |spec|
  {
    spec[i].LinkLine? ==>
      && HasSlash(spec[i].path) && Before(s, host, spec, i).Success?
      && LinkFound(d, t, Before(s, host, spec, i).value, spec[i])
  }

  ghost predicate LinksFound(d: seq<byte>, t: Tree, s: State, host: seq<Visit>, spec: seq<SpecLine>) {
    forall i :: 0 <= i < |spec| ==> LinkLineFound(d, t, s, host, spec, i)
  }

  /** The reader finds the tree in `d`: the walk is its listing; every directory asked for is there under its path, and
      no other; every host file, device and link asked for is there, in the directory its path names; the walk shows all
      entries of the directories it enters; and the tree holds no more than was asked for. `s` is the empty filesystem
      the build began with. */
  ghost predicate ReadsBack(d: seq<byte>, t: Tree, s: State, host: seq<Visit>, spec: seq<SpecLine>) {
    && WalkAll(d) == Some(WholeListing(t))
    && Accounts(t, host, spec)
    && DirsFound(d, t, host, spec) && OnlyDirs(d, t)
    && EntriesWalked(d, t, spec) && FilesWalked(d, host, spec)
    && HostFound(d, t, host)
    && DevicesFound(d, t, spec)
    && LinksFound(d, t, s, host, spec)
  }

  lemma ImageReadsBack(nblocks: nat, ninodes: nat, host: seq<Visit>, spec: seq<SpecLine>,
                       d: seq<byte>, now: nat, fl: Cache)
    requires Build(Init(nblocks, ninodes), host, spec).Success?
    requires Build(Init(nblocks, ninodes), host, spec).value.fs.nextBlock <= 0x100_0000
    requires ImageOf(d, Build(Init(nblocks, ninodes), host, spec).value.fs, now, fl)
    ensures ReadsBack(d, Build(Init(nblocks, ninodes), host, spec).value, Init(nblocks, ninodes), host, spec)
  {
    hide Build, Init, ImageOf, Finished, HostFound, DevicesFound, DirsFound, LinkLineFound, WalkAll, WholeListing,
      Accounts, HasVisits, LinesDone, OnlyDirs, EntriesWalked, FilesWalked;
    var s, t := Init(nblocks, ninodes), Build(Init(nblocks, ninodes), host, spec).value;
    InputIsFound(nblocks, ninodes, host, spec, d, now, fl);
    WalkReturnsTree(d, t, now, fl);
    BuildAccounts(nblocks, ninodes, host, spec);
    DirsAreFound(d, t, now, fl, host, spec);
    OnlyDirsRead(d, t, now, fl);
    EntriesAreWalked(d, t, now, fl, host, spec);
    FilesAreWalked(d, t, host, spec);
    forall i | 0 <= i < |spec|
      ensures LinkLineFound(d, t, s, host, spec, i)
    {
      LinkLineIsFound(nblocks, ninodes, host, spec, i, d, now, fl);
    }
  }

  lemma LinkLineIsFound(nblocks: nat, ninodes: nat, host: seq<Visit>, spec: seq<SpecLine>, i: nat,
                        d: seq<byte>, now: nat, fl: Cache)
    requires Build(Init(nblocks, ninodes), host, spec).Success? && i < |spec|
    requires Written(d, Build(Init(nblocks, ninodes), host, spec).value, now, fl)
    ensures LinkLineFound(d, Build(Init(nblocks, ninodes), host, spec).value, Init(nblocks, ninodes), host, spec, i)
  {
    hide Build, Init, Before, Written, LinkFound, HasSlash;
    if spec[i].LinkLine? {
      LinkIsFound(nblocks, ninodes, host, spec, i, d, now, fl);
    }
  }
}
