/** The writer and the reader together, for every input `build` accepts. */
module RoundTrip {
  import opened Bytes
  import opened S5Reader
  import opened FsModel
  import opened TreeModel
  import opened AllocInvariant
  import opened Links
  import opened TreeInvariant
  import opened TreeRuns
  import opened TreeFinish
  import opened OnDisk
  import opened FreeList
  import opened Image

  /** `d` is the image of a finished tree whose blocks all have 24-bit numbers. */
  ghost predicate Written(d: seq<byte>, t: Tree, now: nat, fl: Cache) {
    ImageOf(d, t.fs, now, fl) && Finished(t) && t.fs.nextBlock <= 0x100_0000
  }

  // --- the walk -----------------------------------------------------------------------

  lemma RootIsDir(t: Tree)
    requires Finished(t)
    ensures "/" in t.dirs && t.dirs["/"] == 2 && IsDirNum(t.dirs, 2)
  {
    hide AllocOk, NumsOk, LinksOk, ShapeOk, ModesOk, AllDirsStored, Distinct;
    assert t.dirs["/"] == 2;
  }

  ghost function WholeListing(t: Tree): seq<Item> {
    Listing(t, 2, "", 0)
  }

  /** `S5.walk` on the finished bytes is the pre-order listing of `entries` from the root. */
  lemma WalkReturnsTree(d: seq<byte>, t: Tree, now: nat, fl: Cache)
    requires Written(d, t, now, fl)
    ensures WalkAll(d) == Some(WholeListing(t))
  {
    hide ImageOf, Finished, Walk, Listing;
    RootIsDir(t);
    WalkIsListing(d, t, now, fl, 2, "", 0);
  }

  // --- directories by their paths ---------------------------------------------------------

  function PathDepth(p: string): nat
    decreases |p|
  {
    if p == "/" || !HasSlash(p) then 0 else
      ParentShorter(p);
      1 + PathDepth(ParentPath(p))
  }

  /** Following path `p` down from the root leads to `n`: each step is an entry of a directory as read from the image,
      under the name the path gives it. */
  ghost predicate Reached(d: seq<byte>, n: nat, p: string)
    decreases |p|
  {
    if p == "/" then n == 2 else
      && HasSlash(p)
      && (ParentShorter(p); exists m :: Reached(d, m, ParentPath(p)) && Holding(d, m, n, BaseName(p)))
  }

  /** Directory `m`, as read, names inode `n` so. */
  ghost predicate Holding(d: seq<byte>, m: nat, n: nat, name: string) {
    ReadDir(d, m).Some? && Entry(n, UpToNul(name)) in ReadDir(d, m).value
  }

  /** Directory `p` of the tree is on the image under that path. */
  ghost predicate DirAt(d: seq<byte>, t: Tree, p: string) {
    p in t.dirs && Reached(d, t.dirs[p], p) && ReadDir(d, t.dirs[p]).Some?
  }

  /** It starts with itself and with the directory its path names it in. */
  ghost predicate DotsAt(d: seq<byte>, t: Tree, p: string)
    requires DirAt(d, t, p)
  {
    && HasSlash(p) && DirAt(d, t, ParentPath(p))
    && |ReadDir(d, t.dirs[p]).value| >= 2
    && ReadDir(d, t.dirs[p]).value[0] == Entry(t.dirs[p], ".")
    && ReadDir(d, t.dirs[p]).value[1] == Entry(t.dirs[ParentPath(p)], "..")
    && (p == "/" || Holding(d, t.dirs[ParentPath(p)], t.dirs[p], BaseName(p)))
  }

  lemma DirShapes(t: Tree, p: string)
    requires Finished(t) && p in t.dirs
    ensures p in t.entries && DirShape(t.dirs, t.entries, p) && (p == "/" ==> t.dirs[p] == 2)
  {
    hide AllocOk, NumsOk, LinksOk, ModesOk, AllDirsStored, DirShape, Distinct;
  }

  lemma DotNames()
    ensures UpToNul(".") == "." && UpToNul("..") == ".."
  {
    assert UpToNul("..") == ['.'] + UpToNul(".");
    assert UpToNul(".") == ['.'] + UpToNul("");
  }

  /** Every directory is found under its path from inode 2, starts with itself, and its `..` is the directory the path
      names it in. */
  lemma {:induction false} DirsReached(d: seq<byte>, t: Tree, now: nat, fl: Cache, p: string)
    requires Written(d, t, now, fl) && p in t.dirs
    ensures DirAt(d, t, p) && DotsAt(d, t, p)
    decreases |p|
  {
    hide ImageOf, Finished, ReadDir, HasSlash, ParentPath, BaseName, LastSlash, UpToNul;
    DirShapes(t, p);
    DirReads(d, t, now, fl, p);
    DotNames();
    if p != "/" {
      var pp := ParentPath(p);
      ParentShorter(p);
      DirsReached(d, t, now, fl, pp);
      DirReads(d, t, now, fl, pp);
      var i :| 0 <= i < |t.entries[pp]| && t.entries[pp][i] == Entry(t.dirs[p], BaseName(p));
      assert AsNamed(t.entries[pp])[i] == Entry(t.dirs[p], UpToNul(BaseName(p)));
      assert Holding(d, t.dirs[pp], t.dirs[p], BaseName(p));
    } else {
      RootParent();
    }
  }

  lemma RootParent()
    ensures ParentPath("/") == "/"
  {
    assert LastSlash("/") == 0;
  }

  // --- host files and devices -------------------------------------------------------------

  /** A plain file's mode as it has to be: type 010, permissions 0755 for an executable and 0644 otherwise. */
  predicate PlainMode(mode: nat, executable: bool) {
    mode / 4096 == 8 && mode % 4096 == if executable then 493 else 420
  }

  /** The directory at `here` on the image has an entry for `f`, and reading that inode gives its mode and content. */
  ghost predicate FileFound(d: seq<byte>, t: Tree, here: string, f: HostFile) {
    && DirAt(d, t, here)
    && exists n ::
      && Holding(d, t.dirs[here], n, f.name)
      && ReadInode(d, n).Some?
      && PlainMode(ReadInode(d, n).value.mode, f.executable)
      && Data(d, ReadInode(d, n).value) == Some(f.content)
  }

  lemma FileIsFound(d: seq<byte>, t: Tree, now: nat, fl: Cache, here: string, f: HostFile)
    requires Written(d, t, now, fl) && HasFile(t, here, f)
    ensures FileFound(d, t, here, f)
  {
    hide ImageOf, Finished, ReadDir, ReadInode, Data, UpToNul, FileMode, PlainMode, IsDirNum, RunsTile, FilesOk,
      InodesOk, KeysOk, NumsOk, ModesOk, AsRead, Reached, DotsAt;
    var n, lo :|
      && here in t.entries && Entry(n, f.name) in t.entries[here]
      && Stored(n, lo, f.content) in t.fs.stored
      && n in t.fs.inodes && t.fs.inodes[n].mode == FileMode(f) && !IsDirNum(t.dirs, n);
    var k :| 0 <= k < |t.fs.stored| && t.fs.stored[k] == Stored(n, lo, f.content);
    FinishedParts(t);
    EntriesAreDirs(t, here);
    DirReads(d, t, now, fl, here);
    DirsReached(d, t, now, fl, here);
    var i :| 0 <= i < |t.entries[here]| && t.entries[here][i] == Entry(n, f.name);
    assert AsNamed(t.entries[here])[i] == Entry(n, UpToNul(f.name));
    NumbersInTable(t, n);
    InodeReads(d, t.fs, now, fl, n);
    ModeAsRead(t.fs.inodes[n]);
    FileModeIs(f);
    FileReads(d, t.fs, now, fl, k);
  }

  lemma FileModeIs(f: HostFile)
    ensures PlainMode(FileMode(f), f.executable)
  {
  }

  lemma EntriesAreDirs(t: Tree, p: string)
    requires KeysOk(t)
    ensures p in t.entries <==> p in t.dirs
  {
    hide Distinct;
  }

  /** A special file is found under its parent with its mode, no content, and its device number in `addr[0]`,
      of which three bytes are kept. */
  ghost predicate DeviceFound(d: seq<byte>, t: Tree, parentPath: string, name: string, mode: nat, dev: nat) {
    && DirAt(d, t, parentPath)
    && exists n ::
      && Holding(d, t.dirs[parentPath], n, name)
      && ReadInode(d, n).Some?
      && ReadInode(d, n).value.mode == mode
      && ReadInode(d, n).value.size == 0
      && ReadInode(d, n).value.blk == NoAddrs()[0 := dev % 0x100_0000]
  }

  lemma DeviceIsFound(d: seq<byte>, t: Tree, now: nat, fl: Cache, parentPath: string, name: string, mode: nat, dev: nat)
    requires Written(d, t, now, fl) && HasDevice(t, parentPath, name, mode, dev)
    ensures DeviceFound(d, t, parentPath, name, mode, dev)
  {
    hide ImageOf, Finished, ReadDir, ReadInode, UpToNul, IsDirNum, RunsTile, FilesOk, InodesOk, KeysOk, NumsOk, ModesOk,
      AsRead, Reached, DotsAt;
    var n :|
      && parentPath in t.entries && Entry(n, name) in t.entries[parentPath]
      && n in t.fs.inodes && t.fs.inodes[n].mode == mode && t.fs.inodes[n].addr == NoAddrs()[0 := dev]
      && t.fs.inodes[n].size == 0 && !IsDirNum(t.dirs, n);
    FinishedParts(t);
    EntriesAreDirs(t, parentPath);
    DirReads(d, t, now, fl, parentPath);
    DirsReached(d, t, now, fl, parentPath);
    var i :| 0 <= i < |t.entries[parentPath]| && t.entries[parentPath][i] == Entry(n, name);
    assert AsNamed(t.entries[parentPath])[i] == Entry(n, UpToNul(name));
    NumbersInTable(t, n);
    InodeReads(d, t.fs, now, fl, n);
    DeviceAsRead(t.fs.inodes[n], dev);
  }

  lemma DeviceAsRead(i: Inode, dev: nat)
    requires i.addr == NoAddrs()[0 := dev]
    ensures AsRead(i).blk == NoAddrs()[0 := dev % 0x100_0000] && AsRead(i).mode == i.mode && AsRead(i).size == i.size
  {
    assert AsRead(i).blk == NoAddrs()[0 := dev % 0x100_0000];
  }

  function Pow2(k: nat): nat {
    if k == 0 then 1 else 2 * Pow2(k - 1)
  }

  function Shl(x: nat, k: nat): nat {
    if k == 0 then x else 2 * Shl(x, k - 1)
  }

  /** Bit-or of a number shifted by `k` and one below 2^k is their sum. */
  lemma {:induction false} OrBelow(x: nat, b: nat, k: nat)
    requires b < Pow2(k)
    ensures BitOr(Shl(x, k), b) == Shl(x, k) + b
    decreases k
  {
    if k > 0 {
      OrBelow(x, b / 2, k - 1);
      assert Shl(x, k) / 2 == Shl(x, k - 1);
    }
  }

  lemma EightBits(x: nat)
    ensures Shl(x, 8) == 256 * x && Pow2(8) == 256
  {
    assert Shl(x, 4) == 2 * Shl(x, 3) == 4 * Shl(x, 2) == 8 * Shl(x, 1) == 16 * x;
    assert Shl(x, 8) == 2 * Shl(x, 7) == 4 * Shl(x, 6) == 8 * Shl(x, 5) == 16 * Shl(x, 4);
    assert Pow2(4) == 2 * Pow2(3) == 4 * Pow2(2) == 8 * Pow2(1) == 16;
    assert Pow2(8) == 2 * Pow2(7) == 4 * Pow2(6) == 8 * Pow2(5) == 16 * Pow2(4);
  }

  /** A minor number of one byte is packed below the major number. */
  lemma DeviceNumberFits(major: nat, minor: nat)
    requires minor < 256
    ensures DeviceNumber(major, minor) == 256 * major + minor
  {
    EightBits(major);
    OrBelow(major, minor, 8);
  }

  lemma {:induction false} BitOrComm(a: nat, b: nat)
    ensures BitOr(a, b) == BitOr(b, a)
  {
    if a != 0 && b != 0 {
      BitOrComm(a / 2, b / 2);
    }
  }

  lemma TwelveBits(x: nat)
    ensures Shl(x, 12) == 4096 * x && Pow2(12) == 4096
  {
    EightBits(x);
    assert Shl(x, 12) == 2 * Shl(x, 11) == 4 * Shl(x, 10) == 8 * Shl(x, 9) == 16 * Shl(x, 8);
    assert Pow2(12) == 2 * Pow2(11) == 4 * Pow2(10) == 8 * Pow2(9) == 16 * Pow2(8);
  }

  /** Permission bits of up to twelve bits are kept beside the file type. */
  lemma ModesFit(mode: nat)
    requires mode < 4096
    ensures BitOr(S_IFDIR, mode) == 0x4000 + mode
    ensures DeviceMode(mode, true) == 0x6000 + mode && DeviceMode(mode, false) == 0x2000 + mode
  {
    hide BitOr;
    TwelveBits(4);
    OrBelow(4, mode, 12);
    TwelveBits(6);
    OrBelow(6, mode, 12);
    BitOrComm(mode, S_IFBLK);
    TwelveBits(2);
    OrBelow(2, mode, 12);
    BitOrComm(mode, S_IFCHR);
  }

  ghost predicate HostFound(d: seq<byte>, t: Tree, host: seq<Visit>) {
    forall i, j :: 0 <= i < |host| && 0 <= j < |host[i].files| ==> FileFound(d, t, host[i].here, host[i].files[j])
  }

  ghost predicate DeviceLineFound(d: seq<byte>, t: Tree, line: SpecLine) {
    line.DevLine? ==>
      && HasSlash(line.path)
      && DeviceFound(d, t, ParentPath(line.path), BaseName(line.path),
                     DeviceMode(line.mode, line.block), DeviceNumber(line.major, line.minor))
  }

  ghost predicate DevicesFound(d: seq<byte>, t: Tree, spec: seq<SpecLine>) {
    forall i :: 0 <= i < |spec| ==> DeviceLineFound(d, t, spec[i])
  }

  /** Every host file and device of the input is on the image. */
  lemma InputIsFound(nblocks: nat, ninodes: nat, host: seq<Visit>, spec: seq<SpecLine>,
                     d: seq<byte>, now: nat, fl: Cache)
    requires Build(Init(nblocks, ninodes), host, spec).Success?
    requires ImageOf(d, Build(Init(nblocks, ninodes), host, spec).value.fs, now, fl)
    requires Build(Init(nblocks, ninodes), host, spec).value.fs.nextBlock <= 0x100_0000
    ensures var t := Build(Init(nblocks, ninodes), host, spec).value;
      Written(d, t, now, fl) && HostFound(d, t, host) && DevicesFound(d, t, spec)
  {
    hide Build, Init, ImageOf, Finished, HasFile, HasDevice, FileFound, DeviceFound, ParentPath, BaseName, HasSlash,
      DeviceMode, DeviceNumber;
    var t := Build(Init(nblocks, ninodes), host, spec).value;
    BuildOk(nblocks, ninodes, host, spec);
    forall i, j | 0 <= i < |host| && 0 <= j < |host[i].files|
      ensures FileFound(d, t, host[i].here, host[i].files[j])
    {
      assert HasFiles(t, host[i].here, host[i].files);
      FileIsFound(d, t, now, fl, host[i].here, host[i].files[j]);
    }
    forall i | 0 <= i < |spec|
      ensures DeviceLineFound(d, t, spec[i])
    {
      assert LineDone(t, spec[i]);
      if spec[i].DevLine? {
        DeviceIsFound(d, t, now, fl, ParentPath(spec[i].path), BaseName(spec[i].path),
                      DeviceMode(spec[i].mode, spec[i].block), DeviceNumber(spec[i].major, spec[i].minor));
      }
    }
  }

  // --- link counts, on the image -----------------------------------------------------------

  /** How many entries of the directories in `order`, as read, name inode `n`. */
  function RefsRead(d: seq<byte>, dirs: map<string, nat>, order: seq<string>, n: nat): nat {
    if order == [] then 0 else
      var p := order[|order| - 1];
      RefsRead(d, dirs, order[..|order| - 1], n)
      + (if p in dirs && ReadDir(d, dirs[p]).Some? then Names(ReadDir(d, dirs[p]).value, n) else 0)
  }

  lemma {:induction false} NamesAsNamed(ents: seq<Entry>, n: nat)
    ensures Names(AsNamed(ents), n) == Names(ents, n)
  {
    if ents != [] {
      NamesAsNamed(ents[..|ents| - 1], n);
      assert AsNamed(ents)[..|ents| - 1] == AsNamed(ents[..|ents| - 1]);
    }
  }

  lemma {:induction false} RefsReadAre(d: seq<byte>, t: Tree, now: nat, fl: Cache, order: seq<string>, n: nat)
    requires Written(d, t, now, fl) && forall i :: 0 <= i < |order| ==> order[i] in t.dirs && order[i] in t.entries
    ensures RefsRead(d, t.dirs, order, n) == Refs(order, t.entries, n)
  {
    hide ImageOf, Finished, ReadDir, AsNamed;
    if order != [] {
      var p := order[|order| - 1];
      RefsReadAre(d, t, now, fl, order[..|order| - 1], n);
      DirReads(d, t, now, fl, p);
      NamesAsNamed(t.entries[p], n);
    }
  }

  lemma OrderParts(t: Tree)
    requires Finished(t)
    ensures LinksOk(t) && forall i :: 0 <= i < |t.order| ==> t.order[i] in t.dirs && t.order[i] in t.entries
  {
    hide AllocOk, NumsOk, LinksOk, ShapeOk, ModesOk, AllDirsStored;
  }

  /** The link count in every inode is the number of directory entries on the image that name it. */
  lemma LinksOnImage(d: seq<byte>, t: Tree, now: nat, fl: Cache, n: nat)
    requires Written(d, t, now, fl) && n in t.fs.inodes
    ensures ReadInode(d, n).Some? && ReadInode(d, n).value.nlink == RefsRead(d, t.dirs, t.order, n)
  {
    hide ImageOf, Finished, ReadInode, Refs, RefsRead, AsRead;
    OrderParts(t);
    RefsReadAre(d, t, now, fl, t.order, n);
    NumbersInTable(t, n);
    InodeReads(d, t.fs, now, fl, n);
    LinksRead(t.fs.inodes[n]);
    assert Refs(t.order, t.entries, n) == LinkCount(t.fs.inodes, n);
  }

  lemma LinksRead(i: Inode)
    requires |i.addr| == 13
    ensures AsRead(i).nlink == i.nlink
  {
  }
}
