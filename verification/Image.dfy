/** The finished image, and what the independent reader finds on it. */
module Image {
  import opened Bytes
  import opened S5Reader
  import opened FileStore
  import opened FsModel
  import opened TreeModel
  import opened AllocInvariant
  import opened Links
  import opened TreeInvariant
  import opened TreeFinish
  import opened OnDisk
  import opened FreeList

  // --- what is on the image ---------------------------------------------------------

  function SlotBytes(inodes: map<nat, Inode>, n: nat, now: nat): seq<byte> {
    if n in inodes && |inodes[n].addr| == 13 then PackedInode(inodes[n], now) else Zeros(64)
  }

  function Slot(d: seq<byte>, n: nat): seq<byte>
    requires InodeOffset(n) + 64 <= |d|
  {
    d[InodeOffset(n)..InodeOffset(n) + 64]
  }

  ghost predicate IList(d: seq<byte>, inodes: map<nat, Inode>, ninodes: nat, now: nat) {
    && 2048 + 64 * ninodes <= |d|
    && forall n :: 1 <= n <= ninodes ==> Slot(d, n) == SlotBytes(inodes, n, now)
  }

  /** The first hundred numbers not handed out, or all of them. */
  function FreeInos(s: State): (r: seq<nat>)
    ensures |r| <= 100
  {
    Slice(Range(s.nextIno, s.ninodes + 1), 0, 100)
  }

  function Spare(a: nat, b: nat): nat {
    if a <= b then b - a else 0
  }

  function SuperOf(s: State, fl: Cache, now: nat): Super {
    Super(s.ninodes / 16 + 2, s.nblocks, fl.nfree, fl.free, FreeInos(s), now,
          Spare(s.nextBlock, s.nblocks), Spare(s.nextIno, s.ninodes + 1))
  }

  /** Every inode fits its record and every count of the superblock its field. */
  ghost predicate Writable(s: State) {
    && (forall n :: n in s.inodes ==> Packable(s.inodes[n]))
    && s.ninodes / 16 + 2 < 0x1_0000
    && (forall i :: 0 <= i < |FreeInos(s)| ==> FreeInos(s)[i] < 0x1_0000)
    && Spare(s.nextIno, s.ninodes + 1) < 0x1_0000
  }

  /** The stack `build_free_list` leaves: the terminator, then the free blocks downwards. */
  function FreeStack(lo: nat, hi: nat): (st: seq<nat>)
    requires lo <= hi
    ensures |st| == hi - lo + 1 && st[0] == 0
    ensures forall i :: 1 <= i < |st| ==> st[i] == hi - i
  {
    seq(hi - lo + 1, i requires 0 <= i <= hi - lo => if i == 0 then 0 else hi - i)
  }

  /** `d` begins with a finished image of `s`. */
  ghost predicate ImageOf(d: seq<byte>, s: State, now: nat, fl: Cache) {
    && |d| >= s.nblocks * 1024 && s.nblocks <= 0xffff_ffff && 1024 <= |d|
    && s.ninodes % 16 == 0 && s.FirstData() <= s.nextBlock <= s.nblocks
    && (forall n :: n in s.inodes ==> Packable(s.inodes[n]))
    && (forall k :: 0 <= k < |s.stored| ==> Holds(d, s.stored[k].lo, s.stored[k].content))
    && IList(d, s.inodes, s.ninodes, now)
    && fl.nfree <= 50 == |fl.free|
    && SuperFits(SuperOf(s, fl, now))
    && d[512..1024] == SuperBytes(SuperOf(s, fl, now))
    && Represents(d, fl, FreeStack(s.nextBlock, s.nblocks))
  }

  // --- writing it ------------------------------------------------------------------

  lemma ThreeBytes(addr: seq<nat>, i: nat)
    requires |addr| == 13 && i < 13
    ensures AddrByte(addr, 3 * i) == addr[i] % 256
    ensures AddrByte(addr, 3 * i + 1) == addr[i] / 256 % 256
    ensures AddrByte(addr, 3 * i + 2) == addr[i] / 65536 % 256
  {
  }

  lemma LastByte(addr: seq<nat>)
    requires |addr| == 13
    ensures AddrByte(addr, 39) == 0
  {
  }

  lemma SlotAfter(d: seq<byte>, n: nat, blob: seq<byte>, m: nat)
    requires n > 0 && m > 0 && |blob| == 64
    requires InodeOffset(n) + 64 <= |d| && InodeOffset(m) + 64 <= |d|
    ensures var d' := Splice(d, InodeOffset(n), blob);
      Slot(d', m) == if m == n then blob else Slot(d, m)
  {
    var d' := Splice(d, InodeOffset(n), blob);
    assert forall k :: InodeOffset(m) <= k < InodeOffset(m) + 64 ==>
      d'[k] == if m == n then blob[k - InodeOffset(n)] else d[k];
  }

  /** The slots of the first inodes, those below `n`, are written. */
  ghost predicate SlotsTo(d: seq<byte>, inodes: map<nat, Inode>, n: nat, now: nat) {
    n >= 1 && 2048 + 64 * (n - 1) <= |d| && forall m :: 1 <= m < n ==> Slot(d, m) == SlotBytes(inodes, m, now)
  }

  lemma NextSlot(d: seq<byte>, inodes: map<nat, Inode>, n: nat, now: nat)
    requires SlotsTo(d, inodes, n, now) && 2048 + 64 * n <= |d| && |SlotBytes(inodes, n, now)| == 64
    ensures SlotsTo(Splice(d, 2048 + (n - 1) * 64, SlotBytes(inodes, n, now)), inodes, n + 1, now)
  {
    hide SlotBytes, Splice;
    var blob := SlotBytes(inodes, n, now);
    var d' := Splice(d, 2048 + (n - 1) * 64, blob);
    forall m | 1 <= m < n + 1
      ensures Slot(d', m) == SlotBytes(inodes, m, now)
    {
      SlotAfter(d, n, blob, m);
    }
  }

  lemma SlotsNone(d: seq<byte>, inodes: map<nat, Inode>, now: nat)
    requires 2048 <= |d|
    ensures SlotsTo(d, inodes, 1, now)
  {
  }

  lemma SlotsDone(d: seq<byte>, inodes: map<nat, Inode>, ninodes: nat, now: nat)
    requires SlotsTo(d, inodes, ninodes + 1, now)
    ensures IList(d, inodes, ninodes, now)
  {
    hide SlotBytes;
  }

  /** `[0] * NICFREE` */
  function NoBlocks(): (r: seq<nat>)
    ensures |r| == 50 && forall i :: 0 <= i < 50 ==> r[i] == 0
  {
    seq(50, _ => 0)
  }

  /** `bfree(0)` on an empty cache leaves the terminator. */
  lemma FreeStart(d: seq<byte>, hi: nat, lo: nat)
    ensures Free(d, Cache(0, NoBlocks()), 0) == (d, Cache(1, NoBlocks()[0 := 0]))
    ensures CacheFits(Cache(1, NoBlocks()[0 := 0]))
    ensures Represents(d, Cache(1, NoBlocks()[0 := 0]), FreeStack(hi, hi))
    ensures SameBelow(d, d, lo)
  {
    hide LoadBlock, SaveBlock, FreeStack, Represents;
    var fl := Cache(1, NoBlocks()[0 := 0]);
    OneEntry(fl.free, hi);
    RepresentsIntro(d, fl, []);
  }

  lemma OneEntry(free: seq<nat>, hi: nat)
    requires |free| == 50 && free[0] == 0
    ensures [] + free[..1] == FreeStack(hi, hi)
  {
    assert |FreeStack(hi, hi)| == 1;
  }

  lemma CacheSize(fl: Cache)
    requires CacheFits(fl)
    ensures fl.nfree <= 50 == |fl.free|
  {
  }

  lemma SpliceNothing(s: seq<byte>, off: nat)
    requires off <= |s|
    ensures Splice(s, off, Words([])) == s && Splice(s, off, Words16([])) == s
  {
  }

  lemma SpliceJoin(s: seq<byte>, off: nat, a: seq<byte>, b: seq<byte>)
    requires off + |a| + |b| <= |s|
    ensures Splice(Splice(s, off, a), off + |a|, b) == Splice(s, off, a + b)
  {
  }

  lemma NextWord(s: seq<byte>, off: nat, xs: seq<nat>, i: nat)
    requires i < |xs| && off + 4 * i + 4 <= |s|
    ensures Splice(Splice(s, off, Words(xs[..i])), off + 4 * i, LE32(xs[i])) == Splice(s, off, Words(xs[..i + 1]))
  {
    assert xs[..i + 1][..i] == xs[..i];
    hide LE32, Splice;
    SpliceJoin(s, off, Words(xs[..i]), LE32(xs[i]));
  }

  lemma NextWord16(s: seq<byte>, off: nat, xs: seq<nat>, i: nat)
    requires i < |xs| && off + 2 * i + 2 <= |s|
    ensures Splice(Splice(s, off, Words16(xs[..i])), off + 2 * i, LE16(xs[i])) == Splice(s, off, Words16(xs[..i + 1]))
  {
    assert xs[..i + 1][..i] == xs[..i];
    hide LE16, Splice;
    SpliceJoin(s, off, Words16(xs[..i]), LE16(xs[i]));
  }

  ghost predicate SameBelow(d0: seq<byte>, d: seq<byte>, n: nat) {
    |d| == |d0| && forall k :: 0 <= k < n && k < |d| ==> d[k] == d0[k]
  }

  predicate CacheFits(fl: Cache) {
    fl.nfree <= 50 == |fl.free| && forall i :: 0 <= i < 50 ==> fl.free[i] < 0x1_0000_0000
  }

  /** One turn of the loop that frees blocks downwards. */
  lemma FreeNext(d0: seq<byte>, d: seq<byte>, fl: Cache, b: nat, lo: nat, hi: nat)
    requires 0 < lo <= b < hi <= 0xffff_ffff && hi * 1024 == |d|
    requires CacheFits(fl) && Represents(d, fl, FreeStack(b + 1, hi)) && SameBelow(d0, d, lo * 1024)
    ensures var (d', fl') := Free(d, fl, b);
      CacheFits(fl') && Represents(d', fl', FreeStack(b, hi)) && SameBelow(d0, d', lo * 1024)
  {
    hide Represents, SaveBlock;
    FreePushes(d, fl, FreeStack(b + 1, hi), b);
    assert FreeStack(b + 1, hi) + [b] == FreeStack(b, hi);
  }

  lemma HoldsSame(d0: seq<byte>, d: seq<byte>, f: Stored, lo: nat, hi: nat)
    requires Holds(d0, f.lo, f.content) && |d| >= |d0|
    requires lo <= f.lo && f.End() <= hi
    requires forall k :: lo * 1024 <= k < hi * 1024 && k < |d0| ==> d[k] == d0[k]
    ensures Holds(d, f.lo, f.content)
  {
    hide BlockContent;
    forall i | 0 <= i < Total(NBlocks(f.content))
      ensures Blk(d, f.lo + i) == BlockContent(f.lo, f.content, i)
    {
      BlkSame(d0, d, f.lo + i);
    }
  }

  lemma BlkSame(d0: seq<byte>, d: seq<byte>, b: nat)
    requires |d| >= |d0| && b > 0 && (b + 1) * 1024 <= |d0|
    requires forall k :: b * 1024 <= k < (b + 1) * 1024 ==> d[k] == d0[k]
    ensures Blk(d, b) == Blk(d0, b)
  {
  }

  ghost predicate FilesHeld(d: seq<byte>, s: State) {
    forall k :: 0 <= k < |s.stored| ==> Holds(d, s.stored[k].lo, s.stored[k].content)
  }

  /** Files survive any write outside `[FirstData, nextBlock)`. */
  lemma FilesSurvive(d0: seq<byte>, d: seq<byte>, s: State)
    requires FilesHeld(d0, s) && RunsTile(s) && |d| >= |d0|
    requires forall k :: s.FirstData() * 1024 <= k < s.nextBlock * 1024 && k < |d0| ==> d[k] == d0[k]
    ensures FilesHeld(d, s)
  {
    hide RunsTile, Holds;
    forall k | 0 <= k < |s.stored|
      ensures Holds(d, s.stored[k].lo, s.stored[k].content)
    {
      RunInside(s, k);
      HoldsSame(d0, d, s.stored[k], s.FirstData(), s.nextBlock);
    }
  }

  lemma IListSurvives(d0: seq<byte>, d: seq<byte>, inodes: map<nat, Inode>, ninodes: nat, now: nat)
    requires IList(d0, inodes, ninodes, now) && |d| >= |d0|
    requires forall k :: 2048 <= k < 2048 + 64 * ninodes ==> d[k] == d0[k]
    ensures IList(d, inodes, ninodes, now)
  {
    forall n | 1 <= n <= ninodes
      ensures Slot(d, n) == SlotBytes(inodes, n, now)
    {
      assert Slot(d0, n) == SlotBytes(inodes, n, now);
      assert Slot(d, n) == Slot(d0, n);
    }
  }

  /** The three last writes in turn: i-list, free list, superblock. Each leaves the earlier ones and every file
      alone. */
  lemma ImageAssembled(d0: seq<byte>, d1: seq<byte>, d2: seq<byte>, s: State, now: nat, fl: Cache)
    requires FilesHeld(d0, s) && RunsTile(s) && s.ninodes % 16 == 0
    requires |d0| == |d1| == |d2| == s.nblocks * 1024 && s.nblocks <= 0xffff_ffff
    requires s.FirstData() <= s.nextBlock <= s.nblocks
    requires forall n :: n in s.inodes ==> Packable(s.inodes[n])
    requires IList(d1, s.inodes, s.ninodes, now)
    requires forall k :: s.FirstData() * 1024 <= k < |d0| ==> d1[k] == d0[k]
    requires Represents(d2, fl, FreeStack(s.nextBlock, s.nblocks)) && fl.nfree <= 50 == |fl.free|
    requires forall k :: 0 <= k < s.nextBlock * 1024 ==> d2[k] == d1[k]
    requires SuperFits(SuperOf(s, fl, now))
    ensures ImageOf(Splice(d2, 512, SuperBytes(SuperOf(s, fl, now))), s, now, fl)
  {
    hide RunsTile, IList, Represents, SuperFits, SuperBytes, Packable, Holds;
    var d := Splice(d2, 512, SuperBytes(SuperOf(s, fl, now)));
    assert forall k :: 1024 <= k < |d| ==> d[k] == d2[k];
    assert d[512..1024] == SuperBytes(SuperOf(s, fl, now));
    FilesSurvive(d0, d, s);
    IListSurvives(d1, d, s.inodes, s.ninodes, now);
    StackOfFree(s.nextBlock, s.nblocks);
    BelowIsFree(d2, d, fl, FreeStack(s.nextBlock, s.nblocks), s.nextBlock);
  }

  lemma StackOfFree(lo: nat, hi: nat)
    requires 0 < lo <= hi <= 0xffff_ffff
    ensures IsStack(FreeStack(lo, hi)) && AllFrom(FreeStack(lo, hi), lo)
  {
  }

  /** Any change to the boot sector, such as a 92-byte disktab, keeps the image. */
  lemma BootSectorIsFree(d: seq<byte>, header: seq<byte>, s: State, now: nat, fl: Cache)
    requires ImageOf(d, s, now, fl) && RunsTile(s) && |header| <= 512
    ensures ImageOf(Splice(d, 0, header), s, now, fl)
  {
    hide RunsTile, IList, Represents, SuperFits, SuperBytes, Packable, Holds;
    var d' := Splice(d, 0, header);
    assert forall k :: 512 <= k < |d| ==> d'[k] == d[k];
    assert d'[512..1024] == d[512..1024];
    assert FilesHeld(d, s);
    FilesSurvive(d, d', s);
    IListSurvives(d, d', s.inodes, s.ninodes, now);
    StackOfFree(s.nextBlock, s.nblocks);
    BelowIsFree(d, d', fl, FreeStack(s.nextBlock, s.nblocks), s.nextBlock);
  }

  /** An image laid over the start of something longer is still there. */
  lemma ImageExtends(d: seq<byte>, rest: seq<byte>, s: State, now: nat, fl: Cache)
    requires ImageOf(d, s, now, fl) && RunsTile(s)
    ensures ImageOf(d + rest, s, now, fl)
  {
    hide RunsTile, IList, Represents, SuperFits, SuperBytes, Packable, Holds;
    var d' := d + rest;
    assert d'[512..1024] == d[512..1024];
    assert FilesHeld(d, s);
    FilesSurvive(d, d', s);
    IListFits(d, s, now, fl);
    IListSurvives(d, d', s.inodes, s.ninodes, now);
    StackOfFree(s.nextBlock, s.nblocks);
    BelowIsFree(d, d', fl, FreeStack(s.nextBlock, s.nblocks), s.nextBlock);
  }

  lemma IListFits(d: seq<byte>, s: State, now: nat, fl: Cache)
    requires ImageOf(d, s, now, fl)
    ensures IList(d, s.inodes, s.ninodes, now) && 2048 + 64 * s.ninodes <= |d|
  {
    hide Represents, SuperFits, SuperBytes, Packable, Holds;
  }

  lemma NextWithin(d: seq<byte>, s: State, now: nat, fl: Cache)
    requires ImageOf(d, s, now, fl)
    ensures s.nextBlock * 1024 <= |d|
  {
    hide Represents, SuperFits, SuperBytes, IList;
  }

  /** The root directory has content, so the image has room for the i-list and at least one block more. */
  lemma RoomForRoot(t: Tree)
    requires Finished(t)
    ensures t.fs.FirstData() < t.fs.nextBlock <= t.fs.nblocks
  {
    hide Finished, InodesOk, RunsTile, FilesOk, NumsOk, ModesOk, RunStart;
    FinishedParts(t);
    var k := DirLog(t, "/");
    RootHasEntries(t);
    RunInside(t.fs, k);
    RunsFit(t.fs);
  }

  lemma RootHasEntries(t: Tree)
    requires Finished(t)
    ensures "/" in t.dirs && "/" in t.entries && t.entries["/"] != []
  {
    hide AllocOk, NumsOk, LinksOk, ModesOk, AllDirsStored, HasSlash, ParentPath, BaseName, LastSlash;
    assert DirShape(t.dirs, t.entries, "/");
  }

  lemma RunsFit(s: State)
    requires RunsTile(s)
    ensures s.nextBlock <= s.nblocks || s.nextBlock == s.FirstData()
  {
    hide NBlocks, Total;
  }

  // --- inodes and files -------------------------------------------------------------

  lemma InodeReads(d: seq<byte>, s: State, now: nat, fl: Cache, n: nat)
    requires ImageOf(d, s, now, fl) && n in s.inodes && 1 <= n <= s.ninodes
    ensures ReadInode(d, n) == Some(AsRead(s.inodes[n]))
  {
    hide SuperFits, SuperBytes, Represents, Holds, PackedInode, AsRead, ReadInode;
    assert Packable(s.inodes[n]);
    assert Slot(d, n) == SlotBytes(s.inodes, n, now);
    InodeRoundTrip(d, n, s.inodes[n], now);
  }

  /** A number that was not handed out reads as an empty inode. */
  lemma FreeInodeReads(d: seq<byte>, s: State, now: nat, fl: Cache, n: nat)
    requires ImageOf(d, s, now, fl) && n !in s.inodes && 1 <= n <= s.ninodes
    ensures ReadInode(d, n) == Some(InodeRec(0, 0, 0, 0, 0, NoAddrs()))
  {
    hide SuperFits, SuperBytes, Represents, Holds, PackedInode, Packable;
    assert Slot(d, n) == SlotBytes(s.inodes, n, now) == Zeros(64);
    var e := Slice(d, InodeOffset(n), InodeOffset(n) + 64);
    assert e == Slot(d, n);
    ZeroInode(e);
  }

  lemma ZeroInode(e: seq<byte>)
    requires e == Zeros(64)
    ensures U16(e, 0) == 0 && I16(e, 2) == 0 && U16(e, 4) == 0 && U16(e, 6) == 0 && U32(e, 8) == 0
    ensures seq(13, i requires 0 <= i < 13 => U24(e, 12 + 3 * i)) == NoAddrs()
  {
  }

  lemma {:induction false} RunsOrdered(s: State, j: nat, k: nat)
    requires RunsTile(s) && j <= k <= |s.stored|
    ensures RunStart(s, j) <= RunStart(s, k)
    ensures j < k ==> s.stored[j].End() <= RunStart(s, k)
    decreases k - j
  {
    hide RunStart, RunsTile;
    if j < k {
      RunsOrdered(s, j + 1, k);
      RunStep(s, j);
    }
  }

  lemma RunStep(s: State, j: nat)
    requires RunsTile(s) && j < |s.stored|
    ensures s.stored[j].lo == RunStart(s, j) <= s.stored[j].End() == RunStart(s, j + 1)
  {
    hide NBlocks, Total;
  }

  /** Every stored file lies in `[FirstData, nextBlock)`. */
  lemma RunInside(s: State, k: nat)
    requires RunsTile(s) && k < |s.stored|
    ensures s.FirstData() <= s.stored[k].lo <= s.stored[k].End() <= s.nextBlock
  {
    hide RunsTile, RunStart;
    RunsOrdered(s, 0, k);
    RunsOrdered(s, k, |s.stored|);
    RunStep(s, k);
    RunEnds(s);
  }

  lemma RunEnds(s: State)
    requires RunsTile(s)
    ensures RunStart(s, 0) == s.FirstData() && RunStart(s, |s.stored|) == s.nextBlock
  {
  }

  lemma StoredAsRead(s: State, k: nat)
    requires RunsTile(s) && FilesOk(s) && k < |s.stored| && s.nextBlock <= 0x100_0000
    ensures var f := s.stored[k];
      && f.ino in s.inodes && |s.inodes[f.ino].addr| == 13
      && AsRead(s.inodes[f.ino]).blk == Addrs(f.lo, NBlocks(f.content))
      && AsRead(s.inodes[f.ino]).size == |f.content|
  {
    hide AsRead, Addrs, NBlocks, RunsTile, Total;
    var f := s.stored[k];
    RunInside(s, k);
    assert FileOk(s, f);
    AddrsBelow(f.lo, NBlocks(f.content), 0x100_0000);
    NarrowAddrs(s.inodes[f.ino]);
  }

  lemma NarrowAddrs(i: Inode)
    requires |i.addr| == 13 && forall k :: 0 <= k < 13 ==> i.addr[k] < 0x100_0000
    ensures AsRead(i).blk == i.addr && AsRead(i).size == i.size
  {
  }

  lemma AddrsBelow(lo: nat, n: nat, limit: nat)
    requires lo + Total(n) <= limit && 0 < limit
    ensures forall i :: 0 <= i < 13 ==> Addrs(lo, n)[i] < limit
  {
    forall i | 0 <= i < 13
      ensures Addrs(lo, n)[i] < limit
    {
      AddrBelow(lo, n, i);
    }
  }

  lemma AddrBelow(lo: nat, n: nat, i: nat)
    requires i < 13
    ensures AddrAt(lo, n, i) == 0 || lo <= AddrAt(lo, n, i) < lo + Total(n)
  {
  }

  /** `S5.data` of every stored file returns the content it was given. */
  lemma FileReads(d: seq<byte>, s: State, now: nat, fl: Cache, k: nat)
    requires ImageOf(d, s, now, fl) && RunsTile(s) && FilesOk(s) && s.nextBlock <= 0x100_0000
    requires k < |s.stored|
    ensures s.stored[k].ino in s.inodes && |s.inodes[s.stored[k].ino].addr| == 13
    ensures Data(d, AsRead(s.inodes[s.stored[k].ino])) == Some(s.stored[k].content)
  {
    hide RunStart, RunsTile, FilesOk, SuperFits, SuperBytes, Represents, Holds, IList, Addrs, NBlocks, AsRead;
    var f := s.stored[k];
    RunInside(s, k);
    StoredAsRead(s, k);
    assert Holds(d, f.lo, f.content);
    DataInvertsStore(d, f.lo, f.content, AsRead(s.inodes[f.ino]));
  }

  // --- directories ------------------------------------------------------------------

  lemma FinishedParts(t: Tree)
    requires Finished(t)
    ensures RunsTile(t.fs) && FilesOk(t.fs) && InodesOk(t.fs) && KeysOk(t)
    ensures NumsOk(t.dirs, t.entries, t.fs.inodes) && ModesOk(t.dirs, t.fs.inodes)
  {
    hide RunsTile, FilesOk, InodesOk, KeysOk, NumsOk, LinksOk, ShapeOk, ModesOk, AllDirsStored;
  }

  lemma NumbersInRange(s: State, n: nat)
    requires InodesOk(s) && n in s.inodes
    ensures 2 <= n < s.nextIno && |s.inodes[n].addr| == 13
  {
    hide IsStored;
  }

  lemma EntriesNamed(dirs: map<string, nat>, entries: map<string, seq<Entry>>, inodes: map<nat, Inode>, p: string)
    requires NumsOk(dirs, entries, inodes) && p in entries
    ensures forall i :: 0 <= i < |entries[p]| ==> entries[p][i].num in inodes
  {
  }

  lemma EntriesExist(t: Tree, p: string)
    requires NumsOk(t.dirs, t.entries, t.fs.inodes) && InodesOk(t.fs) && p in t.entries
    ensures var ents := t.entries[p];
      forall i :: 0 <= i < |ents| ==> ents[i].num in t.fs.inodes && ents[i].num != 0
  {
    hide NumsOk, InodesOk;
    EntriesNamed(t.dirs, t.entries, t.fs.inodes, p);
    NumsNotNull(t.fs, t.entries[p]);
  }

  lemma NumsNotNull(s: State, ents: seq<Entry>)
    requires InodesOk(s) && forall i :: 0 <= i < |ents| ==> ents[i].num in s.inodes
    ensures forall i :: 0 <= i < |ents| ==> ents[i].num != 0
  {
    hide InodesOk;
    forall i | 0 <= i < |ents|
      ensures ents[i].num != 0
    {
      NumbersInRange(s, ents[i].num);
    }
  }

  /** Which stored file a directory is. */
  lemma DirLog(t: Tree, p: string) returns (k: nat)
    requires Finished(t) && p in t.dirs
    ensures k < |t.fs.stored| && t.fs.stored[k].ino == t.dirs[p]
    ensures p in t.entries && Blob(t.entries[p]) == Success(t.fs.stored[k].content)
  {
    hide AllocOk, NumsOk, LinksOk, ShapeOk, ModesOk, Blob;
    assert DirStored(t, p);
    var lo :| Stored(t.dirs[p], lo, Blob(t.entries[p]).value) in t.fs.stored;
    k :| 0 <= k < |t.fs.stored| && t.fs.stored[k] == Stored(t.dirs[p], lo, Blob(t.entries[p]).value);
  }

  lemma NumbersInTable(t: Tree, n: nat)
    requires Finished(t) && n in t.fs.inodes
    ensures 2 <= n < t.fs.nextIno <= t.fs.ninodes && |t.fs.inodes[n].addr| == 13
  {
    hide Finished, NumsOk, InodesOk, RunsTile, FilesOk, ModesOk;
    FinishedParts(t);
    NumbersInRange(t.fs, n);
  }

  lemma DirNumExists(t: Tree, p: string)
    requires Finished(t) && p in t.dirs
    ensures p in t.entries && t.dirs[p] in t.fs.inodes
  {
    hide Finished, InodesOk, RunsTile, FilesOk, ModesOk;
    FinishedParts(t);
  }

  /** `readdir` of a directory returns its entries, in order, with the names cut at a NUL. */
  lemma DirReads(d: seq<byte>, t: Tree, now: nat, fl: Cache, p: string)
    requires ImageOf(d, t.fs, now, fl) && Finished(t) && t.fs.nextBlock <= 0x100_0000 && p in t.dirs
    ensures p in t.entries && ReadDir(d, t.dirs[p]) == Some(AsNamed(t.entries[p]))
  {
    hide ImageOf, Finished, ReadInode, Data, Blob, DirEntries, AsRead, RunsTile, FilesOk, KeysOk, InodesOk, NumsOk,
      ModesOk;
    var k := DirLog(t, p);
    FinishedParts(t);
    DirNumExists(t, p);
    FileReads(d, t.fs, now, fl, k);
    NumbersInTable(t, t.dirs[p]);
    InodeReads(d, t.fs, now, fl, t.dirs[p]);
    EntriesExist(t, p);
    BlobReads(t.entries[p], 0);
    assert AsNamed(t.entries[p])[0..] == AsNamed(t.entries[p]);
  }

  // --- the walk ---------------------------------------------------------------------

  ghost function PathOf(dirs: map<string, nat>, n: nat): string
    requires IsDirNum(dirs, n)
  {
    var p :| p in dirs && dirs[p] == n; p
  }

  function RecordOf(t: Tree, n: nat): InodeRec {
    if n in t.fs.inodes && |t.fs.inodes[n].addr| == 13 then AsRead(t.fs.inodes[n])
    else InodeRec(0, 0, 0, 0, 0, NoAddrs())
  }

  /** The pre-order listing of `entries` below directory `n`, as deep as the reader goes. */
  ghost function Listing(t: Tree, n: nat, path: string, depth: nat): seq<Item>
    decreases DepthLeft(depth), 1, 0
  {
    if IsDirNum(t.dirs, n) && PathOf(t.dirs, n) in t.entries
    then ListEntries(t, AsNamed(t.entries[PathOf(t.dirs, n)]), path, depth)
    else []
  }

  ghost function ListEntries(t: Tree, ents: seq<Entry>, path: string, depth: nat): seq<Item>
    decreases DepthLeft(depth), 0, |ents|
  {
    if ents == [] then [] else
    if ents[0].name == "." || ents[0].name == ".." then ListEntries(t, ents[1..], path, depth) else
      var n, p := ents[0].num, path + "/" + ents[0].name;
      var below := if IsDir(RecordOf(t, n).mode) && depth < 12 then Listing(t, n, p, depth + 1) else [];
      [Item(p, n, RecordOf(t, n))] + below + ListEntries(t, ents[1..], path, depth)
  }

  lemma DirByMode(t: Tree, n: nat)
    requires Finished(t) && n in t.fs.inodes
    ensures RecordOf(t, n) == AsRead(t.fs.inodes[n])
    ensures IsDir(RecordOf(t, n).mode) ==> IsDirNum(t.dirs, n)
  {
    hide Finished, InodesOk, RunsTile, FilesOk, NumsOk, KeysOk, IsDir, IsDirNum, AsRead;
    NumbersInTable(t, n);
    FinishedParts(t);
    assert AsRead(t.fs.inodes[n]).mode == t.fs.inodes[n].mode by {
      ModeAsRead(t.fs.inodes[n]);
    }
  }

  lemma ModeAsRead(i: Inode)
    requires |i.addr| == 13
    ensures AsRead(i).mode == i.mode
  {
  }

  lemma PathOfDir(t: Tree, n: nat)
    requires IsDirNum(t.dirs, n)
    ensures var p := PathOf(t.dirs, n); p in t.dirs && t.dirs[p] == n
  {
  }

  /** Whatever the tree, hard links to directories included, the reader's walk is its listing. */
  lemma {:induction false} WalkIsListing(d: seq<byte>, t: Tree, now: nat, fl: Cache, n: nat, path: string, depth: nat)
    requires ImageOf(d, t.fs, now, fl) && Finished(t) && t.fs.nextBlock <= 0x100_0000 && IsDirNum(t.dirs, n)
    ensures Walk(d, n, path, depth) == Some(Listing(t, n, path, depth))
    decreases DepthLeft(depth), 1, 0
  {
    hide ImageOf, Finished, ReadDir, IsDirNum, AsNamed, PathOf, NumsOk, InodesOk, RunsTile, FilesOk, KeysOk, ModesOk;
    FinishedParts(t);
    var p := PathOf(t.dirs, n);
    PathOfDir(t, n);
    DirReads(d, t, now, fl, p);
    EntriesExist(t, p);
    NamedNums(t.entries[p], t.fs.inodes);
    WalkEntriesIsListing(d, t, now, fl, AsNamed(t.entries[p]), path, depth);
  }

  lemma NamedNums(ents: seq<Entry>, inodes: map<nat, Inode>)
    requires forall i :: 0 <= i < |ents| ==> ents[i].num in inodes
    ensures forall i :: 0 <= i < |ents| ==> AsNamed(ents)[i].num in inodes
  {
  }

  lemma {:induction false} WalkEntriesIsListing(d: seq<byte>, t: Tree, now: nat, fl: Cache, ents: seq<Entry>,
                                                path: string, depth: nat)
    requires ImageOf(d, t.fs, now, fl) && Finished(t) && t.fs.nextBlock <= 0x100_0000
    requires forall i :: 0 <= i < |ents| ==> ents[i].num in t.fs.inodes
    ensures WalkEntries(d, ents, path, depth) == Some(ListEntries(t, ents, path, depth))
    decreases DepthLeft(depth), 0, |ents|
  {
    hide ImageOf, Finished, ReadInode, IsDirNum, IsDir, RecordOf, AsRead, Walk, Listing;
    if ents != [] {
      var n, p := ents[0].num, path + "/" + ents[0].name;
      WalkEntriesIsListing(d, t, now, fl, ents[1..], path, depth);
      if ents[0].name != "." && ents[0].name != ".." {
        NumbersInTable(t, n);
        InodeReads(d, t.fs, now, fl, n);
        DirByMode(t, n);
        if IsDir(RecordOf(t, n).mode) && depth < 12 {
          WalkIsListing(d, t, now, fl, n, p, depth + 1);
        }
      }
    }
  }
}
