/** Who owns which block, read off the finished image itself. */
module Ownership {
  import opened Bytes
  import opened S5Reader
  import opened FileStore
  import opened FsModel
  import opened AllocInvariant
  import opened OnDisk
  import opened FreeList
  import opened Image

  function NonNull(xs: seq<nat>): seq<nat> {
    if xs == [] then [] else
      NonNull(xs[..|xs| - 1]) + (if xs[|xs| - 1] == 0 then [] else [xs[|xs| - 1]])
  }

  /** Every block the pointers of an inode lead to: data, single-indirect, double-indirect and inner blocks. */
  function Owned(d: seq<byte>, blk: seq<nat>): Option<seq<nat>>
    requires |blk| == 13
  {
    var single :- IndOrNone(d, blk[10]);
    var outer :- IndOrNone(d, blk[11]);
    var double :- Inner(d, outer);
    Some(NonNull(blk[..10]) + NonNull([blk[10]]) + NonNull(single)
         + NonNull([blk[11]]) + NonNull(outer) + NonNull(double))
  }

  /** How often block `b` occurs in `xs`. */
  function Times(xs: seq<nat>, b: nat): nat {
    if xs == [] then 0 else Times(xs[..|xs| - 1], b) + One(xs[|xs| - 1] == b)
  }

  lemma {:induction false} TimesAppend(xs: seq<nat>, ys: seq<nat>, b: nat)
    ensures Times(xs + ys, b) == Times(xs, b) + Times(ys, b)
  {
    if ys == [] {
      assert xs + ys == xs;
    } else {
      var init := ys[..|ys| - 1];
      TimesAppend(xs, init, b);
      assert (xs + ys)[..|xs + ys| - 1] == xs + init;
    }
  }

  lemma {:induction false} TimesRange(lo: nat, hi: nat, b: nat)
    ensures Times(Range(lo, hi), b) == One(lo <= b < hi)
    decreases hi
  {
    if lo < hi {
      TimesRange(lo, hi - 1, b);
      assert Range(lo, hi)[..hi - lo - 1] == Range(lo, hi - 1);
    }
  }

  lemma TimesOne(x: nat, b: nat)
    ensures Times([x], b) == One(x == b)
  {
    assert [x][..0] == [];
  }

  lemma {:induction false} NonNullFront(xs: seq<nat>, k: nat)
    requires k <= |xs|
    requires forall i :: 0 <= i < k ==> xs[i] != 0
    requires forall i :: k <= i < |xs| ==> xs[i] == 0
    ensures NonNull(xs) == xs[..k]
  {
    if |xs| > 0 {
      var init := xs[..|xs| - 1];
      if k == |xs| {
        NonNullFront(init, k - 1);
        assert xs[..k] == init[..k - 1] + [xs[k - 1]];
      } else {
        NonNullFront(init, k);
        assert xs[..k] == init[..k];
      }
    }
  }

  lemma NonNullOne(x: nat)
    ensures NonNull([x]) == if x == 0 then [] else [x]
  {
    NonNullFront([x], if x == 0 then 0 else 1);
    assert [x][..1] == [x];
  }

  lemma NonNullFill(xs: seq<nat>)
    requires |xs| <= 256 && forall i :: 0 <= i < |xs| ==> xs[i] != 0
    ensures NonNull(Fill(xs)) == xs
  {
    NonNullFront(Fill(xs), |xs|);
    assert Fill(xs)[..|xs|] == xs;
  }

  lemma NonNullDirect(lo: nat, n: nat)
    requires lo > 0
    ensures NonNull(Addrs(lo, n)[..10]) == Range(lo, lo + Min(n, 10))
  {
    NonNullFront(Addrs(lo, n)[..10], Min(n, 10));
    assert Addrs(lo, n)[..10][..Min(n, 10)] == Range(lo, lo + Min(n, 10));
  }

  lemma NonNullDeep(lo: nat, n: nat)
    requires n > 266
    ensures NonNull(DeepPtrs(lo, n)) == Range(lo + 266, lo + n)
  {
    NonNullFront(DeepPtrs(lo, n), n - 266);
    assert DeepPtrs(lo, n)[..n - 266] == Range(lo + 266, lo + n);
  }

  function SinglePart(lo: nat, n: nat): seq<nat> {
    if n > 10 then SinglePtrs(lo, n) else []
  }

  function OuterPart(lo: nat, n: nat): seq<nat> {
    if n > 266 then OuterPtrs(lo, n) else []
  }

  function DeepPart(lo: nat, n: nat): seq<nat> {
    if n > 266 then Range(lo + 266, lo + n) else []
  }

  function Opt(x: nat): seq<nat> {
    if x == 0 then [] else [x]
  }

  lemma SinglePartOf(d: seq<byte>, lo: nat, c: seq<byte>)
    requires Readable(d, lo, c)
    ensures var r := IndOrNone(d, AddrAt(lo, NBlocks(c), 10));
      r.Some? && NonNull(r.value) == SinglePart(lo, NBlocks(c))
  {
    SinglePtrsOf(d, lo, c);
    if NBlocks(c) > 10 {
      NonNullFill(SinglePtrs(lo, NBlocks(c)));
    }
  }

  lemma OuterPartOf(d: seq<byte>, lo: nat, c: seq<byte>)
    requires Readable(d, lo, c)
    ensures var r := IndOrNone(d, AddrAt(lo, NBlocks(c), 11));
      r.Some? && NonNull(r.value) == OuterPart(lo, NBlocks(c))
  {
    OuterPtrsOf(d, lo, c);
    if NBlocks(c) > 266 {
      NonNullFill(OuterPtrs(lo, NBlocks(c)));
    }
  }

  lemma DeepPartOf(d: seq<byte>, lo: nat, c: seq<byte>)
    requires Readable(d, lo, c)
    ensures var r := IndOrNone(d, AddrAt(lo, NBlocks(c), 11));
      r.Some? && Inner(d, r.value).Some? && NonNull(Inner(d, r.value).value) == DeepPart(lo, NBlocks(c))
  {
    OuterPtrsOf(d, lo, c);
    if NBlocks(c) > 266 {
      DoublePtrsOf(d, lo, c);
      NonNullDeep(lo, NBlocks(c));
    }
  }

  /** The groups of pointers of a stored file, as the image shows them. */
  lemma OwnedParts(d: seq<byte>, lo: nat, c: seq<byte>)
    requires Readable(d, lo, c)
    ensures var n := NBlocks(c);
      Owned(d, Addrs(lo, n)) == Some(
        Range(lo, lo + Min(n, 10)) + Opt(AddrAt(lo, n, 10)) + SinglePart(lo, n)
        + Opt(AddrAt(lo, n, 11)) + OuterPart(lo, n) + DeepPart(lo, n))
  {
    LoPositive(d, lo, c);
    hide Readable, IndOrNone, Inner, NonNull, SinglePart, OuterPart, DeepPart, NBlocks, AddrAt;
    var n := NBlocks(c);
    SinglePartOf(d, lo, c);
    OuterPartOf(d, lo, c);
    DeepPartOf(d, lo, c);
    NonNullDirect(lo, n);
    NonNullOne(AddrAt(lo, n, 10));
    NonNullOne(AddrAt(lo, n, 11));
  }

  lemma LoPositive(d: seq<byte>, lo: nat, c: seq<byte>)
    requires Readable(d, lo, c)
    ensures lo > 0
  {
  }

  lemma TimesSix(p: seq<nat>, q: seq<nat>, r: seq<nat>, s: seq<nat>, t: seq<nat>, u: seq<nat>, b: nat)
    ensures Times(p + q + r + s + t + u, b)
      == Times(p, b) + Times(q, b) + Times(r, b) + Times(s, b) + Times(t, b) + Times(u, b)
  {
    hide Times;
    TimesAppend(p, q, b);
    TimesAppend(p + q, r, b);
    TimesAppend(p + q + r, s, b);
    TimesAppend(p + q + r + s, t, b);
    TimesAppend(p + q + r + s + t, u, b);
  }

  lemma TimesOpt(x: nat, b: nat)
    ensures Times(Opt(x), b) == One(x == b && x != 0)
  {
    if x != 0 {
      TimesOne(x, b);
    }
  }

  /** A stored file owns each block of its run exactly once, whatever its role, and no other block. */
  lemma OwnsItsRun(d: seq<byte>, lo: nat, c: seq<byte>, b: nat)
    requires Readable(d, lo, c)
    ensures Owned(d, Addrs(lo, NBlocks(c))).Some?
    ensures Times(Owned(d, Addrs(lo, NBlocks(c))).value, b) == One(lo <= b < lo + Total(NBlocks(c)))
  {
    LoPositive(d, lo, c);
    hide Readable, NBlocks, Owned, Times;
    OwnedParts(d, lo, c);
    var n := NBlocks(c);
    TimesSix(Range(lo, lo + Min(n, 10)), Opt(AddrAt(lo, n, 10)), SinglePart(lo, n),
             Opt(AddrAt(lo, n, 11)), OuterPart(lo, n), DeepPart(lo, n), b);
    RunTimes(lo, n, b);
  }

  lemma RunTimes(lo: nat, n: nat, b: nat)
    requires lo > 0
    ensures Times(Range(lo, lo + Min(n, 10)), b) + Times(Opt(AddrAt(lo, n, 10)), b) + Times(SinglePart(lo, n), b)
      + Times(Opt(AddrAt(lo, n, 11)), b) + Times(OuterPart(lo, n), b) + Times(DeepPart(lo, n), b)
      == One(lo <= b < lo + Total(n))
  {
    TimesRange(lo, lo + Min(n, 10), b);
    TimesOpt(AddrAt(lo, n, 10), b);
    SingleTimes(lo, n, b);
    TimesOpt(AddrAt(lo, n, 11), b);
    OuterTimes(lo, n, b);
    DeepTimes(lo, n, b);
    hide Times, Range, SinglePart, OuterPart, DeepPart, Opt;
  }

  lemma SingleTimes(lo: nat, n: nat, b: nat)
    ensures Times(SinglePart(lo, n), b) == One(n > 10 && lo + 10 <= b < lo + Min(n, 266))
  {
    TimesRange(lo + 10, lo + Min(n, 266), b);
    assert Times([], b) == 0;
  }

  lemma OuterTimes(lo: nat, n: nat, b: nat)
    ensures Times(OuterPart(lo, n), b) == One(n > 266 && lo + n + 1 <= b < lo + n + 1 + Inners(n))
  {
    TimesRange(lo + n + 1, lo + n + 1 + Inners(n), b);
    assert Times([], b) == 0;
  }

  lemma DeepTimes(lo: nat, n: nat, b: nat)
    ensures Times(DeepPart(lo, n), b) == One(n > 266 && lo + 266 <= b < lo + n)
  {
    TimesRange(lo + 266, lo + n, b);
    assert Times([], b) == 0;
  }

  // --- all files ----------------------------------------------------------------------

  /** How often inode `n` owns block `b`. */
  function OwnedBy(d: seq<byte>, s: State, n: nat, b: nat): nat {
    if n in s.inodes && |s.inodes[n].addr| == 13 && Owned(d, AsRead(s.inodes[n]).blk).Some?
    then Times(Owned(d, AsRead(s.inodes[n]).blk).value, b) else 0
  }

  /** How often the first `k` files stored own block `b`, all together. */
  function OwnedByFirst(d: seq<byte>, s: State, k: nat, b: nat): nat
    requires k <= |s.stored|
  {
    if k == 0 then 0 else OwnedByFirst(d, s, k - 1, b) + OwnedBy(d, s, s.stored[k - 1].ino, b)
  }

  lemma FileOwns(d: seq<byte>, s: State, now: nat, fl: Cache, k: nat, b: nat)
    requires ImageOf(d, s, now, fl) && RunsTile(s) && FilesOk(s) && s.nextBlock <= 0x100_0000 && k < |s.stored|
    ensures OwnedBy(d, s, s.stored[k].ino, b) == One(s.stored[k].lo <= b < s.stored[k].End())
  {
    hide RunStart, RunsTile, FilesOk, SuperFits, SuperBytes, Represents, Holds, IList, Addrs, NBlocks, AsRead, Owned,
      Times, Total;
    var f := s.stored[k];
    RunInside(s, k);
    StoredAsRead(s, k);
    assert Holds(d, f.lo, f.content);
    OwnsItsRun(d, f.lo, f.content, b);
  }

  lemma {:induction false} FirstOwn(d: seq<byte>, s: State, now: nat, fl: Cache, k: nat, b: nat)
    requires ImageOf(d, s, now, fl) && RunsTile(s) && FilesOk(s) && s.nextBlock <= 0x100_0000 && k <= |s.stored|
    ensures OwnedByFirst(d, s, k, b) == One(s.FirstData() <= b < RunStart(s, k))
    decreases k
  {
    hide ImageOf, RunsTile, FilesOk, RunStart, OwnedBy;
    RunEnds(s);
    if k > 0 {
      FirstOwn(d, s, now, fl, k - 1, b);
      FileOwns(d, s, now, fl, k - 1, b);
      RunStep(s, k - 1);
      RunsOrdered(s, 0, k - 1);
    }
  }

  /** Every block in `[FirstData, nextBlock)` is owned exactly once, in one role of one stored file; no other is
      owned. */
  lemma OwnedExactlyOnce(d: seq<byte>, s: State, now: nat, fl: Cache, b: nat)
    requires ImageOf(d, s, now, fl) && RunsTile(s) && FilesOk(s) && s.nextBlock <= 0x100_0000
    ensures OwnedByFirst(d, s, |s.stored|, b) == One(s.FirstData() <= b < s.nextBlock)
  {
    hide ImageOf, RunsTile, FilesOk, RunStart, OwnedBy, OwnedByFirst;
    RunEnds(s);
    FirstOwn(d, s, now, fl, |s.stored|, b);
  }

  // --- the free list -------------------------------------------------------------------

  /** The cache the kernel finds in the superblock. */
  function SuperCache(d: seq<byte>): Cache
    requires |d| >= 1024
  {
    Cache(U16(d, 520), seq(50, i requires 0 <= i < 50 => U32(d, 524 + 4 * i)))
  }

  lemma CacheReads(d: seq<byte>, s: State, now: nat, fl: Cache)
    requires ImageOf(d, s, now, fl)
    ensures SuperCache(d) == fl
  {
    hide SuperBytes, Represents, Holds, IList, SuperFits, U32, U16;
    SuperReads(d, SuperOf(s, fl, now));
    assert SuperCache(d).free == fl.free;
  }

  /** Draining the list the superblock heads hands out `next_block` up to `nblocks - 1`, in order, and nothing more. */
  lemma DrainsAscending(d: seq<byte>, s: State, now: nat, fl: Cache, n: nat)
    requires ImageOf(d, s, now, fl) && n > s.nblocks
    ensures |d| >= 1024 && Drain(d, SuperCache(d), n) == Range(s.nextBlock, s.nblocks)
  {
    hide SuperBytes, Holds, IList, SuperFits, Represents, Drain, SuperCache;
    CacheReads(d, s, now, fl);
    var st := FreeStack(s.nextBlock, s.nblocks);
    StackOfFree(s.nextBlock, s.nblocks);
    DrainGivesStack(d, fl, st, n);
    assert Reverse(st[1..]) == Range(s.nextBlock, s.nblocks);
  }

  /** Boot block and superblock, i-list, files and free list partition the image: each block is in just one of
      them, once. `s_tfree` counts the free list. */
  lemma BlocksConserved(d: seq<byte>, s: State, now: nat, fl: Cache, b: nat)
    requires ImageOf(d, s, now, fl) && RunsTile(s) && FilesOk(s) && s.nextBlock <= 0x100_0000
    ensures |d| >= 1024 && U32(d, 516) == s.nblocks
    ensures One(b < 2) + One(2 <= b < U16(d, 512)) + OwnedByFirst(d, s, |s.stored|, b)
      + Times(Drain(d, SuperCache(d), s.nblocks + 1), b) == One(b < s.nblocks)
    ensures U32(d, 944) == |Drain(d, SuperCache(d), s.nblocks + 1)|
  {
    hide ImageOf, RunsTile, FilesOk, OwnedByFirst, Drain, SuperCache, U16, U32, Times, FreeInos;
    ImageSizes(d, s, now, fl);
    OwnedExactlyOnce(d, s, now, fl, b);
    DrainsAscending(d, s, now, fl, s.nblocks + 1);
    TimesRange(s.nextBlock, s.nblocks, b);
  }

  lemma ImageSizes(d: seq<byte>, s: State, now: nat, fl: Cache)
    requires ImageOf(d, s, now, fl)
    ensures |d| >= 1024 && U32(d, 516) == s.nblocks && s.FirstData() <= s.nextBlock <= s.nblocks
    ensures U16(d, 512) == s.FirstData() && U32(d, 944) == s.nblocks - s.nextBlock
    ensures U16(d, 948) == Spare(s.nextIno, s.ninodes + 1)
    ensures U16(d, 724) == |FreeInos(s)| && forall i :: 0 <= i < |FreeInos(s)| ==> U16(d, 726 + 2 * i) == FreeInos(s)[i]
  {
    hide SuperBytes, Represents, Holds, IList, SuperFits, U32, U16, FreeInos;
    SuperReads(d, SuperOf(s, fl, now));
  }

  // --- the inode table ------------------------------------------------------------------

  /** `next_ino - 1 + s_tinode == ninodes`; the i-list exactly fills blocks 2 up to `s_isize`; the cached free inodes
      are the first hundred numbers not handed out, and all of those read as empty inodes. */
  lemma InodesAccounted(d: seq<byte>, s: State, now: nat, fl: Cache)
    requires ImageOf(d, s, now, fl) && InodesOk(s) && s.nextIno <= s.ninodes
    ensures |d| >= 1024
    ensures s.nextIno - 1 + U16(d, 948) == s.ninodes
    ensures InodeOffset(1) == 2 * 1024
    ensures InodeOffset(s.ninodes) + 64 == U16(d, 512) * 1024
    ensures U16(d, 724) == Min(100, s.ninodes + 1 - s.nextIno)
    ensures forall i :: 0 <= i < U16(d, 724) ==> U16(d, 726 + 2 * i) == s.nextIno + i
    ensures forall n :: s.nextIno <= n <= s.ninodes ==> ReadInode(d, n) == Some(InodeRec(0, 0, 0, 0, 0, NoAddrs()))
  {
    hide ImageOf, InodesOk, ReadInode, U16, U32, NoAddrs;
    ImageSizes(d, s, now, fl);
    TableShape(d, s, now, fl);
    NotHandedOut(s, s.nextIno);
    FreeInosAre(s);
    forall i | 0 <= i < U16(d, 724)
      ensures U16(d, 726 + 2 * i) == s.nextIno + i
    {
      assert FreeInos(s)[i] == s.nextIno + i;
    }
    forall n | s.nextIno <= n <= s.ninodes
      ensures ReadInode(d, n) == Some(InodeRec(0, 0, 0, 0, 0, NoAddrs()))
    {
      NotHandedOut(s, n);
      FreeInodeReads(d, s, now, fl, n);
    }
  }

  lemma TableShape(d: seq<byte>, s: State, now: nat, fl: Cache)
    requires ImageOf(d, s, now, fl)
    ensures s.ninodes % 16 == 0
  {
    hide SuperBytes, Represents, Holds, IList, SuperFits;
  }

  lemma FreeInosAre(s: State)
    requires s.nextIno <= s.ninodes
    ensures |FreeInos(s)| == Min(100, s.ninodes + 1 - s.nextIno)
    ensures forall i :: 0 <= i < |FreeInos(s)| ==> FreeInos(s)[i] == s.nextIno + i
  {
  }

  lemma NotHandedOut(s: State, n: nat)
    requires InodesOk(s) && n >= s.nextIno
    ensures n !in s.inodes && n >= s.nextIno >= 2
  {
    hide IsStored;
  }
}
