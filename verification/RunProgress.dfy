/** Writing a run of blocks one at a time, and what that leaves alone. */
module RunProgress {
  import opened Bytes
  import opened S5Reader
  import opened FileStore
  import opened FsModel

  // --- how far a run of blocks has been written ------------------------------

  ghost predicate ZeroFrom(d: seq<byte>, from: nat) {
    forall i :: from <= i < |d| ==> d[i] == 0
  }

  /** `d` is `d0` with the first `i` blocks of the run for `c` at `lo` written, and nothing after them. */
  ghost predicate Progress(d0: seq<byte>, d: seq<byte>, lo: nat, c: seq<byte>, i: nat) {
    && lo > 0
    && |d| == |d0|
    && (i > 0 ==> (lo + i) * 1024 <= |d|)
    && (forall k :: 0 <= k < lo * 1024 && k < |d| ==> d[k] == d0[k])
    && ZeroFrom(d, (lo + i) * 1024)
    && forall j :: 0 <= j < i ==> Blk(d, lo + j) == BlockContent(lo, c, j)
  }

  lemma SpliceBlk(d: seq<byte>, b: nat, buf: seq<byte>, j: nat)
    requires |buf| <= 1024 && j > 0
    requires (b + 1) * 1024 <= |d| && (j + 1) * 1024 <= |d|
    ensures j != b ==> Blk(Splice(d, b * 1024, buf), j) == Blk(d, j)
    ensures j == b && ZeroFrom(d, b * 1024) ==> Blk(Splice(d, b * 1024, buf), j) == Pad(buf, 1024)
  {
    var d' := Splice(d, b * 1024, buf);
    if j != b {
      assert forall k :: j * 1024 <= k < (j + 1) * 1024 ==> d'[k] == d[k];
    } else if ZeroFrom(d, b * 1024) {
      forall k | 0 <= k < 1024
        ensures Blk(d', j)[k] == Pad(buf, 1024)[k]
      {
        assert d'[b * 1024 + k] == if k < |buf| then buf[k] else 0;
      }
    }
  }

  lemma ProgressStep(d0: seq<byte>, d: seq<byte>, lo: nat, c: seq<byte>, i: nat, buf: seq<byte>)
    requires Progress(d0, d, lo, c, i)
    requires |buf| <= 1024 && (lo + i + 1) * 1024 <= |d|
    requires Pad(buf, 1024) == BlockContent(lo, c, i)
    ensures Progress(d0, Splice(d, (lo + i) * 1024, buf), lo, c, i + 1)
  {
    hide Blk, BlockContent, Pad;
    var d' := Splice(d, (lo + i) * 1024, buf);
    forall j | 0 <= j < i + 1
      ensures Blk(d', lo + j) == BlockContent(lo, c, j)
    {
      SpliceBlk(d, lo + i, buf, lo + j);
    }
    assert forall k :: (lo + i + 1) * 1024 <= k < |d'| ==> d'[k] == d[k];
  }

  lemma ProgressHolds(d0: seq<byte>, d: seq<byte>, lo: nat, c: seq<byte>)
    requires NBlocks(c) <= MAX_BLOCKS
    requires Progress(d0, d, lo, c, Total(NBlocks(c)))
    ensures Holds(d, lo, c)
  {
  }

  lemma ProgressStart(d: seq<byte>, firstData: nat, stored: seq<Stored>, lo: nat, c: seq<byte>)
    requires Coupled(d, firstData, lo, stored) && lo > 0
    ensures Progress(d, d, lo, c, 0)
  {
  }

  /** A finished run joins the stored files and disturbs none of them. */
  lemma RunCoupled(d0: seq<byte>, d: seq<byte>, firstData: nat, stored: seq<Stored>, f: Stored)
    requires Coupled(d0, firstData, f.lo, stored) && 0 < firstData <= f.lo
    requires NBlocks(f.content) <= MAX_BLOCKS
    requires Progress(d0, d, f.lo, f.content, Total(NBlocks(f.content)))
    ensures Coupled(d, firstData, f.End(), stored + [f])
  {
    ProgressHolds(d0, d, f.lo, f.content);
    forall k | 0 <= k < |stored|
      ensures Holds(d, stored[k].lo, stored[k].content)
    {
      HoldsFrame(d0, d, f.lo * 1024, stored[k]);
    }
  }

  /** A stored file survives any change to bytes past its run. */
  lemma HoldsFrame(d0: seq<byte>, d: seq<byte>, limit: nat, f: Stored)
    requires Holds(d0, f.lo, f.content) && |d| == |d0|
    requires f.End() * 1024 <= limit
    requires forall k :: f.lo * 1024 <= k < limit && k < |d| ==> d[k] == d0[k]
    ensures Holds(d, f.lo, f.content)
  {
    forall i | 0 <= i < Total(NBlocks(f.content))
      ensures Blk(d, f.lo + i) == BlockContent(f.lo, f.content, i)
    {
      BlkFrame(d0, d, f.lo + i);
    }
  }

  lemma BlkFrame(d0: seq<byte>, d: seq<byte>, b: nat)
    requires |d| == |d0| && b > 0 && (b + 1) * 1024 <= |d|
    requires forall k :: b * 1024 <= k < (b + 1) * 1024 ==> d[k] == d0[k]
    ensures Blk(d, b) == Blk(d0, b)
  {
  }

  function Direct(prev: seq<nat>, blocks: seq<nat>): (a: seq<nat>)
    requires |prev| == 13
    ensures |a| == 13
  {
    seq(13, k requires 0 <= k < 13 => if k < 10 && k < |blocks| then blocks[k] else prev[k])
  }

  lemma AddrsShort(prev: seq<nat>, lo: nat, n: nat)
    requires |prev| == 13 && lo > 0 && n <= 10
    ensures Direct(prev, Range(lo, lo + n)) == NewAddrs(prev, lo, n)
  {
  }

  lemma AddrsMiddle(prev: seq<nat>, lo: nat, n: nat)
    requires |prev| == 13 && lo > 0 && 10 < n <= 266
    ensures Direct(prev, Range(lo, lo + n))[10 := lo + n] == NewAddrs(prev, lo, n)
  {
  }

  lemma AddrsLong(prev: seq<nat>, lo: nat, n: nat)
    requires |prev| == 13 && lo > 0 && n > 266
    ensures Direct(prev, Range(lo, lo + n))[10 := lo + n][11 := lo + Total(n) - 1] == NewAddrs(prev, lo, n)
  {
  }

  /** One turn of the double-indirect loop takes exactly the words of the next inner block. */
  lemma InnerChunk(lo: nat, n: nat, j: nat)
    ensures Range(lo + 266 + 256 * j, lo + n) != [] <==> j < Inners(n)
    ensures var rest := Range(lo + 266 + 256 * j, lo + n);
      && Slice(rest, 0, 256) == InnerPtrs(lo, n, j)
      && |InnerPtrs(lo, n, j)| <= 256
      && Slice(rest, 256, |rest|) == Range(lo + 266 + 256 * (j + 1), lo + n)
      && (rest != [] ==> |Slice(rest, 256, |rest|)| < |rest|)
  {
    RangeSplit(lo + 266 + 256 * j, lo + n, 256);
  }

  /** The block list falls into ten direct blocks, the words of the single-indirect block, and the rest. */
  lemma RunParts(lo: nat, n: nat)
    ensures var rest := Slice(Range(lo, lo + n), 10, |Range(lo, lo + n)|);
      && (rest == [] <==> n <= 10)
      && Slice(rest, 0, 256) == SinglePtrs(lo, n)
      && |SinglePtrs(lo, n)| <= 256
      && Slice(rest, 256, |rest|) == Range(lo + 266, lo + n)
    ensures Range(lo + 266, lo + n) == [] <==> n <= 266
  {
    RangeSplit(lo, lo + n, 10);
    RangeSplit(lo + 10, lo + n, 256);
  }

  lemma PointerBlock(lo: nat, c: seq<byte>, i: nat)
    requires i >= NBlocks(c)
    ensures Pad(Words(RunPtrs(lo, NBlocks(c), i)), 1024) == BlockContent(lo, c, i)
  {
  }

  ghost predicate Coupled(d: seq<byte>, firstData: nat, nextBlock: nat, stored: seq<Stored>) {
    && ZeroFrom(d, nextBlock * 1024)
    && (forall k :: 0 <= k < |stored| ==> firstData <= stored[k].lo && stored[k].End() <= nextBlock)
    && (forall k :: 0 <= k < |stored| ==> Holds(d, stored[k].lo, stored[k].content))
    && (forall k :: 0 <= k < firstData * 1024 && k < |d| ==> d[k] == 0)
  }
}
