/** Block numbers past 2^24: an inode has three bytes for an address. `main` never gets there
    (`Mkfs.WritableIsNarrow`), but an `Fs` given a smaller inode table does. Where the round trip of a file ends,
    exactly, and an input that shows it. */
module WideBlocks {
  import opened Bytes
  import opened S5Reader
  import opened FileStore
  import opened FsModel
  import opened OnDisk

  const LIMIT: nat := 0x100_0000

  function Blocks(size: nat): nat {
    (size + 1023) / 1024
  }

  /** The inode of a file of `size` bytes that was stored from block `lo` on. */
  function RunInode(lo: nat, size: nat): (i: Inode)
    ensures |i.addr| == 13
  {
    Inode(32768, 1, 0, 0, size, Addrs(lo, Blocks(size)))
  }

  ghost predicate Reads(d: seq<byte>, lo: nat, c: seq<byte>) {
    Data(d, AsRead(RunInode(lo, |c|))) == Some(c)
  }

  /** Whatever the content and whatever else is on the image, a file of this size stored here reads back. */
  ghost predicate AlwaysReads(lo: nat, size: nat) {
    forall d, c :: |c| == size && Holds(d, lo, c) ==> Reads(d, lo, c)
  }

  lemma NarrowReads(d: seq<byte>, lo: nat, c: seq<byte>)
    requires Holds(d, lo, c) && lo + Total(NBlocks(c)) <= LIMIT
    ensures Reads(d, lo, c)
  {
    var i := RunInode(lo, |c|);
    assert AsRead(i).blk == Addrs(lo, NBlocks(c));
    hide Holds, AsRead;
    DataInvertsStore(d, lo, c, AsRead(i));
  }

  // --- an image on which a wide file is lost ------------------------------------------------

  function Ones(n: nat): (s: seq<byte>)
    ensures |s| == n && forall k :: 0 <= k < n ==> s[k] == 1
  {
    seq(n, _ => 1)
  }

  lemma RunPtrsShort(lo: nat, n: nat, i: nat)
    requires n <= i < Total(n) && n <= MAX_BLOCKS
    ensures |RunPtrs(lo, n, i)| <= 256
  {
  }

  lemma ContentSize(lo: nat, c: seq<byte>, i: nat)
    requires NBlocks(c) <= MAX_BLOCKS && i < Total(NBlocks(c))
    ensures |BlockContent(lo, c, i)| == 1024
  {
    hide RunPtrs, DataBlock;
    if i >= NBlocks(c) {
      RunPtrsShort(lo, NBlocks(c), i);
    }
  }

  function LaidByte(lo: nat, c: seq<byte>, k: nat): byte {
    var b := k / 1024;
    if b < lo || k % 1024 >= |BlockContent(lo, c, b - lo)| then 0 else BlockContent(lo, c, b - lo)[k % 1024]
  }

  /** The run of `c` at `lo`, zeros before it and nothing after. */
  function Laid(lo: nat, c: seq<byte>): (d: seq<byte>)
    ensures |d| == (lo + Total(NBlocks(c))) * 1024
  {
    seq((lo + Total(NBlocks(c))) * 1024, k requires 0 <= k => LaidByte(lo, c, k))
  }

  lemma LaidBlk(lo: nat, c: seq<byte>, b: nat)
    requires 0 < b < lo + Total(NBlocks(c)) && NBlocks(c) <= MAX_BLOCKS
    ensures Blk(Laid(lo, c), b) == if b < lo then Zeros(1024) else BlockContent(lo, c, b - lo)
  {
    hide BlockContent, Total;
    if b >= lo {
      ContentSize(lo, c, b - lo);
    }
    var d, want := Laid(lo, c), if b < lo then Zeros(1024) else BlockContent(lo, c, b - lo);
    forall k | 0 <= k < 1024
      ensures Blk(d, b)[k] == want[k]
    {
      assert (b * 1024 + k) / 1024 == b && (b * 1024 + k) % 1024 == k;
      assert Blk(d, b)[k] == d[b * 1024 + k];
    }
  }

  lemma LaidHolds(lo: nat, c: seq<byte>)
    requires lo > 0 && NBlocks(c) <= MAX_BLOCKS
    ensures Holds(Laid(lo, c), lo, c)
  {
    hide Blk, BlockContent, Laid;
    forall i | 0 <= i < Total(NBlocks(c))
      ensures Blk(Laid(lo, c), lo + i) == BlockContent(lo, c, i)
    {
      LaidBlk(lo, c, lo + i);
    }
  }

  // --- what the reader makes of it ----------------------------------------------------------

  lemma {:induction false} GatherShort(d: seq<byte>, ptrs: seq<nat>)
    ensures |Gather(d, ptrs)| <= 1024 * |ptrs|
  {
    if ptrs != [] {
      GatherShort(d, ptrs[..|ptrs| - 1]);
    }
  }

  lemma {:induction false} GatherAt(d: seq<byte>, ptrs: seq<nat>, k: nat)
    requires k < |ptrs| && forall j :: 0 <= j <= k ==> |Blk(d, ptrs[j])| == 1024
    ensures |Gather(d, ptrs)| >= 1024 * k + 1024
    ensures Gather(d, ptrs)[1024 * k] == Blk(d, ptrs[k])[0]
    ensures k == |ptrs| - 1 ==> |Gather(d, ptrs)| == 1024 * k + 1024
  {
    hide Blk;
    var init := ptrs[..|ptrs| - 1];
    if k < |ptrs| - 1 {
      GatherAt(d, init, k);
    } else if k > 0 {
      GatherAt(d, init, k - 1);
    }
  }

  /** Too few pointers, or a block of zeros among the file's, and a file of ones is lost. */
  lemma LostWhen(d: seq<byte>, i: InodeRec, size: nat, k: nat)
    requires |i.blk| == 13 && i.size == size && k < Blocks(size)
    requires DataPointers(d, i.blk).Some?
    requires var ptrs := DataPointers(d, i.blk).value;
      |ptrs| <= k || ((forall j :: 0 <= j <= k ==> |Blk(d, ptrs[j])| == 1024) && Blk(d, ptrs[k])[0] == 0)
    ensures Data(d, i) != Some(Ones(size))
  {
    var ptrs := DataPointers(d, i.blk).value;
    hide DataPointers, Gather, Blk;
    if |ptrs| <= k {
      GatherShort(d, ptrs);
    } else {
      GatherAt(d, ptrs, k);
      assert Ones(size)[1024 * k] == 1;
    }
  }

  /** A block of the run past the limit is looked for below the run. */
  lemma WrapsBelow(lo: nat, n: nat, a: nat)
    requires n <= MAX_BLOCKS && LIMIT <= a < lo + Total(n)
    ensures a % LIMIT < lo
  {
    assert Total(n) < LIMIT;
  }

  lemma ReadAddr(lo: nat, size: nat, k: nat)
    requires k < 13 && Blocks(size) <= MAX_BLOCKS && size > 0
    ensures var a := AsRead(RunInode(lo, size)).blk[k];
      && a == AddrAt(lo, Blocks(size), k) % LIMIT
      && a < lo + Total(Blocks(size))
      && (AddrAt(lo, Blocks(size), k) >= LIMIT ==> a < lo)
  {
    if AddrAt(lo, Blocks(size), k) >= LIMIT {
      WrapsBelow(lo, Blocks(size), AddrAt(lo, Blocks(size), k));
    }
  }

  lemma BlkFull(lo: nat, c: seq<byte>, b: nat)
    requires NBlocks(c) <= MAX_BLOCKS && b < lo + Total(NBlocks(c))
    ensures |Blk(Laid(lo, c), b)| == 1024
    ensures b < lo ==> Blk(Laid(lo, c), b) == Zeros(1024)
  {
    hide Laid, BlockContent;
    if b > 0 {
      LaidBlk(lo, c, b);
      if b >= lo {
        ContentSize(lo, c, b - lo);
      }
    }
  }

  function NullWords(): (s: seq<nat>)
    ensures |s| == 256 && forall k :: 0 <= k < 256 ==> s[k] == 0
  {
    seq(256, _ => 0)
  }

  lemma IndBelow(lo: nat, c: seq<byte>, b: nat)
    requires NBlocks(c) <= MAX_BLOCKS && b < lo
    ensures Ind(Laid(lo, c), b) == Some(NullWords())
  {
    BlkFull(lo, c, b);
    hide Laid, Blk;
    assert Ind(Laid(lo, c), b).value == NullWords();
  }

  /** A direct pointer that wraps. */
  lemma DirectLost(lo: nat, size: nat)
    requires lo > 0 && 0 < Blocks(size) <= 10 && lo + Total(Blocks(size)) > LIMIT
    ensures !Reads(Laid(lo, Ones(size)), lo, Ones(size))
  {
    var d, r, n := Laid(lo, Ones(size)), AsRead(RunInode(lo, size)), Blocks(size);
    ReadAddr(lo, size, 10);
    ReadAddr(lo, size, 11);
    assert r.blk[10] == 0 && r.blk[11] == 0;
    var ptrs := r.blk[..10];
    assert DataPointers(d, r.blk) == Some(ptrs) by {
      assert r.blk[..10] + [] + [] == ptrs;
    }
    forall j | 0 <= j <= n - 1
      ensures |Blk(d, ptrs[j])| == 1024
    {
      ReadAddr(lo, size, j);
      BlkFull(lo, Ones(size), ptrs[j]);
    }
    ReadAddr(lo, size, n - 1);
    BlkFull(lo, Ones(size), ptrs[n - 1]);
    hide Laid, Blk, AsRead, RunInode, DataPointers;
    LostWhen(d, r, size, n - 1);
  }

  lemma DirectFull(lo: nat, size: nat, j: nat)
    requires size > 0 && Blocks(size) <= MAX_BLOCKS && j < 10
    ensures |Blk(Laid(lo, Ones(size)), AsRead(RunInode(lo, size)).blk[j])| == 1024
  {
    ReadAddr(lo, size, j);
    hide AsRead, RunInode;
    BlkFull(lo, Ones(size), AsRead(RunInode(lo, size)).blk[j]);
  }

  /** A single-indirect pointer that wraps: the eleventh block is gone, or null. */
  lemma SingleLost(lo: nat, size: nat)
    requires lo > 0 && 10 < Blocks(size) <= MAX_BLOCKS && lo + Blocks(size) >= LIMIT
    ensures !Reads(Laid(lo, Ones(size)), lo, Ones(size))
  {
    var c := Ones(size);
    var d, r := Laid(lo, c), AsRead(RunInode(lo, size));
    ReadAddr(lo, size, 10);
    ReadAddr(lo, size, 11);
    var w := r.blk[10];
    IndBelow(lo, c, w);
    NoInner(lo, size);
    forall j | 0 <= j < 10
      ensures |Blk(d, r.blk[j])| == 1024
    {
      DirectFull(lo, size, j);
    }
    hide Laid, AsRead, RunInode, IndOrNone, Inner, Ind;
    var single := if w == 0 then [] else NullWords();
    assert IndOrNone(d, w) == Some(single) by {
      IndOrNull(d, w);
    }
    assert r.blk[..10] + single + [] == r.blk[..10] + single;
    var ptrs := r.blk[..10] + single;
    if w != 0 {
      assert ptrs[10] == 0;
    }
    LostWhen(d, r, size, 10);
  }

  lemma IndOrNull(d: seq<byte>, w: nat)
    ensures IndOrNone(d, w) == if w == 0 then Some([]) else Ind(d, w)
  {
  }

  /** Where the double-indirect pointer wraps, or is not needed, it leads to nothing. */
  lemma NoInner(lo: nat, size: nat)
    requires lo > 0 && 10 < Blocks(size) <= MAX_BLOCKS && lo + Total(Blocks(size)) > LIMIT
    ensures var d, b := Laid(lo, Ones(size)), AsRead(RunInode(lo, size)).blk[11];
      && IndOrNone(d, b).Some?
      && Inner(d, IndOrNone(d, b).value) == Some([])
  {
    var d, b := Laid(lo, Ones(size)), AsRead(RunInode(lo, size)).blk[11];
    ReadAddr(lo, size, 11);
    if b != 0 {
      assert AddrAt(lo, Blocks(size), 11) == lo + Total(Blocks(size)) - 1;
      IndBelow(lo, Ones(size), b);
    }
    hide Laid, Ind, AsRead, RunInode;
    IndOrNull(d, b);
  }

  /** A double-indirect pointer that wraps: nothing past the 266th block is found. */
  lemma DoubleLost(lo: nat, size: nat)
    requires lo > 0 && 266 < Blocks(size) <= MAX_BLOCKS && lo + Blocks(size) < LIMIT < lo + Total(Blocks(size))
    ensures !Reads(Laid(lo, Ones(size)), lo, Ones(size))
  {
    var c := Ones(size);
    var d, r := Laid(lo, c), AsRead(RunInode(lo, size));
    ReadAddr(lo, size, 10);
    NoInner(lo, size);
    var w := r.blk[10];
    BlkFull(lo, c, w);
    IndFull(d, w);
    hide Laid, AsRead, RunInode, IndOrNone, Inner, Ind;
    IndOrNull(d, w);
    LostWhen(d, r, size, 266);
  }

  lemma IndFull(d: seq<byte>, w: nat)
    requires |Blk(d, w)| == 1024
    ensures Ind(d, w).Some? && |Ind(d, w).value| == 256
  {
  }

  /** The exact limit, for every place and size: the round trip holds of all contents and images if and only if the run
      ends by block 2^24. */
  lemma RoundTripWidth(lo: nat, size: nat)
    requires lo > 0 && size > 0 && Blocks(size) <= MAX_BLOCKS
    ensures AlwaysReads(lo, size) <==> lo + Total(Blocks(size)) <= LIMIT
  {
    hide Reads, Holds;
    if lo + Total(Blocks(size)) <= LIMIT {
      forall d, c | |c| == size && Holds(d, lo, c)
        ensures Reads(d, lo, c)
      {
        NarrowReads(d, lo, c);
      }
    } else {
      var c := Ones(size);
      LaidHolds(lo, c);
      WideLost(lo, size);
    }
  }

  lemma WideLost(lo: nat, size: nat)
    requires lo > 0 && size > 0 && Blocks(size) <= MAX_BLOCKS && lo + Total(Blocks(size)) > LIMIT
    ensures !Reads(Laid(lo, Ones(size)), lo, Ones(size))
  {
    hide Reads, Laid;
    if Blocks(size) <= 10 {
      DirectLost(lo, size);
    } else if lo + Blocks(size) >= LIMIT {
      SingleLost(lo, size);
    } else {
      DoubleLost(lo, size);
    }
  }
}
