/** Where `store_data` puts a file: data blocks, then the single-indirect block, the inner blocks of
    the double-indirect tree and its top block, all consecutive. The layout is stated in closed form and the
    independent reader is proved to invert it. */
module FileStore {
  import opened Bytes
  import opened S5Reader

  /** Ten direct, one block of 256 words, 256 blocks of 256 words. */
  const MAX_BLOCKS: nat := 65802

  function NBlocks(c: seq<byte>): (n: nat)
    ensures 1024 * n < |c| + 1024 && |c| <= 1024 * n
  {
    (|c| + 1023) / 1024
  }

  /** Inner blocks of the double-indirect tree of an `n`-block file. */
  function Inners(n: nat): (k: nat)
    ensures n <= 266 ==> k == 0
    ensures n > 266 ==> 256 * (k - 1) < n - 266 <= 256 * k
  {
    if n <= 266 then 0 else (n - 266 + 255) / 256
  }

  /** Blocks taken from the allocator by an `n`-block file, indirect blocks included. */
  function Total(n: nat): nat {
    n + (if n > 10 then 1 else 0) + (if n > 266 then Inners(n) + 1 else 0)
  }

  function AddrAt(lo: nat, n: nat, i: nat): nat {
    if i < 10 then (if i < n then lo + i else 0)
    else if i == 10 then (if n > 10 then lo + n else 0)
    else if i == 11 then (if n > 266 then lo + n + 1 + Inners(n) else 0)
    else 0
  }

  /** The 13 inode addresses of an `n`-block file whose first block is `lo`. */
  function Addrs(lo: nat, n: nat): (a: seq<nat>)
    ensures |a| == 13
  {
    seq(13, i requires 0 <= i => AddrAt(lo, n, i))
  }

  function DataBlock(c: seq<byte>, i: nat): (b: seq<byte>)
    ensures |b| == 1024
  {
    Pad(Slice(c, i * 1024, (i + 1) * 1024), 1024)
  }

  function PtrBlock(xs: seq<nat>): (b: seq<byte>)
    ensures |xs| <= 256 ==> |b| == 1024
  {
    Pad(Words(xs), 1024)
  }

  function SinglePtrs(lo: nat, n: nat): seq<nat> {
    Range(lo + 10, lo + Min(n, 266))
  }

  function InnerPtrs(lo: nat, n: nat, j: nat): seq<nat> {
    Range(lo + 266 + 256 * j, lo + Min(n, 522 + 256 * j))
  }

  function OuterPtrs(lo: nat, n: nat): seq<nat> {
    Range(lo + n + 1, lo + n + 1 + Inners(n))
  }

  /** The words of indirect block `i` of the run. */
  function RunPtrs(lo: nat, n: nat, i: nat): seq<nat>
    requires i >= n
  {
    if i == n then SinglePtrs(lo, n)
    else if i < n + 1 + Inners(n) then InnerPtrs(lo, n, i - n - 1)
    else OuterPtrs(lo, n)
  }

  /** The `i`-th block of the run. */
  function BlockContent(lo: nat, c: seq<byte>, i: nat): seq<byte> {
    if i < NBlocks(c) then DataBlock(c, i) else PtrBlock(RunPtrs(lo, NBlocks(c), i))
  }

  /** Image `d` holds file `c` in the run of blocks starting at `lo`. */
  ghost predicate Holds(d: seq<byte>, lo: nat, c: seq<byte>) {
    && lo > 0
    && NBlocks(c) <= MAX_BLOCKS
    && (c != [] ==> (lo + Total(NBlocks(c))) * 1024 <= |d|)
    && forall i :: 0 <= i < Total(NBlocks(c)) ==> Blk(d, lo + i) == BlockContent(lo, c, i)
  }

  // --- the reader on such a run -------------------------------------------

  lemma DataBlockAt(c: seq<byte>, i: nat, j: nat)
    requires j < 1024 && 1024 * i + j < |c|
    ensures DataBlock(c, i)[j] == c[1024 * i + j]
  {
  }

  lemma HeldData(d: seq<byte>, lo: nat, c: seq<byte>, i: nat)
    requires Holds(d, lo, c) && i < NBlocks(c)
    ensures Blk(d, lo + i) == DataBlock(c, i)
  {
    assert BlockContent(lo, c, i) == DataBlock(c, i);
  }

  lemma HeldPointers(d: seq<byte>, lo: nat, c: seq<byte>, i: nat)
    requires Holds(d, lo, c) && NBlocks(c) <= i < Total(NBlocks(c))
    ensures Blk(d, lo + i) == PtrBlock(RunPtrs(lo, NBlocks(c), i))
  {
    assert BlockContent(lo, c, i) == PtrBlock(RunPtrs(lo, NBlocks(c), i));
  }

  function Fill(xs: seq<nat>): (r: seq<nat>)
    ensures |r| == 256
  {
    seq(256, i requires 0 <= i => if i < |xs| then xs[i] else 0)
  }

  lemma IndReads(d: seq<byte>, b: nat, xs: seq<nat>)
    requires Blk(d, b) == PtrBlock(xs) && |xs| <= 256
    requires forall j :: 0 <= j < |xs| ==> xs[j] < 0x1_0000_0000
    ensures Ind(d, b) == Some(Fill(xs))
  {
    var words := seq(256, i requires 0 <= i < 256 => U32(Blk(d, b), 4 * i));
    forall i | 0 <= i < 256
      ensures words[i] == Fill(xs)[i]
    {
      PaddedWordAt(xs, 256, i);
    }
    assert words == Fill(xs);
  }

  /** A file held where every block number fits the three bytes of an address. */
  ghost predicate Readable(d: seq<byte>, lo: nat, c: seq<byte>) {
    && Holds(d, lo, c)
    && lo + Total(NBlocks(c)) <= 0x100_0000
  }

  lemma RunPtrsFit(lo: nat, n: nat, i: nat)
    requires n <= i < Total(n) && n <= MAX_BLOCKS && lo + Total(n) <= 0x100_0000
    ensures |RunPtrs(lo, n, i)| <= 256
    ensures forall j :: 0 <= j < |RunPtrs(lo, n, i)| ==> RunPtrs(lo, n, i)[j] < 0x100_0000
  {
  }

  /** Reading any indirect block of the run gives its words, nulls past the last. */
  lemma RunIndReads(d: seq<byte>, lo: nat, c: seq<byte>, i: nat)
    requires Readable(d, lo, c) && NBlocks(c) <= i < Total(NBlocks(c))
    ensures Ind(d, lo + i) == Some(Fill(RunPtrs(lo, NBlocks(c), i)))
  {
    var xs := RunPtrs(lo, NBlocks(c), i);
    RunPtrsFit(lo, NBlocks(c), i);
    HeldPointers(d, lo, c, i);
    IndReads(d, lo + i, xs);
  }

  /** Pointer `266 + i`, or the null of an unfilled slot. */
  function DeepPtr(lo: nat, n: nat, i: nat): nat {
    if 266 + i < n then lo + 266 + i else 0
  }

  function DeepPtrs(lo: nat, n: nat): (r: seq<nat>)
    ensures |r| == 256 * Inners(n)
    ensures forall i :: 0 <= i < |r| ==> r[i] == DeepPtr(lo, n, i)
  {
    seq(256 * Inners(n), i requires 0 <= i => DeepPtr(lo, n, i) as nat)
  }

  lemma InnerFill(lo: nat, n: nat, j: nat)
    requires j < Inners(n)
    ensures Fill(InnerPtrs(lo, n, j)) == DeepPtrs(lo, n)[256 * j..256 * j + 256]
  {
  }

  /** `Inner` concatenates the words of the second-level blocks up to the first null. */
  lemma {:induction false} InnerJoins(d: seq<byte>, outer: seq<nat>, k: nat, q: seq<nat>, j: nat)
    requires j <= k <= |outer| && |q| == 256 * k
    requires forall i :: 0 <= i < k ==> outer[i] != 0 && Ind(d, outer[i]) == Some(q[256 * i..256 * i + 256])
    requires k < |outer| ==> outer[k] == 0
    ensures Inner(d, outer[j..]) == Some(q[256 * j..])
    decreases k - j
  {
    if j < k {
      InnerJoins(d, outer, k, q, j + 1);
      assert outer[j..][1..] == outer[j + 1..];
      assert q[256 * j..] == q[256 * j..256 * j + 256] + q[256 * (j + 1)..];
    }
  }

  lemma SinglePtrsOf(d: seq<byte>, lo: nat, c: seq<byte>)
    requires Readable(d, lo, c)
    ensures IndOrNone(d, AddrAt(lo, NBlocks(c), 10))
      == Some(if NBlocks(c) > 10 then Fill(SinglePtrs(lo, NBlocks(c))) else [])
  {
    if NBlocks(c) > 10 {
      RunIndReads(d, lo, c, NBlocks(c));
    }
  }

  lemma OuterPtrsOf(d: seq<byte>, lo: nat, c: seq<byte>)
    requires Readable(d, lo, c)
    ensures IndOrNone(d, AddrAt(lo, NBlocks(c), 11))
      == Some(if NBlocks(c) > 266 then Fill(OuterPtrs(lo, NBlocks(c))) else [])
  {
    if NBlocks(c) > 266 {
      RunIndReads(d, lo, c, NBlocks(c) + 1 + Inners(NBlocks(c)));
    }
  }

  lemma InnerPtrsOf(d: seq<byte>, lo: nat, c: seq<byte>, j: nat)
    requires Readable(d, lo, c) && j < Inners(NBlocks(c))
    ensures Ind(d, lo + NBlocks(c) + 1 + j) == Some(DeepPtrs(lo, NBlocks(c))[256 * j..256 * j + 256])
  {
    RunIndReads(d, lo, c, NBlocks(c) + 1 + j);
    InnerFill(lo, NBlocks(c), j);
  }

  lemma DoublePtrsOf(d: seq<byte>, lo: nat, c: seq<byte>)
    requires Readable(d, lo, c) && NBlocks(c) > 266
    ensures Inner(d, Fill(OuterPtrs(lo, NBlocks(c)))) == Some(DeepPtrs(lo, NBlocks(c)))
  {
    var n := NBlocks(c);
    var k, outer, q := Inners(n), Fill(OuterPtrs(lo, n)), DeepPtrs(lo, n);
    forall i | 0 <= i < k
      ensures outer[i] != 0 && Ind(d, outer[i]) == Some(q[256 * i..256 * i + 256])
    {
      InnerPtrsOf(d, lo, c, i);
    }
    InnerJoins(d, outer, k, q, 0);
    assert outer[0..] == outer && q[256 * 0..] == q;
  }

  /** The pointers the reader follows, in order: unfilled slots of an indirect block are nulls. */
  function ReadPtrs(lo: nat, n: nat): seq<nat> {
    Addrs(lo, n)[..10]
    + (if n > 10 then Fill(SinglePtrs(lo, n)) else [])
    + (if n > 266 then DeepPtrs(lo, n) else [])
  }

  lemma PointersOf(d: seq<byte>, lo: nat, c: seq<byte>)
    requires Readable(d, lo, c)
    ensures DataPointers(d, Addrs(lo, NBlocks(c))) == Some(ReadPtrs(lo, NBlocks(c)))
  {
    var n := NBlocks(c);
    var a := Addrs(lo, n);
    SinglePtrsOf(d, lo, c);
    OuterPtrsOf(d, lo, c);
    if n > 266 {
      DoublePtrsOf(d, lo, c);
    }
  }

  /** They name the file's blocks in order; whatever follows is padding. */
  lemma ReadPtrsAt(lo: nat, n: nat, i: nat)
    requires i < n <= MAX_BLOCKS
    ensures i < |ReadPtrs(lo, n)| && ReadPtrs(lo, n)[i] == lo + i
  {
    var single := if n > 10 then Fill(SinglePtrs(lo, n)) else [];
    var double := if n > 266 then DeepPtrs(lo, n) else [];
    var front := Addrs(lo, n)[..10] + single;
    assert ReadPtrs(lo, n) == front + double;
    if i >= 266 {
      assert double[i - 266] == DeepPtr(lo, n, i - 266);
    } else if i >= 10 {
      assert single[i - 10] == SinglePtrs(lo, n)[i - 10];
    }
  }

  lemma {:induction false} GatherContent(d: seq<byte>, c: seq<byte>, ptrs: seq<nat>, k: nat)
    requires k <= |ptrs|
    requires forall i :: 0 <= i < k ==> |Blk(d, ptrs[i])| == 1024
    requires forall i, j :: 0 <= i < k && 0 <= j < 1024 && 1024 * i + j < |c| ==> Blk(d, ptrs[i])[j] == c[1024 * i + j]
    ensures |Gather(d, ptrs[..k])| == 1024 * k
    ensures forall i :: 0 <= i < |c| && i < 1024 * k ==> Gather(d, ptrs[..k])[i] == c[i]
  {
    hide Blk;
    if k > 0 {
      GatherContent(d, c, ptrs, k - 1);
      var g := Gather(d, ptrs[..k - 1]);
      var b := Blk(d, ptrs[k - 1]);
      assert Gather(d, ptrs[..k]) == g + b by {
        assert ptrs[..k] == ptrs[..k - 1] + [ptrs[k - 1]];
        GatherSnoc(d, ptrs[..k - 1], ptrs[k - 1]);
      }
      forall i | 0 <= i < |c| && i < 1024 * k
        ensures (g + b)[i] == c[i]
      {
        if i >= 1024 * (k - 1) {
          assert b[i - 1024 * (k - 1)] == c[1024 * (k - 1) + (i - 1024 * (k - 1))];
        }
      }
    }
  }

  lemma GatherRun(d: seq<byte>, lo: nat, c: seq<byte>, ptrs: seq<nat>)
    requires Holds(d, lo, c) && |ptrs| >= NBlocks(c)
    requires forall i :: 0 <= i < NBlocks(c) ==> ptrs[i] == lo + i
    ensures |Gather(d, ptrs[..NBlocks(c)])| == 1024 * NBlocks(c)
    ensures Gather(d, ptrs[..NBlocks(c)])[..|c|] == c
  {
    var n := NBlocks(c);
    forall i | 0 <= i < n
      ensures Blk(d, ptrs[i]) == DataBlock(c, i)
    {
      HeldData(d, lo, c, i);
    }
    forall i, j | 0 <= i < n && 0 <= j < 1024 && 1024 * i + j < |c|
      ensures Blk(d, ptrs[i])[j] == c[1024 * i + j]
    {
      DataBlockAt(c, i, j);
    }
    GatherContent(d, c, ptrs, n);
  }

  /** `S5.data` inverts `store_data`, through all three levels of pointers. */
  lemma DataInvertsStore(d: seq<byte>, lo: nat, c: seq<byte>, i: InodeRec)
    requires Readable(d, lo, c)
    requires i.blk == Addrs(lo, NBlocks(c)) && i.size == |c|
    ensures Data(d, i) == Some(c)
  {
    var n := NBlocks(c);
    PointersOf(d, lo, c);
    var ptrs := ReadPtrs(lo, n);
    assert forall j :: 0 <= j < n ==> j < |ptrs| && ptrs[j] == lo + j by {
      forall j | 0 <= j < n
        ensures j < |ptrs| && ptrs[j] == lo + j
      {
        ReadPtrsAt(lo, n, j);
      }
    }
    assert n > 0 ==> n - 1 < |ptrs|;
    var front, back := Gather(d, ptrs[..n]), Gather(d, ptrs[n..]);
    assert Gather(d, ptrs) == front + back by {
      assert ptrs == ptrs[..n] + ptrs[n..];
      GatherAppend(d, ptrs[..n], ptrs[n..]);
    }
    GatherRun(d, lo, c, ptrs);
    SliceFront(front, back, c);
  }

  lemma SliceFront(front: seq<byte>, back: seq<byte>, c: seq<byte>)
    requires |c| <= |front| && front[..|c|] == c
    ensures Slice(front + back, 0, |c|) == c
  {
  }
}
