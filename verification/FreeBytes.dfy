/** The free list as it lies in the bytes of an image: which number is in which slot of the superblock and of which
    block. */
module FreeBytes {
  import opened Bytes
  import opened FileStore
  import opened FsModel
  import opened OnDisk
  import opened FreeList
  import opened Image

  /** The bottom fifties of a stack are saved one each in the block above them; what is left over, one to fifty numbers,
      is in the cache. */
  ghost predicate Grouped(d: seq<byte>, fl: Cache, st: seq<nat>) {
    && st != [] && |fl.free| == 50 && fl.nfree == (|st| - 1) % 50 + 1
    && (forall j :: 0 <= j < fl.nfree ==> fl.free[j] == st[|st| - fl.nfree + j])
    && forall i :: 0 <= i < (|st| - 1) / 50 ==> Saved(d, st, i)
  }

  /** Fifty number `i` of the stack, behind its count, in the block that is next on the stack. */
  ghost predicate Saved(d: seq<byte>, st: seq<nat>, i: nat) {
    && 50 * i + 50 < |st|
    && var b := st[50 * i + 50];
    && 1024 * b + 204 <= |d| && U32(d, 1024 * b) == 50
    && forall j :: 0 <= j < 50 ==> U32(d, 1024 * b + 4 + 4 * j) == st[50 * i + j]
  }

  lemma SavedInside(d: seq<byte>, st: seq<nat>, rest: seq<nat>, i: nat)
    requires Saved(d, rest, i) && rest <= st
    ensures Saved(d, st, i)
  {
    hide U32;
    assert forall k :: 0 <= k < |rest| ==> st[k] == rest[k];
  }

  /** The block in slot 0 of the cache holds the topmost fifty of the others. */
  lemma TopSaved(d: seq<byte>, fl: Cache, st: seq<nat>, rest: seq<nat>)
    requires 0 < fl.nfree <= 50 == |fl.free| && st == rest + fl.free[..fl.nfree] && (fl.free[0] + 1) * 1024 <= |d|
    requires LoadBlock(d, fl.free[0]).nfree == 50 && Grouped(d, LoadBlock(d, fl.free[0]), rest)
    ensures |rest| % 50 == 0 && Saved(d, st, |rest| / 50 - 1)
  {
    hide U32, Saved;
    var b, i := fl.free[0], |rest| / 50 - 1;
    assert |rest| == 50 * i + 50 && st[50 * i + 50] == b;
    forall j | 0 <= j < 50
      ensures U32(d, 1024 * b + 4 + 4 * j) == st[50 * i + j]
    {
      assert LoadBlock(d, b).free[j] == U32(d, b * 1024 + 4 + 4 * j);
      assert st[50 * i + j] == rest[|rest| - 50 + j];
    }
    SavedBy(d, st, i);
  }

  lemma SavedBy(d: seq<byte>, st: seq<nat>, i: nat)
    requires 50 * i + 50 < |st| && 1024 * st[50 * i + 50] + 1024 <= |d| && U32(d, 1024 * st[50 * i + 50]) == 50
    requires forall j :: 0 <= j < 50 ==> U32(d, 1024 * st[50 * i + 50] + 4 + 4 * j) == st[50 * i + j]
    ensures Saved(d, st, i)
  {
    hide U32;
  }

  lemma {:induction false} GroupedIs(d: seq<byte>, fl: Cache, st: seq<nat>)
    requires Represents(d, fl, st)
    ensures Grouped(d, fl, st)
    decreases |st|
  {
    hide Saved, LoadBlock;
    var rest := st[..|st| - fl.nfree];
    assert st == rest + fl.free[..fl.nfree];
    if rest != [] {
      var top := LoadBlock(d, fl.free[0]);
      GroupedIs(d, top, rest);
      TopSaved(d, fl, st, rest);
      assert (|st| - 1) / 50 == |rest| / 50;
      forall i | 0 <= i < |rest| / 50
        ensures Saved(d, st, i)
      {
        if i < (|rest| - 1) / 50 {
          SavedInside(d, st, rest, i);
        }
      }
    }
  }

  /** Number `k` on the stack of an image of `n` blocks: 0, and then the blocks from the last downwards. */
  function Nth(n: nat, k: nat): nat {
    if 0 < k <= n then n - k else 0
  }

  /** A chain block of the list. */
  ghost predicate ChainBlock(d: seq<byte>, n: nat, i: nat) {
    && 50 * i + 50 < n && 1024 * (n - 50 * i - 50) + 204 <= |d|
    && U32(d, 1024 * (n - 50 * i - 50)) == 50
    && forall j :: 0 <= j < 50 ==> U32(d, 1024 * (n - 50 * i - 50) + 4 + 4 * j) == Nth(n, 50 * i + j)
  }

  /** Where every number of the free list is, for an image of `n` blocks of which `free` are free: every fiftieth of the
      free blocks, counted down from the last, holds the fifty numbers before it; the superblock holds the rest. */
  ghost predicate FreeListLies(d: seq<byte>, n: nat, free: int) {
    && 0 <= free && |d| >= 1024
    && U16(d, 520) == free % 50 + 1
    && (forall j :: 0 <= j <= free % 50 ==> U32(d, 524 + 4 * j) == Nth(n, free - free % 50 + j))
    && forall i :: 0 <= i < free / 50 ==> ChainBlock(d, n, i)
  }

  lemma ChainBlockIs(d: seq<byte>, lo: nat, hi: nat, i: nat)
    requires 0 < lo <= hi && 50 * i + 50 <= hi - lo && Saved(d, FreeStack(lo, hi), i)
    ensures ChainBlock(d, hi, i)
  {
    hide U32;
    var st := FreeStack(lo, hi);
    assert st[50 * i + 50] == hi - (50 * i + 50);
    forall j | 0 <= j < 50
      ensures U32(d, 1024 * (hi - 50 * i - 50) + 4 + 4 * j) == Nth(hi, 50 * i + j)
    {
      assert st[50 * i + j] == Nth(hi, 50 * i + j);
    }
  }

  /** The free list of every finished image, byte for byte. */
  lemma FreeListIs(d: seq<byte>, s: State, now: nat, fl: Cache)
    requires ImageOf(d, s, now, fl)
    ensures s.nextBlock <= s.nblocks && FreeListLies(d, s.nblocks, s.nblocks - s.nextBlock)
  {
    hide Represents, Holds, IList, SuperFits, SuperBytes, Saved, FreeStack, ChainBlock, U16, U32;
    var n, free, st := s.nblocks, s.nblocks - s.nextBlock, FreeStack(s.nextBlock, s.nblocks);
    SuperReads(d, SuperOf(s, fl, now));
    GroupedIs(d, fl, st);
    forall j | 0 <= j <= free % 50
      ensures U32(d, 524 + 4 * j) == Nth(n, free - free % 50 + j)
    {
      assert fl.free[j] == st[|st| - fl.nfree + j];
    }
    forall i | 0 <= i < free / 50
      ensures ChainBlock(d, n, i)
    {
      assert Saved(d, st, i);
      ChainBlockIs(d, s.nextBlock, s.nblocks, i);
    }
  }
}
