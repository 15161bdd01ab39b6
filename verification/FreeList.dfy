/** The free list chained through the free blocks. `Free` is `bfree` of tools/mkfs.py; `Alloc` is the kernel
    routine the list is built for. Together they are proved to implement an unbounded stack of block numbers. */
module FreeList {
  import opened Bytes

  /** `s_nfree` and `s_free`: slots from `nfree` on are stale. */
  datatype Cache = Cache(nfree: nat, free: seq<nat>)

  function SaveBlock(fl: Cache): (b: seq<byte>)
    ensures |fl.free| <= 255 ==> |b| == 1024
  {
    Pad(Words([fl.nfree] + fl.free), 1024)
  }

  function LoadBlock(d: seq<byte>, b: nat): Cache
    requires (b + 1) * 1024 <= |d|
  {
    Cache(U32(d, b * 1024), seq(50, i requires 0 <= i < 50 => U32(d, b * 1024 + 4 + 4 * i)))
  }

  /** `bfree`: a full cache moves into the block being freed. */
  function Free(d: seq<byte>, fl: Cache, b: nat): (r: (seq<byte>, Cache))
    requires fl.nfree <= 50 == |fl.free| && (fl.nfree == 50 ==> (b + 1) * 1024 <= |d|)
  {
    if fl.nfree == 50 then (Splice(d, b * 1024, SaveBlock(fl)), Cache(1, fl.free[0 := b]))
    else (d, Cache(fl.nfree + 1, fl.free[fl.nfree := b]))
  }

  /** The kernel's `alloc`: pop, take 0 for "no space", reload the cache from the block that empties it. */
  function Alloc(d: seq<byte>, fl: Cache): Option<(nat, Cache)> {
    if fl.nfree == 0 || fl.nfree > |fl.free| then None else
      var b := fl.free[fl.nfree - 1];
      if b == 0 then None
      else if fl.nfree > 1 then Some((b, fl.(nfree := fl.nfree - 1)))
      else if (b + 1) * 1024 <= |d| then Some((b, LoadBlock(d, b)))
      else None
  }

  /** All that `alloc` hands out in `n` calls. */
  function Drain(d: seq<byte>, fl: Cache, n: nat): seq<nat>
    decreases n
  {
    var step := Alloc(d, fl);
    if n == 0 || step == None then [] else [step.value.0] + Drain(d, step.value.1, n - 1)
  }

  /** Below the live slots of `fl` lie the blocks of `rest`: none, or those saved in block `fl.free[0]`. */
  ghost predicate Bottom(d: seq<byte>, fl: Cache, rest: seq<nat>)
    requires |fl.free| == 50
    decreases |rest|, 1
  {
    if rest == [] then fl.free[0] == 0 else
      && (fl.free[0] + 1) * 1024 <= |d|
      && LoadBlock(d, fl.free[0]).nfree == 50
      && Represents(d, LoadBlock(d, fl.free[0]), rest)
  }

  /** The cache and the blocks chained below it hold stack `st`, the 0 terminator at the bottom. */
  ghost predicate Represents(d: seq<byte>, fl: Cache, st: seq<nat>)
    decreases |st|, 0
  {
    && 0 < fl.nfree <= 50 == |fl.free|
    && fl.nfree <= |st|
    && st == st[..|st| - fl.nfree] + fl.free[..fl.nfree]
    && Bottom(d, fl, st[..|st| - fl.nfree])
  }

  lemma RepresentsIntro(d: seq<byte>, fl: Cache, rest: seq<nat>)
    requires 0 < fl.nfree <= 50 == |fl.free| && Bottom(d, fl, rest)
    ensures Represents(d, fl, rest + fl.free[..fl.nfree])
  {
    var st := rest + fl.free[..fl.nfree];
    assert st[..|st| - fl.nfree] == rest;
  }

  /** Block numbers on the stack are distinct and only the bottom is 0. */
  ghost predicate IsStack(st: seq<nat>) {
    && st != [] && st[0] == 0
    && (forall i :: 0 <= i < |st| ==> st[i] < 0x1_0000_0000)
    && (forall i, j :: 0 <= i < j < |st| ==> st[i] != st[j])
  }

  /** A word of a block is a word of the image. */
  lemma WordInBlock(d: seq<byte>, off: nat, b: seq<byte>, i: nat)
    requires off + 1024 <= |d| && |b| == 1024 && d[off..off + 1024] == b && i + 4 <= 1024
    ensures U32(d, off + i) == U32(b, i)
  {
    hide U32;
    U32Shift(d, off, 1024, i);
  }

  lemma WordsOf(xs: seq<nat>, b: seq<byte>, d: seq<byte>, off: nat, i: nat)
    requires |b| == 1024 && off + 1024 <= |d| && d[off..off + 1024] == b
    requires i < |xs| <= 256 && forall j :: 0 <= j < |xs| ==> xs[j] < 0x1_0000_0000
    requires b == Pad(Words(xs), 1024)
    ensures U32(d, off + 4 * i) == xs[i]
  {
    hide Words, Pad, U32;
    PaddedWordAt(xs, 256, i);
    WordInBlock(d, off, b, 4 * i);
  }

  /** What `bfree` saves, `alloc` loads. */
  lemma LoadInvertsSave(d: seq<byte>, fl: Cache, b: nat)
    requires fl.nfree <= 50 == |fl.free| && (b + 1) * 1024 <= |d|
    requires forall i :: 0 <= i < 50 ==> fl.free[i] < 0x1_0000_0000
    ensures LoadBlock(Splice(d, b * 1024, SaveBlock(fl)), b) == fl
  {
    SavedWords(d, fl, b);
    hide SaveBlock, Splice, U32;
    var back := LoadBlock(Splice(d, b * 1024, SaveBlock(fl)), b);
    assert back.free == fl.free;
  }

  lemma SavedWords(d: seq<byte>, fl: Cache, b: nat)
    requires fl.nfree <= 50 == |fl.free| && (b + 1) * 1024 <= |d|
    requires forall i :: 0 <= i < 50 ==> fl.free[i] < 0x1_0000_0000
    ensures var d' := Splice(d, b * 1024, SaveBlock(fl));
      && U32(d', b * 1024) == fl.nfree
      && forall i :: 0 <= i < 50 ==> U32(d', b * 1024 + 4 + 4 * i) == fl.free[i]
  {
    hide U32;
    var d' := Splice(d, b * 1024, SaveBlock(fl));
    var xs := [fl.nfree] + fl.free;
    assert d'[b * 1024..b * 1024 + 1024] == SaveBlock(fl);
    WordsOf(xs, SaveBlock(fl), d', b * 1024, 0);
    forall i | 0 <= i < 50
      ensures U32(d', b * 1024 + 4 + 4 * i) == fl.free[i]
    {
      WordsOf(xs, SaveBlock(fl), d', b * 1024, i + 1);
    }
  }

  lemma LoadFrame(d: seq<byte>, b: nat, buf: seq<byte>, c: nat)
    requires |buf| == 1024 && (b + 1) * 1024 <= |d| && (c + 1) * 1024 <= |d| && b != c
    ensures LoadBlock(Splice(d, b * 1024, buf), c) == LoadBlock(d, c)
  {
    var d' := Splice(d, b * 1024, buf);
    assert forall k :: c * 1024 <= k < c * 1024 + 1024 ==> d'[k] == d[k];
  }

  /** The stack does not depend on any block that is not on it. */
  lemma {:induction false} Undisturbed(d: seq<byte>, fl: Cache, st: seq<nat>, b: nat, buf: seq<byte>)
    requires Represents(d, fl, st) && b !in st
    requires |buf| == 1024 && (b + 1) * 1024 <= |d|
    ensures Represents(Splice(d, b * 1024, buf), fl, st)
    decreases |st|
  {
    hide LoadBlock, Splice;
    var rest := st[..|st| - fl.nfree];
    if rest != [] {
      var c := fl.free[0];
      assert c == fl.free[..fl.nfree][0] == st[|rest|];
      LoadFrame(d, b, buf, c);
      Undisturbed(d, LoadBlock(d, c), rest, b, buf);
    }
  }

  /** A full cache, saved, is what lies below the one slot of the new one. */
  lemma PushOnFull(d: seq<byte>, fl: Cache, st: seq<nat>, b: nat)
    requires Represents(d, fl, st) && b !in st && (b + 1) * 1024 <= |d| && fl.nfree == 50 == |fl.free|
    requires forall i :: 0 <= i < 50 ==> fl.free[i] < 0x1_0000_0000
    ensures Represents(Splice(d, b * 1024, SaveBlock(fl)), Cache(1, fl.free[0 := b]), st + [b])
  {
    hide LoadBlock, Splice, SaveBlock, Represents;
    var d', fl' := Splice(d, b * 1024, SaveBlock(fl)), Cache(1, fl.free[0 := b]);
    LoadInvertsSave(d, fl, b);
    Undisturbed(d, fl, st, b, SaveBlock(fl));
    NotEmpty(d, fl, st);
    assert fl'.free[..1] == [b];
    RepresentsIntro(d', fl', st);
  }

  lemma NotEmpty(d: seq<byte>, fl: Cache, st: seq<nat>)
    requires Represents(d, fl, st)
    ensures st != [] && 0 < fl.nfree <= |st|
  {
    hide Bottom;
  }

  /** Any other gains a slot, and what lies below stays. */
  lemma PushOnPart(d: seq<byte>, fl: Cache, st: seq<nat>, b: nat)
    requires Represents(d, fl, st) && fl.nfree < 50 == |fl.free|
    ensures Represents(d, Cache(fl.nfree + 1, fl.free[fl.nfree := b]), st + [b])
  {
    var fl' := Cache(fl.nfree + 1, fl.free[fl.nfree := b]);
    var rest := st[..|st| - fl.nfree];
    BottomSame(d, fl, fl', rest);
    hide Bottom;
    assert fl'.free[..fl'.nfree] == fl.free[..fl.nfree] + [b];
    Assoc(rest, fl.free[..fl.nfree], [b]);
    RepresentsIntro(d, fl', rest);
  }

  lemma BottomSame(d: seq<byte>, fl: Cache, fl': Cache, rest: seq<nat>)
    requires |fl.free| == |fl'.free| == 50 && fl'.free[0] == fl.free[0] && Bottom(d, fl, rest)
    ensures Bottom(d, fl', rest)
  {
    hide LoadBlock, Represents;
  }

  /** `bfree` pushes. */
  lemma FreePushes(d: seq<byte>, fl: Cache, st: seq<nat>, b: nat)
    requires Represents(d, fl, st) && b !in st && (b + 1) * 1024 <= |d|
    requires forall i :: 0 <= i < 50 ==> fl.free[i] < 0x1_0000_0000
    ensures Represents(Free(d, fl, b).0, Free(d, fl, b).1, st + [b])
  {
    hide Splice, SaveBlock, Bottom;
    if fl.nfree == 50 {
      PushOnFull(d, fl, st, b);
    } else {
      PushOnPart(d, fl, st, b);
    }
  }

  /** `alloc` finds no space on a stack that holds only the terminator. */
  lemma AllocEmpty(d: seq<byte>, fl: Cache, st: seq<nat>)
    requires Represents(d, fl, st) && IsStack(st) && |st| == 1
    ensures Alloc(d, fl) == None
  {
    assert fl.nfree == 1;
  }

  /** `alloc` pops any other. */
  lemma AllocPops(d: seq<byte>, fl: Cache, st: seq<nat>)
    requires Represents(d, fl, st) && IsStack(st) && |st| > 1
    ensures Alloc(d, fl).Some?
    ensures Alloc(d, fl).value.0 == st[|st| - 1]
    ensures Represents(d, Alloc(d, fl).value.1, st[..|st| - 1])
  {
    hide LoadBlock;
    var n, rest := fl.nfree, st[..|st| - fl.nfree];
    assert st[|st| - 1] == fl.free[..n][n - 1];
    assert st[|st| - 1] != st[0];
    if n > 1 {
      assert st[..|st| - 1] == rest + fl.free[..n - 1];
      RepresentsIntro(d, fl.(nfree := n - 1), rest);
    } else {
      assert rest == st[..|st| - 1];
    }
  }

  /** Freeing a block and allocating gives that block back and leaves the live part of the cache as it was. */
  lemma AllocUndoesFree(d: seq<byte>, fl: Cache, st: seq<nat>, b: nat)
    requires Represents(d, fl, st) && IsStack(st + [b]) && (b + 1) * 1024 <= |d|
    requires forall i :: 0 <= i < 50 ==> fl.free[i] < 0x1_0000_0000
    ensures var (d', fl') := Free(d, fl, b);
      && Alloc(d', fl').Some?
      && Alloc(d', fl').value.0 == b
      && Alloc(d', fl').value.1.nfree == fl.nfree
      && Alloc(d', fl').value.1.free[..fl.nfree] == fl.free[..fl.nfree]
  {
    hide LoadBlock, SaveBlock;
    assert b == (st + [b])[|st|] != (st + [b])[0];
    if fl.nfree == 50 {
      LoadInvertsSave(d, fl, b);
    }
  }

  function Reverse(s: seq<nat>): (r: seq<nat>)
    ensures |r| == |s|
    ensures forall i :: 0 <= i < |s| ==> r[i] == s[|s| - 1 - i]
  {
    seq(|s|, i requires 0 <= i < |s| => s[|s| - 1 - i])
  }

  /** Draining gives the whole stack from the top, and then no space. */
  lemma {:induction false} DrainGivesStack(d: seq<byte>, fl: Cache, st: seq<nat>, n: nat)
    requires Represents(d, fl, st) && IsStack(st) && n >= |st|
    ensures Drain(d, fl, n) == Reverse(st[1..])
    decreases |st|
  {
    hide Alloc, Represents;
    if |st| == 1 {
      AllocEmpty(d, fl, st);
    } else {
      AllocPops(d, fl, st);
      var st' := st[..|st| - 1];
      DrainGivesStack(d, Alloc(d, fl).value.1, st', n - 1);
      assert Reverse(st[1..]) == [st[|st| - 1]] + Reverse(st'[1..]);
    }
  }

  ghost predicate SameFrom(d: seq<byte>, d': seq<byte>, n: nat) {
    |d| <= |d'| && forall k :: n <= k < |d| ==> d'[k] == d[k]
  }

  /** All but the terminator lie at `lo` or above. */
  ghost predicate AllFrom(st: seq<nat>, lo: nat) {
    forall i :: 1 <= i < |st| ==> st[i] >= lo
  }

  /** The chain lives in the blocks from `lo` up: bytes below may change, and bytes may follow. */
  lemma {:induction false} BelowIsFree(d: seq<byte>, d': seq<byte>, fl: Cache, st: seq<nat>, lo: nat)
    requires Represents(d, fl, st) && AllFrom(st, lo) && SameFrom(d, d', lo * 1024)
    ensures Represents(d', fl, st)
    decreases |st|
  {
    hide LoadBlock, AllFrom, SameFrom;
    var rest := st[..|st| - fl.nfree];
    if rest != [] {
      var c := fl.free[0];
      assert c == fl.free[..fl.nfree][0] == st[|rest|];
      FromPrefix(st, |rest|, lo);
      LoadSame(d, d', c, lo);
      BelowIsFree(d, d', LoadBlock(d, c), rest, lo);
    }
  }

  lemma FromPrefix(st: seq<nat>, n: nat, lo: nat)
    requires AllFrom(st, lo) && 0 < n < |st|
    ensures AllFrom(st[..n], lo) && st[n] >= lo
  {
  }

  lemma LoadSame(d: seq<byte>, d': seq<byte>, c: nat, lo: nat)
    requires SameFrom(d, d', lo * 1024) && (c + 1) * 1024 <= |d| && c >= lo
    ensures |d| <= |d'| && LoadBlock(d', c) == LoadBlock(d, c)
  {
  }
}
