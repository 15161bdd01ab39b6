/** What the reader makes of any bytes, a written image or not: which words are block pointers, which bytes are content,
    and which records are directory entries. */
module ReaderBytes {
  import opened Bytes
  import opened S5Reader

  // --- inodes -----------------------------------------------------------------------------

  /** The inode of a number: 64 bytes each from block 2 on. The numbers are little-endian, the link count is signed, a
      block number has three bytes. */
  lemma InodeFields(d: seq<byte>, n: nat)
    ensures var o := 1984 + 64 * n;
      && (ReadInode(d, n).Some? <==> o + 51 <= |d|)
      && (ReadInode(d, n).Some? ==>
            var r := ReadInode(d, n).value;
            && r.mode == U16(d, o) && r.nlink == I16(d, o + 2) && r.uid == U16(d, o + 4) && r.gid == U16(d, o + 6)
            && r.size == U32(d, o + 8)
            && |r.blk| == 13 && forall i :: 0 <= i < 13 ==> r.blk[i] == U24(d, o + 12 + 3 * i))
  {
    hide U16, U24, U32, I16, Slice;
    var o := 1984 + 64 * n;
    assert InodeOffset(n) == o;
    var e := Slice(d, o, o + 64);
    SliceLong(d, o);
    if |e| >= 51 {
      Moved(d, o, e, 0);
      Moved(d, o, e, 2);
      Moved(d, o, e, 4);
      Moved(d, o, e, 6);
      Moved(d, o, e, 8);
      forall i | 0 <= i < 13
        ensures U24(e, 12 + 3 * i) == U24(d, o + 12 + 3 * i)
      {
        Moved(d, o, e, 12 + 3 * i);
      }
    }
  }

  lemma SliceLong(d: seq<byte>, o: nat)
    ensures |Slice(d, o, o + 64)| >= 51 <==> o + 51 <= |d|
  {
  }

  lemma Moved(d: seq<byte>, o: nat, e: seq<byte>, i: nat)
    requires e == Slice(d, o, o + 64) && i + 3 <= |e|
    ensures U16(e, i) == U16(d, o + i) && I16(e, i) == I16(d, o + i) && U24(e, i) == U24(d, o + i)
    ensures i + 4 <= |e| ==> U32(e, i) == U32(d, o + i)
  {
    assert forall k :: 0 <= k < |e| ==> e[k] == d[o + k];
  }

  // --- pointers ---------------------------------------------------------------------------

  /** Block `n` lies within the file. */
  predicate Whole(d: seq<byte>, n: nat) {
    1024 * n + 1024 <= |d|
  }

  function Word(d: seq<byte>, n: nat, j: nat): nat
    requires Whole(d, n) && j < 256
  {
    U32(d, 1024 * n + 4 * j)
  }

  lemma IndWords(d: seq<byte>, n: nat)
    requires n > 0
    ensures Ind(d, n).Some? <==> Whole(d, n)
    ensures Ind(d, n).Some? ==>
      |Ind(d, n).value| == 256 && forall j :: 0 <= j < 256 ==> Ind(d, n).value[j] == Word(d, n, j)
  {
    if Whole(d, n) {
      assert Blk(d, n) == d[1024 * n..1024 * n + 1024];
      forall j | 0 <= j < 256
        ensures U32(Blk(d, n), 4 * j) == U32(d, 1024 * n + 4 * j)
      {
      }
    }
  }

  /** The first `k` words of a block are not null and name blocks within the file; the next ends the list, if any. */
  ghost predicate Leading(d: seq<byte>, ms: seq<nat>, k: nat) {
    && k <= |ms|
    && (forall i :: 0 <= i < k ==> ms[i] != 0 && Whole(d, ms[i]))
    && (k < |ms| ==> ms[k] == 0)
  }

  /** The data pointers below a list of second-level blocks: 256 for each before the first null one. */
  lemma {:induction false} InnerIs(d: seq<byte>, ms: seq<nat>, k: nat)
    requires Leading(d, ms, k)
    ensures Inner(d, ms).Some? && |Inner(d, ms).value| == 256 * k
    ensures forall j :: 0 <= j < 256 * k ==> Inner(d, ms).value[j] == Word(d, ms[j / 256], j % 256)
    decreases |ms|
  {
    hide Ind, Word, Whole;
    if k > 0 {
      IndWords(d, ms[0]);
      InnerIs(d, ms[1..], k - 1);
      var first, rest := Ind(d, ms[0]).value, Inner(d, ms[1..]).value;
      forall j | 0 <= j < 256 * k
        ensures Inner(d, ms).value[j] == Word(d, ms[j / 256], j % 256)
      {
        if j >= 256 {
          assert (first + rest)[j] == rest[j - 256];
          assert ms[1..][(j - 256) / 256] == ms[j / 256];
        }
      }
    }
  }

  lemma {:induction false} InnerLeads(d: seq<byte>, ms: seq<nat>) returns (k: nat)
    requires Inner(d, ms).Some?
    ensures Leading(d, ms, k)
    decreases |ms|
  {
    hide Ind, Whole;
    k := 0;
    if ms != [] && ms[0] != 0 {
      IndWords(d, ms[0]);
      var k' := InnerLeads(d, ms[1..]);
      k := k' + 1;
      assert forall i :: 1 <= i < k ==> ms[i] == ms[1..][i - 1];
    }
  }

  function Words256(d: seq<byte>, n: nat): (ms: seq<nat>)
    requires Whole(d, n)
    ensures |ms| == 256 && forall j :: 0 <= j < 256 ==> ms[j] == Word(d, n, j)
  {
    seq(256, j requires 0 <= j < 256 => Word(d, n, j))
  }

  /** The second-level blocks an inode has before the first null word; none without a double-indirect block. */
  ghost predicate Seconds(d: seq<byte>, n: nat, k: nat) {
    if n == 0 then k == 0 else Whole(d, n) && Leading(d, Words256(d, n), k)
  }

  /** Pointer `i` of an inode with a single-indirect block or none, and so many second-level blocks. */
  ghost predicate PointerIs(d: seq<byte>, blk: seq<nat>, k: nat, i: nat, p: nat)
    requires |blk| == 13 && (blk[10] != 0 ==> Whole(d, blk[10])) && Seconds(d, blk[11], k)
  {
    var s := if blk[10] != 0 then 256 else 0;
    if i < 10 then p == blk[i]
    else if i < 10 + s then p == Word(d, blk[10], i - 10)
    else if i < 10 + s + 256 * k then p == Word(d, Word(d, blk[11], (i - 10 - s) / 256), (i - 10 - s) % 256)
    else false
  }

  /** `data` can follow the pointers if and only if the blocks that hold them lie within the file; and then they are ten
      direct ones, the words of the single-indirect block if there is one, and the words of each second-level block up
      to the first null. */
  lemma PointersAre(d: seq<byte>, blk: seq<nat>)
    requires |blk| == 13
    ensures DataPointers(d, blk).Some? <==>
      (blk[10] != 0 ==> Whole(d, blk[10])) && exists k: nat :: Seconds(d, blk[11], k)
    ensures forall k: nat :: (blk[10] != 0 ==> Whole(d, blk[10])) && Seconds(d, blk[11], k) ==>
      && DataPointers(d, blk).Some?
      && |DataPointers(d, blk).value| == 10 + (if blk[10] != 0 then 256 else 0) + 256 * k
      && forall i :: 0 <= i < |DataPointers(d, blk).value| ==> PointerIs(d, blk, k, i, DataPointers(d, blk).value[i])
  {
    hide Ind, Word, Whole, Leading;
    if blk[10] != 0 {
      IndWords(d, blk[10]);
    }
    if blk[11] != 0 {
      IndWords(d, blk[11]);
    }
    if DataPointers(d, blk).Some? {
      if blk[11] != 0 {
        assert IndOrNone(d, blk[11]).value == Words256(d, blk[11]);
        var k := InnerLeads(d, Words256(d, blk[11]));
        assert Seconds(d, blk[11], k);
      } else {
        assert Seconds(d, blk[11], 0);
      }
    }
    forall k: nat | (blk[10] != 0 ==> Whole(d, blk[10])) && Seconds(d, blk[11], k)
      ensures DataPointers(d, blk).Some?
      ensures |DataPointers(d, blk).value| == 10 + (if blk[10] != 0 then 256 else 0) + 256 * k
      ensures forall i :: 0 <= i < |DataPointers(d, blk).value| ==>
        PointerIs(d, blk, k, i, DataPointers(d, blk).value[i])
    {
      PointersBy(d, blk, k);
    }
  }

  lemma PointersBy(d: seq<byte>, blk: seq<nat>, k: nat)
    requires |blk| == 13 && (blk[10] != 0 ==> Whole(d, blk[10])) && Seconds(d, blk[11], k)
    ensures DataPointers(d, blk).Some?
    ensures |DataPointers(d, blk).value| == 10 + (if blk[10] != 0 then 256 else 0) + 256 * k
    ensures forall i :: 0 <= i < |DataPointers(d, blk).value| ==> PointerIs(d, blk, k, i, DataPointers(d, blk).value[i])
  {
    hide Ind, Whole, Leading, Inner, Word;
    if blk[10] != 0 {
      IndWords(d, blk[10]);
    }
    SecondsInner(d, blk[11], k);
    var single, double := IndOrNone(d, blk[10]).value, Inner(d, IndOrNone(d, blk[11]).value).value;
    assert DataPointers(d, blk).value == blk[..10] + single + double;
    Third(blk[..10], single, double);
  }

  lemma Third(a: seq<nat>, b: seq<nat>, c: seq<nat>)
    ensures forall i :: 0 <= i < |a + b + c| ==>
      (a + b + c)[i] == (if i < |a| then a[i] else if i < |a| + |b| then b[i - |a|] else c[i - |a| - |b|])
  {
  }

  lemma SecondsInner(d: seq<byte>, n: nat, k: nat)
    requires Seconds(d, n, k)
    ensures IndOrNone(d, n).Some? && Inner(d, IndOrNone(d, n).value).Some?
    ensures var ps := Inner(d, IndOrNone(d, n).value).value;
      |ps| == 256 * k && forall j :: 0 <= j < 256 * k ==> n != 0 && ps[j] == Word(d, Word(d, n, j / 256), j % 256)
  {
    hide Ind, Word, Whole;
    if n != 0 {
      IndWords(d, n);
      assert Ind(d, n).value == Words256(d, n);
      InnerIs(d, Words256(d, n), k);
    } else {
      assert Inner(d, []) == Some([]);
    }
  }

  // --- content ------------------------------------------------------------------------------

  /** Every pointer is null or names a block within the file. */
  ghost predicate AllWhole(d: seq<byte>, ps: seq<nat>) {
    forall i :: 0 <= i < |ps| ==> ps[i] == 0 || Whole(d, ps[i])
  }

  lemma {:induction false} GatherByte(d: seq<byte>, ps: seq<nat>, k: nat)
    requires AllWhole(d, ps)
    ensures |Gather(d, ps)| == 1024 * |ps|
    ensures k < 1024 * |ps| ==>
      Gather(d, ps)[k] == if ps[k / 1024] == 0 then 0 else d[1024 * ps[k / 1024] + k % 1024]
    decreases |ps|
  {
    hide Blk, Whole;
    if ps != [] {
      var init, p := ps[..|ps| - 1], ps[|ps| - 1];
      assert AllWhole(d, init);
      GatherByte(d, init, k);
      BlockByte(d, p, k % 1024);
      if 1024 * |init| <= k < 1024 * |ps| {
        LastBlock(k, |init|);
        assert Gather(d, ps)[k] == Blk(d, p)[k % 1024];
      } else if k < 1024 * |init| {
        assert k / 1024 < |init|;
        assert Gather(d, ps)[k] == Gather(d, init)[k];
      }
    }
  }

  lemma LastBlock(k: nat, n: nat)
    requires 1024 * n <= k < 1024 * n + 1024
    ensures k / 1024 == n && k % 1024 == k - 1024 * n
  {
  }

  lemma BlockByte(d: seq<byte>, p: nat, j: nat)
    requires (p == 0 || Whole(d, p)) && j < 1024
    ensures |Blk(d, p)| == 1024 && Blk(d, p)[j] == if p == 0 then 0 else d[1024 * p + j]
  {
  }

  /** Content byte `k` is byte `k % 1024` of the block that pointer `k / 1024` names, or 0 where that is null; there are
      as many as `size` says, or as the pointers reach. */
  lemma DataBytes(d: seq<byte>, i: InodeRec, k: nat)
    requires |i.blk| == 13 && DataPointers(d, i.blk).Some? && AllWhole(d, DataPointers(d, i.blk).value)
    ensures Data(d, i).Some?
    ensures var ps, c := DataPointers(d, i.blk).value, Data(d, i).value;
      && |c| == Min(i.size, 1024 * |ps|)
      && (k < |c| ==> c[k] == if ps[k / 1024] == 0 then 0 else d[1024 * ps[k / 1024] + k % 1024])
  {
    hide DataPointers, Gather, AllWhole;
    GatherByte(d, DataPointers(d, i.blk).value, k);
  }

  // --- directory records ------------------------------------------------------------------------

  /** The name in record `r`: its bytes up to the first 0, or all fourteen. */
  ghost predicate NameIs(b: seq<byte>, r: nat, name: string)
    requires 16 * r + 16 <= |b|
  {
    && |name| <= 14
    && (forall i :: 0 <= i < |name| ==> b[16 * r + 2 + i] != 0 && name[i] as int == b[16 * r + 2 + i])
    && (|name| < 14 ==> b[16 * r + 2 + |name|] == 0)
  }

  lemma {:induction false} CStringIs(s: seq<byte>)
    ensures |CString(s)| <= |s|
    ensures forall i :: 0 <= i < |CString(s)| ==> s[i] != 0 && CString(s)[i] as int == s[i]
    ensures |CString(s)| < |s| ==> s[|CString(s)|] == 0
  {
    if s != [] && s[0] != 0 {
      CStringIs(s[1..]);
      assert CString(s)[1..] == CString(s[1..]);
      forall i | 0 <= i < |CString(s)|
        ensures s[i] != 0 && CString(s)[i] as int == s[i]
      {
        if i > 0 {
          assert CString(s)[i] == CString(s[1..])[i - 1] && s[i] == s[1..][i - 1];
        }
      }
    }
  }

  /** Records `rs` are those from `o / 16` on with a number, in order, and `ents` are what they say. */
  ghost predicate RecordsAre(b: seq<byte>, from: nat, rs: seq<nat>, ents: seq<Entry>) {
    && |rs| == |ents|
    && (forall j :: 0 <= j < |rs| ==> from <= rs[j] && 16 * rs[j] + 16 <= |b| && RecordIs(b, rs[j], ents[j]))
    && (forall i, j :: 0 <= i < j < |rs| ==> rs[i] < rs[j])
    && (forall r: nat :: from <= r && 16 * r + 16 <= |b| && U16(b, 16 * r) != 0 ==> r in rs)
  }

  ghost predicate RecordIs(b: seq<byte>, r: nat, e: Entry)
    requires 16 * r + 16 <= |b|
  {
    U16(b, 16 * r) != 0 && e.num == U16(b, 16 * r) && NameIs(b, r, e.name)
  }

  lemma {:induction false} EntriesFrom(b: seq<byte>, r: nat) returns (rs: seq<nat>)
    requires |b| % 16 == 0 && 16 * r <= |b|
    ensures DirEntries(b, 16 * r).Some? && RecordsAre(b, r, rs, DirEntries(b, 16 * r).value)
    decreases |b| - 16 * r
  {
    hide CString, RecordsAre, RecordIs, U16;
    rs := [];
    if 16 * r < |b| {
      var rest := EntriesFrom(b, r + 1);
      RecordReads(b, r);
      RecordsMore(b, r, rest, DirEntries(b, 16 * r + 16).value,
                  Entry(U16(b, 16 * r), CString(b[16 * r + 2..16 * r + 16])));
      rs := if U16(b, 16 * r) != 0 then [r] + rest else rest;
    } else {
      NoRecords(b, r);
    }
  }

  lemma NoRecords(b: seq<byte>, r: nat)
    requires 16 * r == |b|
    ensures RecordsAre(b, r, [], [])
  {
  }

  lemma RecordsMore(b: seq<byte>, r: nat, rest: seq<nat>, ents: seq<Entry>, e: Entry)
    requires 16 * r + 16 <= |b| && RecordsAre(b, r + 1, rest, ents)
    ensures U16(b, 16 * r) == 0 ==> RecordsAre(b, r, rest, ents)
    ensures RecordIs(b, r, e) ==> RecordsAre(b, r, [r] + rest, [e] + ents)
  {
    hide RecordIs, U16;
    forall q: nat | r <= q && 16 * q + 16 <= |b| && U16(b, 16 * q) != 0
      ensures q == r || q in rest
    {
    }
    if RecordIs(b, r, e) {
      var all := [r] + rest;
      assert forall j :: 1 <= j < |all| ==> all[j] == rest[j - 1];
      assert all[0] == r;
    }
  }

  lemma RecordReads(b: seq<byte>, r: nat)
    requires 16 * r + 16 <= |b|
    ensures U16(b, 16 * r) != 0 ==> RecordIs(b, r, Entry(U16(b, 16 * r), CString(b[16 * r + 2..16 * r + 16])))
  {
    CStringIs(b[16 * r + 2..16 * r + 16]);
    hide CString;
    var s := b[16 * r + 2..16 * r + 16];
    assert forall i :: 0 <= i < 14 ==> s[i] == b[16 * r + 2 + i];
  }

  lemma {:induction false} PartialFails(b: seq<byte>, o: nat)
    requires o <= |b| && o % 16 == 0 && |b| % 16 != 0
    ensures DirEntries(b, o) == None
    decreases |b| - o
  {
    if o + 16 <= |b| {
      PartialFails(b, o + 16);
    }
  }

  /** `readdir` on any bytes: it goes through if and only if they are whole records, and lists those with a number, in
      order, under their names. */
  lemma EntriesAre(b: seq<byte>) returns (rs: seq<nat>)
    ensures DirEntries(b, 0).Some? <==> |b| % 16 == 0
    ensures |b| % 16 == 0 ==> RecordsAre(b, 0, rs, DirEntries(b, 0).value)
  {
    rs := [];
    if |b| % 16 == 0 {
      rs := EntriesFrom(b, 0);
    } else {
      PartialFails(b, 0);
    }
  }
}
