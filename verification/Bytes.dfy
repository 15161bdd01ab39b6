/** Bytes, little-endian fields and slices, as Python's `struct` and slicing use them. */
module Bytes {

  type byte = x: int | 0 <= x < 256

  datatype Option<+T> = None | Some(value: T) {
    predicate IsFailure() { None? }

    function PropagateFailure<U>(): Option<U>
      requires None?
    {
      None
    }

    function Extract(): T
      requires Some?
    {
      value
    }
  }

  /** The value of a step, or the way the program stops. */
  datatype Result<+T, +E> = Success(value: T) | Failure(error: E) {
    predicate IsFailure() { Failure? }

    function PropagateFailure<U>(): Result<U, E>
      requires Failure?
    {
      Failure(error)
    }

    function Extract(): T
      requires Success?
    {
      value
    }
  }

  function Min(a: int, b: int): int {
    if a <= b then a else b
  }

  /** 1 when `b` holds, 0 otherwise: the unit of counting. */
  function One(b: bool): nat {
    if b then 1 else 0
  }

  function Zeros(n: nat): (s: seq<byte>)
    ensures |s| == n
    ensures forall i :: 0 <= i < n ==> s[i] == 0
  {
    seq(n, _ => 0)
  }

  /** `s.ljust(n, b'\0')`. */
  function Pad(s: seq<byte>, n: nat): (r: seq<byte>)
    ensures |r| == if |s| < n then n else |s|
  {
    if |s| < n then s + Zeros(n - |s|) else s
  }

  /** `s[lo:hi]` for non-negative bounds: Python clamps both to the length. */
  function Slice<T>(s: seq<T>, lo: nat, hi: nat): seq<T> {
    if lo >= |s| || hi <= lo then [] else s[lo..Min(hi, |s|)]
  }

  lemma Assoc<T>(a: seq<T>, b: seq<T>, c: seq<T>)
    ensures a + (b + c) == (a + b) + c
  {
  }

  /** What a loop that appends to `acc` still owes: `total` is `acc` and then `rest`, or both fail. */
  ghost predicate Owes<T>(acc: seq<T>, rest: Option<seq<T>>, total: Option<seq<T>>) {
    match rest
    case None => total == None
    case Some(r) => total == Some(acc + r)
  }

  function Prepend<T>(piece: seq<T>, rest: Option<seq<T>>): Option<seq<T>> {
    match rest
    case None => None
    case Some(r) => Some(piece + r)
  }

  lemma OwesLess<T>(acc: seq<T>, piece: seq<T>, rest: Option<seq<T>>, total: Option<seq<T>>)
    requires Owes(acc, Prepend(piece, rest), total)
    ensures Owes(acc + piece, rest, total)
  {
    if rest.Some? {
      Assoc(acc, piece, rest.value);
    }
  }

  lemma OwesNothing<T>(acc: seq<T>, total: Option<seq<T>>)
    requires Owes(acc, Some([]), total)
    ensures total == Some(acc)
  {
    assert acc + [] == acc;
  }

  lemma OwesAll<T>(total: Option<seq<T>>)
    ensures Owes([], total, total)
  {
    if total.Some? {
      assert [] + total.value == total.value;
    }
  }

  /** `s` after `s[off:off + len(buf)] = buf` on a bytearray, within its length. */
  function Splice(s: seq<byte>, off: nat, buf: seq<byte>): (r: seq<byte>)
    requires off + |buf| <= |s|
    ensures |r| == |s|
    ensures forall k :: 0 <= k < |s| ==> r[k] == if off <= k < off + |buf| then buf[k - off] else s[k]
  {
    s[..off] + buf + s[off + |buf|..]
  }

  function Range(a: nat, b: nat): (r: seq<nat>)
    ensures |r| == if a <= b then b - a else 0
    ensures forall i :: 0 <= i < |r| ==> r[i] == a + i
  {
    if a <= b then seq(b - a, i requires 0 <= i => a + i) else []
  }

  lemma RangeSplit(a: nat, b: nat, k: nat)
    ensures Slice(Range(a, b), 0, k) == Range(a, Min(a + k, b))
    ensures Slice(Range(a, b), k, |Range(a, b)|) == Range(a + k, b)
  {
  }

  lemma RangeSnoc(a: nat, b: nat)
    requires a <= b
    ensures Range(a, b) + [b] == Range(a, b + 1)
  {
  }

  // --- little-endian fields ----------------------------------------------

  function LE16(x: nat): (s: seq<byte>)
    ensures |s| == 2
  {
    [x % 256, x / 256 % 256]
  }

  function LE24(x: nat): (s: seq<byte>)
    ensures |s| == 3
  {
    [x % 256, x / 256 % 256, x / 65536 % 256]
  }

  function LE32(x: nat): (s: seq<byte>)
    ensures |s| == 4
  {
    [x % 256, x / 256 % 256, x / 65536 % 256, x / 16777216 % 256]
  }

  function U16(s: seq<byte>, i: nat): (x: nat)
    requires i + 2 <= |s|
    ensures x < 0x1_0000
  {
    s[i] as int + 256 * (s[i + 1] as int)
  }

  /** A signed 16-bit field. */
  function I16(s: seq<byte>, i: nat): (x: int)
    requires i + 2 <= |s|
    ensures -0x8000 <= x < 0x8000
  {
    if U16(s, i) < 0x8000 then U16(s, i) else U16(s, i) - 0x1_0000
  }

  function U24(s: seq<byte>, i: nat): (x: nat)
    requires i + 3 <= |s|
    ensures x < 0x100_0000
  {
    s[i] as int + 256 * (s[i + 1] as int) + 65536 * (s[i + 2] as int)
  }

  function U32(s: seq<byte>, i: nat): (x: nat)
    requires i + 4 <= |s|
    ensures x < 0x1_0000_0000
  {
    s[i] as int + 256 * (s[i + 1] as int) + 65536 * (s[i + 2] as int) + 16777216 * (s[i + 3] as int)
  }

  /** A signed 32-bit field. */
  function I32(s: seq<byte>, i: nat): (x: int)
    requires i + 4 <= |s|
    ensures -0x8000_0000 <= x < 0x8000_0000
  {
    if U32(s, i) < 0x8000_0000 then U32(s, i) else U32(s, i) - 0x1_0000_0000
  }

  /** The low byte comes first, and the high bit of a signed field is its sign. */
  lemma LowByteFirst()
    ensures LE16(0x1234) == [0x34, 0x12] && LE24(0x12_3456) == [0x56, 0x34, 0x12]
    ensures LE32(0x1234_5678) == [0x78, 0x56, 0x34, 0x12]
    ensures U16([0x34, 0x12], 0) == 0x1234 && U24([0x56, 0x34, 0x12], 0) == 0x12_3456
    ensures U32([0x78, 0x56, 0x34, 0x12], 0) == 0x1234_5678
    ensures I16([0xff, 0xff], 0) == -1 && I32([0xfe, 0xff, 0xff, 0xff], 0) == -2
  {
  }

  /** Storing a number in 2, 3 or 4 bytes keeps it exactly when it fits; otherwise the high part is lost. */
  lemma FieldsRoundTrip(x: nat)
    ensures U16(LE16(x), 0) == x <==> x < 0x1_0000
    ensures U24(LE24(x), 0) == x % 0x100_0000
    ensures U24(LE24(x), 0) == x <==> x < 0x100_0000
    ensures U32(LE32(x), 0) == x <==> x < 0x1_0000_0000
  {
    Digits(x);
  }

  lemma Digits(x: nat)
    ensures x == x % 256 + 256 * (x / 256)
    ensures x / 256 == x / 256 % 256 + 256 * (x / 65536)
    ensures x / 65536 == x / 65536 % 256 + 256 * (x / 16777216)
    ensures x < 0x1_0000_0000 ==> x / 16777216 < 256
  {
  }

  // --- arrays of 32-bit words --------------------------------------------

  /** `b''.join(struct.pack('<I', x) for x in xs)`. */
  function Words(xs: seq<nat>): (s: seq<byte>)
    ensures |s| == 4 * |xs|
  {
    if xs == [] then [] else Words(xs[..|xs| - 1]) + LE32(xs[|xs| - 1])
  }

  lemma {:induction false} WordAt(xs: seq<nat>, i: nat)
    requires i < |xs|
    ensures Words(xs)[4 * i..4 * i + 4] == LE32(xs[i])
  {
    var init := xs[..|xs| - 1];
    if i < |xs| - 1 {
      WordAt(init, i);
      assert Words(xs)[4 * i..4 * i + 4] == Words(init)[4 * i..4 * i + 4];
    }
  }

  /** A block of words padded with zeros reads back word for word, and as 0 past the last one. */
  lemma PaddedWordAt(xs: seq<nat>, n: nat, i: nat)
    requires |xs| <= n && i < n
    requires forall j :: 0 <= j < |xs| ==> xs[j] < 0x1_0000_0000
    ensures |Pad(Words(xs), 4 * n)| == 4 * n
    ensures U32(Pad(Words(xs), 4 * n), 4 * i) == if i < |xs| then xs[i] else 0
  {
    var b := Pad(Words(xs), 4 * n);
    if i < |xs| {
      WordAt(xs, i);
      var w := Words(xs)[4 * i..4 * i + 4];
      assert b[4 * i] == w[0] && b[4 * i + 1] == w[1] && b[4 * i + 2] == w[2] && b[4 * i + 3] == w[3];
      FieldsRoundTrip(xs[i]);
    }
  }

  lemma SubSlice<T>(s: seq<T>, off: nat, len: nat, i: nat, n: nat)
    requires off + len <= |s| && i + n <= len
    ensures s[off..off + len][i..i + n] == s[off + i..off + i + n]
  {
    var t, a, b := s[off..off + len], s[off..off + len][i..i + n], s[off + i..off + i + n];
    forall k | 0 <= k < n
      ensures a[k] == b[k]
    {
      assert a[k] == t[i + k] == s[off + i + k];
    }
    assert a == b;
  }

  lemma U32Shift(s: seq<byte>, off: nat, len: nat, i: nat)
    requires off + len <= |s| && i + 4 <= len
    ensures U32(s[off..off + len], i) == U32(s, off + i)
  {
  }

  /** A field read out of a longer sequence is the field read out of its own slice. */
  lemma FieldInSlice(s: seq<byte>, i: nat, t: seq<byte>)
    requires i + |t| <= |s| && s[i..i + |t|] == t
    ensures |t| >= 2 ==> U16(s, i) == U16(t, 0) && I16(s, i) == I16(t, 0)
    ensures |t| >= 3 ==> U24(s, i) == U24(t, 0)
    ensures |t| >= 4 ==> U32(s, i) == U32(t, 0)
  {
    assert forall j :: 0 <= j < |t| ==> t[j] == s[i + j];
  }
}
