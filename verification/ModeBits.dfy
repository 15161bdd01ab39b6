/** Modes and device numbers bit by bit, for modes and numbers of any size. */
module ModeBits {
  import RoundTrip
  import opened TreeModel
  import opened TreeInvariant

  predicate Bit(x: nat, k: nat) {
    Shift(x, k) % 2 == 1
  }

  lemma OrBit(a: nat, b: nat, k: nat)
    ensures Bit(BitOr(a, b), k) <==> Bit(a, k) || Bit(b, k)
  {
    BitOrShift(a, b, k);
    BitOrHalf(Shift(a, k), Shift(b, k));
  }

  lemma {:induction false} ShiftZero(k: nat)
    ensures Shift(0, k) == 0
  {
    if k > 0 {
      ShiftZero(k - 1);
    }
  }

  lemma {:induction false} PowerBit(x: nat, n: nat, k: nat)
    requires Shift(x, n) == 1 && forall j :: 0 <= j < n ==> !Bit(x, j)
    ensures Bit(x, k) <==> k == n
  {
    if k > n {
      ShiftAdd(x, n, k - n);
      assert Shift(1, k - n) == Shift(0, k - n - 1);
      ShiftZero(k - n - 1);
    }
  }

  lemma Thirteen(k: nat)
    ensures Bit(0x2000, k) <==> k == 13
  {
    PowersBits(13);
    PowerBit(0x2000, 13, k);
  }

  lemma Fourteen(k: nat)
    ensures Bit(0x4000, k) <==> k == 14
  {
    PowersBits(14);
    PowerBit(0x4000, 14, k);
  }

  function Power(n: nat): nat {
    if n == 0 then 1 else 2 * Power(n - 1)
  }

  lemma {:induction false} PowerShifts(n: nat, j: nat)
    requires j <= n
    ensures Shift(Power(n), j) == Power(n - j)
    decreases j
  {
    if j > 0 {
      PowerShifts(n - 1, j - 1);
    }
  }

  lemma PowersBits(n: nat)
    ensures Shift(Power(n), n) == 1 && forall j :: 0 <= j < n ==> !Bit(Power(n), j)
    ensures Power(13) == 0x2000 && Power(14) == 0x4000
  {
    PowerShifts(n, n);
    forall j | 0 <= j < n
      ensures !Bit(Power(n), j)
    {
      PowerShifts(n, j);
    }
    assert Power(8) == 2 * Power(7) == 4 * Power(6) == 8 * Power(5) == 16 * Power(4) == 32 * Power(3) == 256;
    assert Power(14) == 2 * Power(13) == 4 * Power(12) == 8 * Power(11) == 16 * Power(10) == 32 * Power(9)
        == 64 * Power(8);
  }

  lemma {:induction false} ShiftDown(x: nat, j: nat)
    ensures Shift(x * Power(j), j) == x
    decreases j
  {
    if j > 0 {
      assert x * Power(j) == 2 * (x * Power(j - 1));
      ShiftDown(x, j - 1);
    }
  }

  lemma {:induction false} LowBits(x: nat, n: nat, j: nat)
    requires j < n
    ensures !Bit(x * Power(n), j)
    decreases j
  {
    assert x * Power(n) == 2 * (x * Power(n - 1));
    if j > 0 {
      LowBits(x, n - 1, j - 1);
    }
  }

  /** A special file's mode has the bits it is given and 13, and 14 too for a block device. */
  lemma DeviceModeBits(mode: nat, block: bool, k: nat)
    ensures Bit(DeviceMode(mode, block), k) <==> Bit(mode, k) || k == 13 || (block && k == 14)
  {
    Thirteen(k);
    Fourteen(k);
    OrBit(0x4000, 0x2000, k);
    assert BitOr(0x4000, 0x2000) == 0x6000 by {
      SixThousand();
    }
    OrBit(mode, 0x6000, k);
    OrBit(mode, 0x2000, k);
    hide BitOr, Bit;
  }

  lemma SixThousand()
    ensures BitOr(0x4000, 0x2000) == 0x6000
  {
    RoundTrip.TwelveBits(4);
    RoundTrip.ModesFit(0);
    assert RoundTrip.Pow2(14) == 2 * RoundTrip.Pow2(13) == 4 * RoundTrip.Pow2(12);
    RoundTrip.OrBelow(1, 0x2000, 14);
    assert RoundTrip.Shl(1, 14) == 2 * RoundTrip.Shl(1, 13) == 4 * RoundTrip.Shl(1, 12);
    RoundTrip.TwelveBits(1);
  }

  /** The mode of a `dir` line's directory has the bits of the line and 14. */
  lemma DirModeBits(mode: nat, k: nat)
    ensures Bit(BitOr(S_IFDIR, mode), k) <==> Bit(mode, k) || k == 14
  {
    OrBit(S_IFDIR, mode, k);
    Fourteen(k);
  }

  /** A device number has the minor's bits, and the major's eight places up. */
  lemma DeviceNumberBits(major: nat, minor: nat, k: nat)
    ensures Bit(DeviceNumber(major, minor), k) <==> Bit(minor, k) || (k >= 8 && Bit(major, k - 8))
  {
    OrBit(major * 256, minor, k);
    assert Power(8) == 256 by {
      assert Power(8) == 2 * Power(7) == 4 * Power(6) == 8 * Power(5) == 16 * Power(4) == 32 * Power(3);
    }
    if k >= 8 {
      ShiftAdd(major * 256, 8, k - 8);
      ShiftDown(major, 8);
    } else {
      LowBits(major, 8, k);
    }
  }
}
