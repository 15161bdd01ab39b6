/** The parts of an image that the reader never looks at, byte for byte: the times of inodes and superblock, the magic
    numbers and names, the slots of inodes that were not handed out, and the filling between the fields. */
module Stamps {
  import opened Bytes
  import opened FileStore
  import opened FsModel
  import opened S5Reader
  import opened OnDisk
  import opened FreeList
  import opened Image

  /** Access, modification and creation time of inode `n`, and the byte before them. */
  ghost predicate InodeStamped(d: seq<byte>, n: nat, now: nat) {
    && n >= 1 && 2048 + 64 * n <= |d|
    && d[2035 + 64 * n] == 0
    && U32(d, 2036 + 64 * n) == now && U32(d, 2040 + 64 * n) == now && U32(d, 2044 + 64 * n) == now
  }

  ghost predicate InodeBlank(d: seq<byte>, n: nat) {
    n >= 1 && 2048 + 64 * n <= |d| && forall k :: 1984 + 64 * n <= k < 2048 + 64 * n ==> d[k] == 0
  }

  /** Bytes of the superblock that belong to no field. */
  predicate Between(i: nat) {
    2 <= i < 4 || 10 <= i < 12 || 414 <= i < 420 || 424 <= i < 432 || 450 <= i < 504
  }

  ghost predicate SuperStamped(d: seq<byte>, now: nat) {
    && |d| >= 1024
    && U32(d, 932) == now && U32(d, 1016) == 0xfd18_7e20 && U32(d, 1020) == 2
    && d[950..956] == [114, 111, 111, 116, 0, 0]      // "root"
    && d[956..962] == [103, 101, 110, 105, 120, 0]    // "genix"
    && forall i: nat :: Between(i) ==> d[512 + i] == 0
  }

  /** An image of `s` carries time `now` in its superblock and in every inode handed out; the other slots are blank. */
  ghost predicate Stamped(d: seq<byte>, s: State, now: nat) {
    && SuperStamped(d, now)
    && forall n: nat :: 1 <= n <= s.ninodes ==> if n in s.inodes then InodeStamped(d, n, now) else InodeBlank(d, n)
  }

  lemma TimesPacked(i: Inode, now: nat)
    requires |i.addr| == 13
    ensures var p := PackedInode(i, now);
      p[51] == 0 && p[52..56] == LE32(now) && p[56..60] == LE32(now) && p[60..64] == LE32(now)
  {
    PackedParts(i, now);
    hide InodeHead, AddrByte, LE32;
    var head, times := InodeHead(i) + AddrField(i.addr), LE32(now) + LE32(now) + LE32(now);
    assert PackedInode(i, now) == head + times;
    assert PackedInode(i, now)[12 + 39] == AddrByte(i.addr, 39);
    LastByte(i.addr);
  }

  lemma WordAtSlot(d: seq<byte>, o: nat, p: seq<byte>, k: nat, x: nat)
    requires |p| == 64 && o + 64 <= |d| && d[o..o + 64] == p
    requires k + 4 <= 64 && p[k..k + 4] == LE32(x) && x < 0x1_0000_0000
    ensures U32(d, o + k) == x
  {
    FieldsRoundTrip(x);
    hide LE32, U32;
    SubSlice(d, o, 64, k, 4);
    FieldInSlice(d, o + k, LE32(x));
  }

  lemma InodeIsStamped(d: seq<byte>, s: State, now: nat, fl: Cache, n: nat)
    requires ImageOf(d, s, now, fl) && n in s.inodes && 1 <= n <= s.ninodes
    ensures InodeStamped(d, n, now)
  {
    hide SuperBytes, Represents, Holds, PackedInode, U32, LE32;
    assert Packable(s.inodes[n]);
    assert Slot(d, n) == SlotBytes(s.inodes, n, now);
    var p := PackedInode(s.inodes[n], now);
    TimesPacked(s.inodes[n], now);
    assert d[InodeOffset(n) + 51] == Slot(d, n)[51];
    WordAtSlot(d, InodeOffset(n), p, 52, now);
    WordAtSlot(d, InodeOffset(n), p, 56, now);
    WordAtSlot(d, InodeOffset(n), p, 60, now);
  }

  lemma InodeIsBlank(d: seq<byte>, s: State, now: nat, fl: Cache, n: nat)
    requires ImageOf(d, s, now, fl) && n !in s.inodes && 1 <= n <= s.ninodes
    ensures InodeBlank(d, n)
  {
    hide SuperFits, SuperBytes, Represents, Holds, PackedInode, Packable;
    assert Slot(d, n) == SlotBytes(s.inodes, n, now) == Zeros(64);
    assert forall k :: 1984 + 64 * n <= k < 2048 + 64 * n ==> d[k] == Slot(d, n)[k - 1984 - 64 * n];
  }

  lemma SuperIsStamped(d: seq<byte>, s: State, now: nat, fl: Cache)
    requires ImageOf(d, s, now, fl)
    ensures SuperStamped(d, now)
  {
    hide Represents, Holds, IList, SuperFits, U32, FreeStack;
    var sb := SuperOf(s, fl, now);
    SuperReads(d, sb);
    forall i: nat | i < 512
      ensures d[512 + i] == SuperByte(sb, i)
    {
      assert d[512 + i] == d[512..1024][i];
    }
    hide LE16, LE32, Words, Words16;
    assert forall j :: 0 <= j < 6 ==> d[950 + j] == SuperByte(sb, 438 + j) == ROOT_NAME[j];
    assert forall j :: 0 <= j < 6 ==> d[956 + j] == SuperByte(sb, 444 + j) == PACK_NAME[j];
  }

  /** Every image is stamped. */
  lemma ImageIsStamped(d: seq<byte>, s: State, now: nat, fl: Cache)
    requires ImageOf(d, s, now, fl)
    ensures Stamped(d, s, now)
  {
    hide ImageOf, InodeStamped, InodeBlank, SuperStamped;
    SuperIsStamped(d, s, now, fl);
    forall n: nat | 1 <= n <= s.ninodes
      ensures if n in s.inodes then InodeStamped(d, n, now) else InodeBlank(d, n)
    {
      if n in s.inodes {
        InodeIsStamped(d, s, now, fl, n);
      } else {
        InodeIsBlank(d, s, now, fl, n);
      }
    }
  }
}
