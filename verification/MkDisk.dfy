/** tools/mkdisk.py: the shape of a drive, how its pack is partitioned, and the header in sector 0 that says so. */
module MkDisk {
  import opened Bytes
  import opened DcuModel
  import opened DcuGeometry

  datatype Shape = Shape(nsec: nat, ntr: nat, ncyl: nat, ploz: nat, plonz: nat)

  /** `nbl` sectors from cylinder `cyloff` on. */
  datatype Part = Part(nbl: int, cyloff: int)

  const DRIVES: map<string, Shape> := map[
    "basf20" := Shape(24, 3, 614, 11, 17),
    "3m20" := Shape(30, 4, 280, 29, 57),
    "3m60" := Shape(32, 4, 838, 9, 21),
    "imi20" := Shape(18, 5, 388, 29, 61),
    "imi60" := Shape(18, 7, 776, 29, 61),
    "priam70" := Shape(22, 5, 1049, 23, 73)]

  // --- layout -------------------------------------------------------------------------

  predicate Positive(s: Shape) {
    s.nsec > 0 && s.ntr > 0
  }

  function Spcyl(s: Shape): nat {
    s.nsec * s.ntr
  }

  function Spunit(s: Shape): nat {
    Spcyl(s) * s.ncyl
  }

  /** Cylinders that hold 5040 sectors, and one to spare; 46 at the least. */
  function SwapCyls(s: Shape): nat
    requires Spcyl(s) > 0
  {
    var n := (5040 + Spcyl(s) - 1) / Spcyl(s) + 1;
    if n > 46 then n else 46
  }

  function RootCyls(s: Shape): int
    requires Spcyl(s) > 0
  {
    s.ncyl - SwapCyls(s)
  }

  function Layout(s: Shape): (p: seq<Part>)
    requires Spcyl(s) > 0
    ensures |p| == 8
  {
    var root := Part(RootCyls(s) * Spcyl(s), 0);
    var swap := Part(SwapCyls(s) * Spcyl(s), RootCyls(s));
    [root, swap, root, swap, Part(Spunit(s), 0), Part(0, 0), Part(0, 0), Part(0, 0)]
  }

  function RootBlocks(s: Shape): int
    requires Spcyl(s) > 0
  {
    Layout(s)[0].nbl / 2
  }

  /** The unit has cylinders enough for the swap partition. */
  predicate Roomy(s: Shape) {
    Positive(s) && Spcyl(s) > 0 && RootCyls(s) >= 0
  }

  lemma CylinderSectors(s: Shape)
    requires Positive(s)
    ensures Spcyl(s) >= s.nsec && Spcyl(s) >= s.ntr && Spcyl(s) > 0
  {
    MulMono(1, s.ntr, s.nsec);
    MulMono(1, s.nsec, s.ntr);
  }

  lemma SwapEnough(d: nat)
    requires d > 0
    ensures ((5040 + d - 1) / d + 1) * d >= 5040 + d
  {
    var q := (5040 + d - 1) / d;
    assert 5040 + d - 1 == q * d + (5040 + d - 1) % d;
    assert (q + 1) * d == q * d + d;
  }

  /** For every shape: the root and swap partitions follow one another without a gap and fill the unit, and the swap
      has its 5040 sectors and a spare cylinder. The root is not of negative size exactly when the unit is roomy. */
  lemma PartitionsTile(s: Shape)
    requires Positive(s)
    ensures Spcyl(s) > 0
    ensures var root, swap := Layout(s)[0], Layout(s)[1];
      && root.cyloff == 0 && swap.cyloff * Spcyl(s) == root.nbl
      && root.nbl + swap.nbl == Spunit(s)
      && swap.nbl >= 5040 + Spcyl(s)
      && (root.nbl >= 0 <==> Roomy(s))
    ensures Layout(s)[2] == Layout(s)[0] && Layout(s)[3] == Layout(s)[1]
    ensures Layout(s)[4].cyloff == 0 && Layout(s)[4].nbl == s.nsec * s.ntr * s.ncyl
    ensures forall i :: 5 <= i < 8 ==> Layout(s)[i].nbl == 0 && Layout(s)[i].cyloff == 0
    ensures var w := Layout(s)[1].nbl / Spcyl(s);
      && w >= 46 && (w == 46 || (w - 2) * Spcyl(s) < 5040 <= (w - 1) * Spcyl(s)) && Layout(s)[1].nbl == w * Spcyl(s)
  {
    SwapLeast(s);
    CylinderSectors(s);
    var d, w, r := Spcyl(s), SwapCyls(s), RootCyls(s);
    hide Spcyl;
    SwapEnough(d);
    MulMono((5040 + d - 1) / d + 1, w, d);
    assert r * d + w * d == (r + w) * d;
    SignOf(r, d);
  }

  /** The swap takes the fewest cylinders that will do, 46 at the least. */
  lemma SwapLeast(s: Shape)
    requires Positive(s)
    ensures Spcyl(s) > 0 && Layout(s)[1].nbl == SwapCyls(s) * Spcyl(s)
    ensures var w := SwapCyls(s); w >= 46 && (w == 46 || (w - 2) * Spcyl(s) < 5040 <= (w - 1) * Spcyl(s))
    ensures Layout(s)[1].nbl / Spcyl(s) == SwapCyls(s)
  {
    CylinderSectors(s);
    var d := Spcyl(s);
    var q := (5040 + d - 1) / d;
    assert 5040 + d - 1 == q * d + (5040 + d - 1) % d;
    assert (q - 1) * d == q * d - d;
    DivUnique(SwapCyls(s) * d, d, SwapCyls(s), 0);
  }

  lemma SignOf(r: int, d: nat)
    requires d > 0
    ensures r * d >= 0 <==> r >= 0
  {
    if r < 0 {
      MulMono(1, -r, d);
      assert (-r) * d == -(r * d);
    }
  }

  /** The filesystem's blocks fit in the root partition, and one more would not. */
  lemma RootBlocksFit(s: Shape)
    requires Roomy(s)
    ensures 0 <= 2 * RootBlocks(s) <= Layout(s)[0].nbl < 2 * (RootBlocks(s) + 1)
    ensures 2 * RootBlocks(s) <= Spunit(s)
  {
    PartitionsTile(s);
  }

  lemma RootSectors(s: Shape)
    requires Roomy(s)
    ensures Layout(s)[0].nbl == RootCyls(s) * s.ntr * s.nsec
  {
    hide RootCyls, SwapCyls;
    assert RootCyls(s) * s.ntr * s.nsec == RootCyls(s) * (s.nsec * s.ntr);
  }

  /** Both sectors of a root block lie on cylinders below the swap partition. */
  lemma RootBlockCylinders(s: Shape, b: nat, k: nat)
    requires Roomy(s) && b < RootBlocks(s) && k < 2
    ensures var g := Split(2 * b + k, s.ntr, s.nsec);
      && g.cylinder < RootCyls(s) <= s.ncyl && g.head < s.ntr && g.sector < s.nsec
      && ToLba(s.ntr, s.nsec, g.cylinder, g.head, g.sector) == 2 * b + k
  {
    RootBlocksFit(s);
    RootSectors(s);
    var r := RootCyls(s);
    assert r <= s.ncyl;
    hide Layout, SwapCyls, Split, Spcyl, RootCyls, ToLba;
    FlatSplit(2 * b + k, s.ntr, s.nsec);
    var g := Split(2 * b + k, s.ntr, s.nsec);
    OntoUnit(g, r, s.ntr, s.nsec);
  }

  // --- the header ---------------------------------------------------------------------

  predicate Short(x: int) {
    -0x8000 <= x < 0x8000
  }

  predicate Long(x: int) {
    -0x8000_0000 <= x < 0x8000_0000
  }

  /** `struct.pack('<h', x)` and `'<i'`: two's complement. */
  function S16(x: int): seq<byte> {
    LE16(x % 0x1_0000)
  }

  function S32(x: int): (b: seq<byte>)
    ensures |b| == 4
  {
    LE32(x % 0x1_0000_0000)
  }

  function Head(s: Shape): (b: seq<byte>)
    ensures |b| == 20
  {
    LE32(DcuModel.DMAGIC) + S16(s.ploz) + S16(s.plonz) + S16(s.nsec) + S16(s.ntr) + S16(s.ncyl) + S16(Spcyl(s))
    + LE32(Spunit(s))
  }

  function PartBytes(parts: seq<Part>): (b: seq<byte>)
    ensures |b| == 8 * |parts|
  {
    if parts == [] then [] else
      var last := parts[|parts| - 1];
      PartBytes(parts[..|parts| - 1]) + S32(last.nbl) + S32(last.cyloff)
  }

  predicate HeadFits(s: Shape) {
    && Short(s.ploz) && Short(s.plonz) && Short(s.nsec) && Short(s.ntr) && Short(s.ncyl) && Short(Spcyl(s))
    && Spunit(s) < 0x1_0000_0000
  }

  predicate PartFits(p: Part) {
    Long(p.nbl) && Long(p.cyloff)
  }

  /** The 92 bytes of a disktab; nothing when a number does not fit its field. */
  function Header(s: Shape, name: seq<byte>): (b: Option<seq<byte>>)
    requires Spcyl(s) > 0
    ensures b.Some? ==> |b.value| == 92
  {
    if HeadFits(s) && forall i :: 0 <= i < 8 ==> PartFits(Layout(s)[i])
    then Some(Head(s) + PartBytes(Layout(s)) + Pad(Slice(name, 0, 8), 8))
    else None
  }

  /** `disktab` */
  method Disktab(s: Shape, name: seq<byte>) returns (r: Option<seq<byte>>)
    requires Spcyl(s) > 0
    ensures r == Header(s, name)
  {
    hide Head, HeadFits, PartFits, S32;
    if !HeadFits(s) {
      return None;
    }
    var parts := Layout(s);
    hide Layout;
    var b := Head(s);
    for i := 0 to |parts|
      invariant forall j :: 0 <= j < i ==> PartFits(parts[j])
      invariant b == Head(s) + PartBytes(parts[..i])
    {
      if !PartFits(parts[i]) {
        return None;
      }
      b := b + (S32(parts[i].nbl) + S32(parts[i].cyloff));
      PartsSnoc(parts, i);
      Assoc(Head(s), PartBytes(parts[..i]), S32(parts[i].nbl) + S32(parts[i].cyloff));
    }
    assert parts[..8] == parts;
    b := b + Pad(Slice(name, 0, 8), 8);
    return Some(b);
  }

  lemma PartsSnoc(parts: seq<Part>, i: nat)
    requires i < |parts|
    ensures PartBytes(parts[..i + 1]) == PartBytes(parts[..i]) + (S32(parts[i].nbl) + S32(parts[i].cyloff))
  {
    hide S32;
    assert parts[..i + 1][..i] == parts[..i];
    Assoc(PartBytes(parts[..i]), S32(parts[i].nbl), S32(parts[i].cyloff));
  }

  // --- reading it back -----------------------------------------------------------------

  lemma ShortReads(x: int, s: seq<byte>, i: nat)
    requires Short(x) && i + 2 <= |s| && s[i] == S16(x)[0] && s[i + 1] == S16(x)[1]
    ensures I16(s, i) == x && (x >= 0 ==> U16(s, i) == x)
  {
  }

  /** What the disk driver finds in the fixed part of the header is the drive's shape. */
  lemma HeadReads(s: Shape, b: seq<byte>)
    requires HeadFits(s) && |b| >= 20 && b[..20] == Head(s)
    ensures U32(b, 0) == 0x6d73_7000 && U16(b, 8) == s.nsec && U16(b, 10) == s.ntr
    ensures I16(b, 4) == s.ploz && I16(b, 6) == s.plonz && I16(b, 12) == s.ncyl && I16(b, 14) == s.nsec * s.ntr
    ensures U32(b, 16) == s.nsec * s.ntr * s.ncyl
  {
    assert Spcyl(s) == s.nsec * s.ntr && Spunit(s) == Spcyl(s) * s.ncyl;
    var h := Head(s);
    HeadBytes(s);
    hide Head, S16, U16, I16, U32, Spunit, Spcyl;
    assert forall i :: 0 <= i < 20 ==> b[i] == h[i];
    FieldsRoundTrip(DcuModel.DMAGIC);
    FieldsRoundTrip(Spunit(s));
    SameWord(b, LE32(DcuModel.DMAGIC), 0);
    SameWord(b, LE32(Spunit(s)), 16);
    ShortReads(s.ploz, b, 4);
    ShortReads(s.plonz, b, 6);
    ShortReads(s.nsec, b, 8);
    ShortReads(s.ntr, b, 10);
    ShortReads(s.ncyl, b, 12);
    ShortReads(Spcyl(s), b, 14);
  }

  lemma SameWord(b: seq<byte>, w: seq<byte>, i: nat)
    requires i + 4 <= |b| && |w| == 4 && b[i] == w[0] && b[i + 1] == w[1] && b[i + 2] == w[2] && b[i + 3] == w[3]
    ensures U32(b, i) == U32(w, 0)
  {
  }

  lemma HeadBytes(s: Shape)
    ensures var h := Head(s);
      && h[0] == LE32(DcuModel.DMAGIC)[0] && h[1] == LE32(DcuModel.DMAGIC)[1]
      && h[2] == LE32(DcuModel.DMAGIC)[2] && h[3] == LE32(DcuModel.DMAGIC)[3]
      && h[4] == S16(s.ploz)[0] && h[5] == S16(s.ploz)[1] && h[6] == S16(s.plonz)[0] && h[7] == S16(s.plonz)[1]
      && h[8] == S16(s.nsec)[0] && h[9] == S16(s.nsec)[1] && h[10] == S16(s.ntr)[0] && h[11] == S16(s.ntr)[1]
      && h[12] == S16(s.ncyl)[0] && h[13] == S16(s.ncyl)[1]
      && h[14] == S16(Spcyl(s))[0] && h[15] == S16(Spcyl(s))[1]
      && h[16] == LE32(Spunit(s))[0] && h[17] == LE32(Spunit(s))[1]
      && h[18] == LE32(Spunit(s))[2] && h[19] == LE32(Spunit(s))[3]
  {
  }

  /** The controller learns the drive's shape from its header, exactly when the sectors of a track are fewer than 256
      and its tracks fewer than 32; otherwise it goes on with 24 and 3. */
  lemma HeaderIsParsed(s: Shape, name: seq<byte>, sector: Sector)
    requires Positive(s) && Spcyl(s) > 0 && Header(s, name).Some?
    requires sector[..92] == Header(s, name).value
    ensures Parse(sector) == if s.nsec < 256 && s.ntr < 32 then (s.nsec, s.ntr) else (24, 3)
    ensures Parse(sector) == (s.nsec, s.ntr) <==> s.nsec < 256 && s.ntr < 32
  {
    hide Head, PartBytes, Layout, U16, I16, U32;
    assert sector[..20] == sector[..92][..20] == Head(s);
    HeadReads(s, sector);
  }

  lemma {:induction false} PartAt(parts: seq<Part>, i: nat)
    requires i < |parts|
    ensures PartBytes(parts)[8 * i..8 * i + 4] == S32(parts[i].nbl)
    ensures PartBytes(parts)[8 * i + 4..8 * i + 8] == S32(parts[i].cyloff)
  {
    hide S32;
    var init := parts[..|parts| - 1];
    if i < |parts| - 1 {
      PartAt(init, i);
      assert PartBytes(parts)[8 * i..8 * i + 4] == PartBytes(init)[8 * i..8 * i + 4];
      assert PartBytes(parts)[8 * i + 4..8 * i + 8] == PartBytes(init)[8 * i + 4..8 * i + 8];
    }
  }

  lemma LongReads(x: int, s: seq<byte>, i: nat)
    requires Long(x) && i + 4 <= |s| && s[i..i + 4] == S32(x)
    ensures I32(s, i) == x
  {
    FieldsRoundTrip(x % 0x1_0000_0000);
    FieldInSlice(s, i, S32(x));
    hide U32;
  }

  /** Every partition reads back from the header. */
  lemma PartReads(s: Shape, name: seq<byte>, i: nat)
    requires Spcyl(s) > 0 && Header(s, name).Some? && i < 8
    ensures var b := Header(s, name).value;
      I32(b, 20 + 8 * i) == Layout(s)[i].nbl && I32(b, 24 + 8 * i) == Layout(s)[i].cyloff
  {
    var b, parts := Header(s, name).value, Layout(s);
    assert PartFits(parts[i]);
    hide Head, Layout, S32, I32;
    PartAt(parts, i);
    var pb := PartBytes(parts);
    hide PartBytes;
    assert b[20..84] == pb;
    SubSlice(b, 20, 64, 8 * i, 4);
    SubSlice(b, 20, 64, 8 * i + 4, 4);
    LongReads(parts[i].nbl, b, 20 + 8 * i);
    LongReads(parts[i].cyloff, b, 24 + 8 * i);
  }

  /** The last eight bytes are the beginning of the name, with zeros after a shorter one. */
  lemma NameReads(s: Shape, name: seq<byte>, i: nat)
    requires Spcyl(s) > 0 && Header(s, name).Some? && i < 8
    ensures Header(s, name).value[84 + i] == if i < |name| then name[i] else 0
  {
    hide Head, PartBytes, Layout, PartFits, HeadFits;
    var field := Pad(Slice(name, 0, 8), 8);
    assert Header(s, name).value == Head(s) + PartBytes(Layout(s)) + field;
    assert |Head(s) + PartBytes(Layout(s))| == 84;
    assert Header(s, name).value[84 + i] == field[i];
    if i < |name| {
      assert Slice(name, 0, 8)[i] == name[i];
    }
  }

  // --- National's drives -----------------------------------------------------------------

  /** Any drive of the table can be built, and the controller reads its shape. */
  predicate Usable(s: Shape) {
    Roomy(s) && HeadFits(s) && (forall i :: 0 <= i < 8 ==> PartFits(Layout(s)[i])) && s.nsec < 256 && s.ntr < 32
  }

  /** When a roomy shape has a header: the products must fit their fields, the rest follows. */
  lemma UsableWhen(s: Shape)
    requires Roomy(s)
    ensures Usable(s) <==>
      && s.ploz < 0x8000 && s.plonz < 0x8000 && s.nsec < 256 && s.ntr < 32 && s.ncyl < 0x8000
      && Spunit(s) < 0x8000_0000
  {
    PartitionsTile(s);
    var parts := Layout(s);
    if s.nsec < 256 && s.ntr < 32 {
      MulMono(s.nsec, 255, s.ntr);
      assert Spcyl(s) <= 255 * 31;
    }
    hide Spcyl, Spunit;
    if Usable(s) {
      assert PartFits(parts[4]);
    }
    if Spunit(s) < 0x8000_0000 && s.ncyl < 0x8000 {
      forall i | 0 <= i < 8
        ensures PartFits(parts[i])
      {
      }
    }
  }

  lemma DrivesUsable(drive: string)
    requires drive in DRIVES
    ensures Usable(DRIVES[drive])
  {
    var s := DRIVES[drive];
    UsableWhen(s);
  }

  // --- the pack ----------------------------------------------------------------------------

  /** A blank pack with the header at its start. */
  function Pack(s: Shape, header: seq<byte>): seq<byte>
    requires Spunit(s) > 0 && |header| <= 512
  {
    Splice(Zeros(512 * Spunit(s)), 0, Pad(header, 512))
  }
}
