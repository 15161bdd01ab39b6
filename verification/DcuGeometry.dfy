/** Cylinder, head and sector against the flat sector number, and the range of the numbers involved. */
module DcuGeometry {
  import opened Bytes
  import opened DcuModel

  lemma DivUnique(a: nat, d: nat, q: nat, r: nat)
    requires d > 0 && a == q * d + r && r < d
    ensures a / d == q && a % d == r
  {
    var q', r' := a / d, a % d;
    assert a == q' * d + r';
    if q' < q {
      MulMono(q' + 1, q, d);
    } else if q < q' {
      MulMono(q + 1, q', d);
    }
  }

  lemma MulMono(a: nat, b: nat, d: nat)
    requires a <= b
    ensures a * d <= b * d
  {
  }

  datatype Chs = Chs(cylinder: nat, head: nat, sector: nat)

  function Flat(g: Chs, heads: nat, sectors: nat): nat {
    ToLba(heads, sectors, g.cylinder, g.head, g.sector)
  }

  function Split(lba: nat, heads: nat, sectors: nat): Chs
    requires heads > 0 && sectors > 0
  {
    Chs(lba / sectors / heads, lba / sectors % heads, lba % sectors)
  }

  /** Splitting undoes flattening: two positions of a drive never share a sector number. */
  lemma SplitFlat(g: Chs, heads: nat, sectors: nat)
    requires g.head < heads && g.sector < sectors
    ensures Split(Flat(g, heads, sectors), heads, sectors) == g
  {
    DivUnique(Flat(g, heads, sectors), sectors, g.cylinder * heads + g.head, g.sector);
    DivUnique(g.cylinder * heads + g.head, heads, g.cylinder, g.head);
  }

  /** Flattening undoes splitting, so every sector number is some position. */
  lemma FlatSplit(lba: nat, heads: nat, sectors: nat)
    requires heads > 0 && sectors > 0
    ensures var g := Split(lba, heads, sectors); Flat(g, heads, sectors) == lba && g.head < heads && g.sector < sectors
  {
    var t := lba / sectors;
    assert lba == t * sectors + lba % sectors;
    assert t == t / heads * heads + t % heads;
  }

  /** The positions of a drive are exactly the numbers below `cylinders * heads * sectors`. */
  lemma OntoUnit(g: Chs, cylinders: nat, heads: nat, sectors: nat)
    requires g.head < heads && g.sector < sectors
    ensures g.cylinder < cylinders <==> Flat(g, heads, sectors) < cylinders * heads * sectors
  {
    var track := g.cylinder * heads + g.head;
    if g.cylinder < cylinders {
      MulMono(g.cylinder + 1, cylinders, heads);
      assert track + 1 <= cylinders * heads;
      MulMono(track + 1, cylinders * heads, sectors);
    } else {
      MulMono(cylinders, g.cylinder, heads);
      MulMono(cylinders * heads, track, sectors);
    }
  }

  /** The next sector on the track, the first of the next track, or the first of the next cylinder. */
  function Next(g: Chs, heads: nat, sectors: nat): Chs {
    if g.sector + 1 < sectors then Chs(g.cylinder, g.head, g.sector + 1)
    else if g.head + 1 < heads then Chs(g.cylinder, g.head + 1, 0)
    else Chs(g.cylinder + 1, 0, 0)
  }

  /** `lba++` carries as the heads move. */
  lemma IncrementCarries(g: Chs, heads: nat, sectors: nat)
    requires g.head < heads && g.sector < sectors
    ensures Flat(Next(g, heads, sectors), heads, sectors) == Flat(g, heads, sectors) + 1
  {
    var track := g.cylinder * heads + g.head;
    assert (track + 1) * sectors == track * sectors + sectors;
    assert (g.cylinder + 1) * heads == g.cylinder * heads + heads;
  }

  /** No step of the computation, nor of the loop that counts up from it, leaves 32 bits. */
  lemma NoWrap(cylinder: nat, head: nat, sector: nat, count: nat, heads: nat, sectors: nat)
    requires cylinder < 0x1_0000 && head < 32 && sector < 256 && count < 256
    requires 1 <= heads < 32 && 1 <= sectors < 256
    ensures cylinder * heads < 0x1_0000_0000
    ensures cylinder * heads + head < 0x1_0000_0000
    ensures (cylinder * heads + head) * sectors < 0x1_0000_0000
    ensures ToLba(heads, sectors, cylinder, head, sector) + count < 0x1_0000_0000
  {
    MulMono(cylinder, 65535, heads);
    MulMono(heads, 31, 65535);
    var track := cylinder * heads + head;
    assert track <= 2031616;
    MulMono(track, 2031616, sectors);
    MulMono(sectors, 255, 2031616);
  }

  // --- the cached geometry --------------------------------------------------------------

  /** A geometry the engine can come to use. */
  predicate Admissible(sectors: nat, heads: nat) {
    1 <= sectors < 256 && 1 <= heads < 32
  }

  lemma FreshAdmissible(d: Drive)
    ensures Admissible(FreshGeometry(d).0, FreshGeometry(d).1)
  {
    hide U16, U32;
  }

  /** Sector 0 carries a pack header of a shape the engine takes up. */
  predicate HeaderIn(h: Sector) {
    && h[0] == 0 && h[1] == 0x70 && h[2] == 0x73 && h[3] == 0x6d
    && h[8] != 0 && h[9] == 0 && 0 < h[10] < 32 && h[11] == 0
  }

  /** A drive's geometry from the bytes of its sector 0: sectors per track in byte 8 and tracks per cylinder in byte
      10 of a header, and otherwise 24 and 3. */
  lemma FreshFromBytes(d: Drive)
    ensures FreshGeometry(d) ==
      if d.Ok(0) && HeaderIn(d.sectors[0]) then (d.sectors[0][8] as nat, d.sectors[0][10] as nat) else (24, 3)
  {
  }

  /** The fields of an IOCB stay within the widths the no-wrap bound needs. */
  lemma DecodeWidths(mem: seq<byte>, a: nat)
    ensures var io := Decode(mem, a);
      io.cylinder < 0x1_0000 && io.head < 32 && io.sector < 256 && io.count < 256 && io.unit < 8
  {
  }
}
