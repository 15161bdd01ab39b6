/** One disk, two systems: the filesystem image laid over a pack (tools/rebuild-disk.sh), read block by block through
    the disk controller. */
module EndToEnd {
  import opened Bytes
  import opened S5Reader
  import opened DcuModel
  import opened DcuChain
  import opened DcuEffects
  import opened DcuGeometry
  import opened DcuRoundTrip
  import opened DcuCoherence
  import opened DcuBytes
  import opened MkDisk

  /** `img[0:len(fs)] = fs` */
  function Overlay(img: seq<byte>, fs: seq<byte>): seq<byte> {
    if |fs| <= |img| then Splice(img, 0, fs) else fs
  }

  /** A drive's image file as its sectors. */
  function SectorsOf(img: seq<byte>): (r: seq<Sector>)
    ensures |r| == |img| / 512
    ensures forall i :: 0 <= i < |r| ==> r[i] == img[512 * i..512 * i + 512]
  {
    seq(|img| / 512, i requires 0 <= i < |img| / 512 => SectorOf(img, i))
  }

  function SectorOf(img: seq<byte>, i: nat): Sector
    requires i < |img| / 512
  {
    img[512 * i..512 * i + 512]
  }

  /** A filesystem made for the drive by `mkfs --disktab`: as many blocks as fit its root partition, and its header. */
  ghost predicate MadeFor(s: Shape, name: seq<byte>, fs: seq<byte>) {
    && Roomy(s) && s.nsec < 256 && s.ntr < 32
    && Header(s, name).Some?
    && |fs| == 1024 * RootBlocks(s) && |fs| >= 512 && fs[..92] == Header(s, name).value
  }

  lemma MadeParts(s: Shape, name: seq<byte>, fs: seq<byte>)
    requires MadeFor(s, name, fs)
    ensures Spcyl(s) > 0 && Spunit(s) > 0 && Header(s, name).Some? && RootBlocks(s) > 0
    ensures 512 <= |fs| == 1024 * RootBlocks(s) <= 512 * Layout(s)[0].nbl <= 512 * Spunit(s)
  {
    RootBlocksFit(s);
    PartitionsTile(s);
    hide Layout, Spunit, RootBlocks, Header;
  }

  /** The disk `rebuild-disk.sh` writes. */
  function Disk(s: Shape, name: seq<byte>, fs: seq<byte>): seq<byte>
    requires MadeFor(s, name, fs)
  {
    MadeParts(s, name, fs);
    Overlay(Pack(s, Header(s, name).value), fs)
  }

  /** Laying the filesystem over the pack neither grows it nor touches anything past the root partition: the swap
      partition stays as `mkdisk` left it, all zeros. */
  lemma OverlayKeepsSwap(s: Shape, name: seq<byte>, fs: seq<byte>)
    requires MadeFor(s, name, fs)
    ensures |Disk(s, name, fs)| == 512 * Spunit(s)
    ensures Disk(s, name, fs)[..|fs|] == fs
    ensures Layout(s)[0].nbl >= 0
    ensures forall k :: 512 * Layout(s)[0].nbl <= k < |Disk(s, name, fs)| ==> Disk(s, name, fs)[k] == 0
  {
    MadeParts(s, name, fs);
    var pack := Pack(s, Header(s, name).value);
    hide Layout, Spunit, RootBlocks, Header, MadeFor;
    assert forall k :: 512 <= k < |pack| ==> pack[k] == 0;
  }

  // --- the controller's view --------------------------------------------------------------

  lemma DiskSector(s: Shape, name: seq<byte>, fs: seq<byte>, i: nat)
    requires MadeFor(s, name, fs) && 512 * i + 512 <= |fs|
    ensures i < |SectorsOf(Disk(s, name, fs))| && SectorsOf(Disk(s, name, fs))[i] == fs[512 * i..512 * i + 512]
  {
    OverlayKeepsSwap(s, name, fs);
    MadeParts(s, name, fs);
    hide Disk, MadeFor, Layout, Spunit, RootBlocks;
    var d := Disk(s, name, fs);
    assert d[512 * i..512 * i + 512] == d[..|fs|][512 * i..512 * i + 512];
  }

  /** The controller takes the drive's own shape from sector 0 of the disk. */
  lemma DiskGeometry(s: Shape, name: seq<byte>, fs: seq<byte>, d: Drive)
    requires MadeFor(s, name, fs) && d.sectors == SectorsOf(Disk(s, name, fs)) && d.Ok(0)
    ensures FreshGeometry(d) == (s.nsec, s.ntr)
  {
    MadeParts(s, name, fs);
    DiskSector(s, name, fs, 0);
    var sector := d.sectors[0];
    assert sector[..92] == fs[..92];
    assert Positive(s);
    hide Header, Parse, Disk, Layout, Spunit, Spcyl, RootBlocks;
    HeaderIsParsed(s, name, sector);
  }

  function Joined(a: seq<byte>, b: seq<byte>): seq<byte> {
    a + b
  }

  /** Sectors `2 * b` and `2 * b + 1` together are block `b` as the filesystem's reader sees it. */
  predicate BlockInSectors(sectors: seq<Sector>, fs: seq<byte>, b: nat) {
    2 * b + 1 < |sectors| && Joined(sectors[2 * b], sectors[2 * b + 1]) == Blk(fs, b)
  }

  /** A filesystem block is the two sectors at twice its number. */
  lemma BlockIsTwoSectors(s: Shape, name: seq<byte>, fs: seq<byte>, b: nat)
    requires MadeFor(s, name, fs) && 0 < b < RootBlocks(s)
    ensures BlockInSectors(SectorsOf(Disk(s, name, fs)), fs, b)
  {
    MadeParts(s, name, fs);
    hide Disk, MadeFor, Layout, Spunit, RootBlocks, SectorsOf;
    DiskSector(s, name, fs, 2 * b);
    DiskSector(s, name, fs, 2 * b + 1);
    TwoHalves(fs, b);
  }

  lemma TwoHalves(fs: seq<byte>, b: nat)
    requires 0 < b && 1024 * b + 1024 <= |fs|
    ensures fs[512 * (2 * b)..512 * (2 * b) + 512] + fs[512 * (2 * b + 1)..512 * (2 * b + 1) + 512] == Blk(fs, b)
  {
    var x, y, z := fs[512 * (2 * b)..512 * (2 * b) + 512], fs[512 * (2 * b + 1)..512 * (2 * b + 1) + 512], Blk(fs, b);
    assert z == fs[1024 * b..1024 * b + 1024];
    forall k | 0 <= k < 1024
      ensures (x + y)[k] == z[k]
    {
      assert z[k] == fs[1024 * b + k];
    }
  }

  /** Its cylinder, head and sector fit the fields of an IOCB. */
  lemma BlockAddressFits(s: Shape, name: seq<byte>, fs: seq<byte>, b: nat)
    requires MadeFor(s, name, fs) && b < RootBlocks(s)
    ensures var g := Split(2 * b, s.ntr, s.nsec);
      g.cylinder < RootCyls(s) && g.cylinder < 0x1_0000 && g.head < 32 && g.sector < 256
  {
    assert HeadFits(s);
    RootBlockCylinders(s, b, 0);
  }

  // --- a block, read ----------------------------------------------------------------------

  /** The bytes of an IOCB at `a`, not chained further, that reads block `b` of unit `u` into two pages. */
  ghost predicate ReadsBlock(c: Core, a: nat, io: Iocb, pages: seq<nat>, s: Shape, u: nat, b: nat)
    requires Positive(s)
  {
    var g := Split(2 * b, s.ntr, s.nsec);
    && Laid(c.mem, a, io, pages)
    && io.opcode != 0xe6 && io.opcode != 0xbc && io.count == 2 && io.unit == u && io.chain < 0x8000_0000
    && io.cylinder == g.cylinder && io.head == g.head && io.sector == g.sector
    && WellPlaced(|c.mem|, [Link(a, io, pages)]) && PagesDisjoint(|c.mem|, pages)
  }

  /** Unit `u` is a good drive with the disk in it, its geometry not yet read or read since LBA 0 last changed. */
  ghost predicate Inserted(c: Core, u: nat, img: seq<byte>)
    requires CoreOk(c)
  {
    && u < 2 && Coherent(c) && !c.tainted[u]
    && c.drives[u].present && c.drives[u].bad == {} && c.drives[u].sectors == SectorsOf(img)
  }

  lemma InsertedGeometry(c: Core, u: nat, s: Shape, name: seq<byte>, fs: seq<byte>)
    requires MadeFor(s, name, fs) && CoreOk(c) && Inserted(c, u, Disk(s, name, fs))
    ensures Geometry(c, u).sectors[u] == s.nsec && Geometry(c, u).heads[u] == s.ntr
  {
    MadeParts(s, name, fs);
    DiskSector(s, name, fs, 0);
    DiskGeometry(s, name, fs, c.drives[u]);
    hide MadeFor, Disk, SectorsOf, FreshGeometry;
  }

  lemma ReadStarts(c: Core, a: nat, io: Iocb, pages: seq<nat>, u: nat, s: Shape, name: seq<byte>, fs: seq<byte>,
                   b: nat)
    requires MadeFor(s, name, fs) && CoreOk(c) && Inserted(c, u, Disk(s, name, fs)) && 0 < b < RootBlocks(s)
    requires ReadsBlock(c, a, io, pages, s, u, b)
    ensures OneLaid(c, a, io, pages) && UnitOk(c, io.unit)
    ensures Start(c, Link(a, io, pages)) == 2 * b
  {
    InsertedGeometry(c, u, s, name, fs);
    RootBlockCylinders(s, b, 0);
    BlockIsTwoSectors(s, name, fs, b);
    hide MadeFor, Disk, SectorsOf, Geometry, Coherent, WellPlaced, PagesDisjoint, RootBlocks, RootCyls, Laid, Split,
      ToLba;
  }

  lemma BlockBrought(c: Core, a: nat, io: Iocb, pages: seq<nat>, fs: seq<byte>, b: nat)
    requires CoreOk(c) && OneLaid(c, a, io, pages) && UnitOk(c, io.unit) && Start(c, Link(a, io, pages)) == 2 * b
    requires io.opcode != 0xe6 && io.opcode != 0xbc && |pages| == 2 && PagesDisjoint(|c.mem|, pages)
    requires BlockInSectors(c.drives[io.unit].sectors, fs, b)
    ensures Live(c, a, 1).Some? && Live(c, a, 1).value.1
    ensures var c' := Live(c, a, 1).value.0;
      && |c'.mem| == |c.mem| && pages[0] + 512 <= |c.mem| && pages[1] + 512 <= |c.mem|
      && Page(c'.mem, pages[0]) + Page(c'.mem, pages[1]) == Blk(fs, b)
      && c'.drives == c.drives
  {
    hide PagesDisjoint, Live, OneLaid, Start, Blk, Page, BlockInSectors, PagesHold;
    ReadBytes(c, a, io, pages);
    TwoPages(Live(c, a, 1).value.0.mem, pages, c.drives[io.unit].sectors, fs, b);
  }

  /** Reading block `b` through the controller, by an IOCB and a page table laid down in memory, brings the 1024 bytes
      `S5.blk(b)` finds in the filesystem image. */
  lemma BlockThroughController(c: Core, a: nat, io: Iocb, pages: seq<nat>, u: nat, s: Shape, name: seq<byte>,
                               fs: seq<byte>, b: nat)
    requires MadeFor(s, name, fs) && CoreOk(c) && Inserted(c, u, Disk(s, name, fs)) && 0 < b < RootBlocks(s)
    requires ReadsBlock(c, a, io, pages, s, u, b)
    ensures Live(c, a, 1).Some? && Live(c, a, 1).value.1
    ensures var c' := Live(c, a, 1).value.0;
      && |pages| == 2 && |c'.mem| == |c.mem| && pages[0] + 512 <= |c.mem| && pages[1] + 512 <= |c.mem|
      && Page(c'.mem, pages[0]) + Page(c'.mem, pages[1]) == Blk(fs, b)
      && c'.drives == c.drives
  {
    MadeShape(s, name, fs);
    hide MadeFor, Disk, SectorsOf, Coherent, PagesDisjoint, RootBlocks, RootCyls, Split, Live, OneLaid, Start, Blk,
      Page, ReadsBlock, BlockInSectors, SameShape;
    ReadStarts(c, a, io, pages, u, s, name, fs, b);
    BlockIsTwoSectors(s, name, fs, b);
    ReadsParts(c, a, io, pages, s, u, b);
    BlockBrought(c, a, io, pages, fs, b);
  }

  lemma MadeShape(s: Shape, name: seq<byte>, fs: seq<byte>)
    requires MadeFor(s, name, fs)
    ensures Positive(s)
  {
  }

  lemma ReadsParts(c: Core, a: nat, io: Iocb, pages: seq<nat>, s: Shape, u: nat, b: nat)
    requires Positive(s) && ReadsBlock(c, a, io, pages, s, u, b)
    ensures |pages| == 2 && io.unit == u && io.opcode != 0xe6 && io.opcode != 0xbc && PagesDisjoint(|c.mem|, pages)
  {
  }

  lemma TwoPages(mem: seq<byte>, pages: seq<nat>, sectors: seq<Sector>, fs: seq<byte>, b: nat)
    requires |pages| == 2 && PagesHold(mem, pages, sectors, 2 * b) && BlockInSectors(sectors, fs, b)
    ensures pages[0] + 512 <= |mem| && pages[1] + 512 <= |mem|
    ensures Page(mem, pages[0]) + Page(mem, pages[1]) == Blk(fs, b)
  {
    hide Blk, Page;
    assert Page(mem, pages[0]) == sectors[2 * b + 0] && Page(mem, pages[1]) == sectors[2 * b + 1];
  }
}
