/** The disk controller's DMA engine (`dcu_geometry`, `dcu_transfer` of patch/sys16.cpp) as values: main memory,
    two drives, and the geometry it has cached. */
module DcuModel {
  import opened Bytes

  type Sector = s: seq<byte> | |s| == 512 witness Zeros(512)

  /** A drive reads and writes the sectors it has, but for those in `bad`, where the access fails. */
  datatype Drive = Drive(present: bool, sectors: seq<Sector>, bad: set<nat>) {
    predicate Ok(lba: nat) {
      lba < |sectors| && lba !in bad
    }
  }

  /** `sectors` and `heads` are the cached geometry, 0 when not filled; `tainted` records that LBA 0 has been
      written since a unit's geometry was filled. */
  datatype Core = Core(mem: seq<byte>, drives: seq<Drive>, sectors: seq<nat>, heads: seq<nat>, tainted: seq<bool>)

  ghost predicate CoreOk(c: Core) {
    && |c.mem| <= 0x1_0000_0000
    && |c.drives| == |c.sectors| == |c.heads| == |c.tainted| == 2
  }

  // --- opcodes, offsets and codes ---------------------------------------------------

  const C_FORMAT: byte := 0xbc
  const C_WRITE: byte := 0xe6
  const ES_DONE: byte := 0x80
  const ES_CHAIN: byte := 0x40
  const ES_DRIVE: byte := 0x08
  const CHAINBIT: nat := 0x8000_0000
  const DMAGIC: nat := 0x6d73_7000

  predicate Writes(opcode: byte) {
    opcode == C_WRITE || opcode == C_FORMAT
  }

  // --- main memory --------------------------------------------------------------------

  /** 32-bit addresses wrap; what is not RAM reads as 0 and takes no writes. */
  function Wrap(a: nat): nat {
    if a < 0x1_0000_0000 then a else a - 0x1_0000_0000
  }

  function ReadByte(mem: seq<byte>, a: nat): byte {
    if Wrap(a) < |mem| then mem[Wrap(a)] else 0
  }

  function WriteByte(mem: seq<byte>, a: nat, v: byte): (r: seq<byte>)
    ensures |r| == |mem|
  {
    if Wrap(a) < |mem| then mem[Wrap(a) := v] else mem
  }

  function Read16(mem: seq<byte>, a: nat): nat {
    ReadByte(mem, a) as int + 256 * (ReadByte(mem, a + 1) as int)
  }

  function Read32(mem: seq<byte>, a: nat): (x: nat)
    ensures x < 0x1_0000_0000
  {
    ReadByte(mem, a) as int + 256 * (ReadByte(mem, a + 1) as int) + 65536 * (ReadByte(mem, a + 2) as int)
    + 16777216 * (ReadByte(mem, a + 3) as int)
  }

  /** The 512 bytes of a page. */
  function Gather(mem: seq<byte>, page: nat): (s: seq<byte>)
    ensures |s| == 512
    ensures forall b :: 0 <= b < 512 ==> s[b] == ReadByte(mem, page + b)
  {
    seq(512, b requires 0 <= b < 512 => if Wrap(page + b) < |mem| then mem[Wrap(page + b)] else 0)
  }

  /** How far `i` lies above `page`, going round at 2^32. */
  function Above(i: nat, page: nat): int {
    if i >= page then i - page else i + 0x1_0000_0000 - page
  }

  function Scatter(mem: seq<byte>, page: nat, buf: Sector): (r: seq<byte>)
    ensures |r| == |mem|
  {
    seq(|mem|, i requires 0 <= i < |mem| => if 0 <= Above(i, page) < 512 then buf[Above(i, page)] else mem[i])
  }

  // --- geometry -----------------------------------------------------------------------

  /** Sectors per track and tracks per cylinder from a pack header, or those of the drive the machine came with. */
  function Parse(h: Sector): (nat, nat) {
    var nsec, ntr := U16(h, 8), U16(h, 10);
    if U32(h, 0) == DMAGIC && nsec != 0 && ntr != 0 && nsec < 256 && ntr < 32 then (nsec, ntr) else (24, 3)
  }

  function FreshGeometry(d: Drive): (nat, nat) {
    if d.Ok(0) then Parse(d.sectors[0]) else (24, 3)
  }

  /** `dcu_geometry`: filled once. */
  function Geometry(c: Core, u: nat): Core
    requires CoreOk(c) && u < 2
  {
    if c.sectors[u] != 0 then c else
      var (s, h) := FreshGeometry(c.drives[u]);
      c.(sectors := c.sectors[u := s], heads := c.heads[u := h], tainted := c.tainted[u := false])
  }

  predicate UnitOk(c: Core, u: nat)
    requires |c.drives| == 2
  {
    u < 2 && c.drives[u].present
  }

  // --- one sector ----------------------------------------------------------------------

  /** Move one sector between `lba` and the page; `None` when the drive fails. */
  function Move(c: Core, opcode: byte, u: nat, lba: nat, page: nat): Option<Core>
    requires CoreOk(c) && u < 2
  {
    var d := c.drives[u];
    if !d.Ok(lba) then None
    else if Writes(opcode) then
      var buf := if opcode == C_FORMAT then Zeros(512) else Gather(c.mem, page);
      Some(c.(drives := c.drives[u := d.(sectors := d.sectors[lba := buf])],
              tainted := c.tainted[u := c.tainted[u] || lba == 0]))
    else
      Some(c.(mem := Scatter(c.mem, page, d.sectors[lba])))
  }

  // --- an IOCB, as the engine runs it -----------------------------------------------------

  datatype Iocb = Iocb(
    opcode: byte, count: nat, cylinder: nat, unit: nat, head: nat, sector: nat, table: nat, chain: nat)

  function Decode(mem: seq<byte>, a: nat): (io: Iocb)
    ensures io.count < 256 && io.table < 0x1_0000_0000 && io.chain < 0x1_0000_0000
  {
    var drhdsec := Read16(mem, a + 8);
    Iocb(ReadByte(mem, a), ReadByte(mem, a + 3), Read16(mem, a + 6),
         drhdsec / 8192, drhdsec / 256 % 32, drhdsec % 256,
         Read32(mem, a + 10), Read32(mem, a + 22))
  }

  function PageAt(mem: seq<byte>, table: nat, i: nat): (x: nat)
    ensures x < 0x1_0000_0000
  {
    Read32(mem, table + 4 * i)
  }

  function ToLba(heads: nat, sectors: nat, cylinder: nat, head: nat, sector: nat): nat {
    (cylinder * heads + head) * sectors + sector
  }

  function Lba(c: Core, io: Iocb): nat
    requires CoreOk(c) && io.unit < 2
  {
    ToLba(c.heads[io.unit], c.sectors[io.unit], io.cylinder, io.head, io.sector)
  }

  /** The sector loop from sector `i` on, fetching each page address when its turn comes; also how many it got to. */
  function MoveLive(c: Core, io: Iocb, lba: nat, i: nat): (r: (Core, nat))
    requires CoreOk(c) && io.unit < 2
    ensures CoreOk(r.0) && |r.0.mem| == |c.mem|
    ensures i <= io.count ==> i <= r.1 <= io.count
    decreases io.count - i
  {
    if i >= io.count then (c, i) else
      var next := Move(c, io.opcode, io.unit, lba + i, PageAt(c.mem, io.table, i));
      if next == None then (c, i) else MoveLive(next.value, io, lba, i + 1)
  }

  /** Residue and ending status, written back into the IOCB. */
  function Report(c: Core, a: nat, io: Iocb, moved: nat): (r: Core)
    requires CoreOk(c) && moved <= io.count < 256
    ensures CoreOk(r) && |r.mem| == |c.mem|
  {
    var status := if moved < io.count || !UnitOk(c, io.unit) then ES_DRIVE
                  else if io.chain >= CHAINBIT then ES_CHAIN else ES_DONE;
    c.(mem := WriteByte(WriteByte(c.mem, a + 27, io.count - moved), a + 26, status))
  }

  /** The transfer part of one link: nothing at all on a unit that is not there. */
  function TransferLive(c: Core, io: Iocb): (r: (Core, nat))
    requires CoreOk(c)
    ensures CoreOk(r.0) && |r.0.mem| == |c.mem| && r.1 <= io.count
    ensures UnitOk(r.0, io.unit) == UnitOk(c, io.unit)
  {
    if !UnitOk(c, io.unit) then (c, 0) else
      var c1 := Geometry(c, io.unit);
      var r := MoveLive(c1, io, Lba(c1, io), 0);
      MoveKeepsPresence(c1, io, Lba(c1, io), 0);
      r
  }

  lemma {:induction false} MoveKeepsPresence(c: Core, io: Iocb, lba: nat, i: nat)
    requires CoreOk(c) && io.unit < 2
    ensures forall u :: 0 <= u < 2 ==> MoveLive(c, io, lba, i).0.drives[u].present == c.drives[u].present
    decreases io.count - i
  {
    if i < io.count {
      var next := Move(c, io.opcode, io.unit, lba + i, PageAt(c.mem, io.table, i));
      if next != None {
        MoveKeepsPresence(next.value, io, lba, i + 1);
      }
    }
  }

  predicate Succeeds(c: Core, io: Iocb, moved: nat)
    requires CoreOk(c)
  {
    UnitOk(c, io.unit) && moved == io.count
  }

  /** `dcu_transfer` as it runs, one IOCB after the other, reading each from memory as the earlier ones left it:
      the result if the chain ends within `n` links. */
  function Live(c: Core, a: nat, n: nat): (r: Option<(Core, bool)>)
    requires CoreOk(c)
    ensures r.Some? ==> CoreOk(r.value.0) && |r.value.0.mem| == |c.mem|
    decreases n
  {
    if n == 0 then None else
      var io := Decode(c.mem, a);
      var (c1, moved) := TransferLive(c, io);
      var c2 := Report(c1, a, io, moved);
      if !Succeeds(c, io, moved) then Some((c2, false))
      else if io.chain >= CHAINBIT then Live(c2, io.chain - CHAINBIT, n - 1)
      else Some((c2, true))
  }

  /** More links to spare do not change the result. */
  lemma {:induction false} LiveStable(c: Core, a: nat, n: nat, m: nat)
    requires CoreOk(c) && n <= m && Live(c, a, n).Some?
    ensures Live(c, a, m) == Live(c, a, n)
    decreases n
  {
    hide TransferLive, Report, Decode, Succeeds;
    var io := Decode(c.mem, a);
    var (c1, moved) := TransferLive(c, io);
    var c2 := Report(c1, a, io, moved);
    if Succeeds(c, io, moved) && io.chain >= CHAINBIT {
      LiveStable(c2, io.chain - CHAINBIT, n - 1, m - 1);
    }
  }
}
