/** The controller of patch/sys16.cpp as it runs: registers and main memory updated in place. Each method is proved
    equal to the function of the same step in `DcuModel` or `DcuMachine`. */
module Dcu {
  import opened Bytes
  import opened DcuModel
  import opened DcuMachine

  class Dcu {
    const mem: array<byte>
    var drives: seq<Drive>
    var chan: array<byte>
    var op: byte
    var code: Code
    var selftest: bool
    var auxerr: bool
    var unit: nat
    var sectors: seq<nat>
    var heads: seq<nat>
    var armed: bool
    var line: bool
    ghost var tainted: seq<bool>
    ghost var edges: nat
    ghost var completions: nat
    ghost var opcodes: nat

    ghost function Core(): Core
      reads this, mem
    {
      DcuModel.Core(mem[..], drives, sectors, heads, tainted)
    }

    ghost function Now(): Machine
      reads this, mem, chan
    {
      Machine(Core(), chan[..], op, code, selftest, auxerr, unit, armed, line, edges, completions, opcodes)
    }

    ghost predicate Shaped()
      reads this
    {
      mem.Length <= 0x1_0000_0000 && |drives| == |sectors| == |heads| == |tainted| == 2
    }

    ghost predicate Valid()
      reads this
    {
      Shaped() && chan.Length == 3 && chan != mem
    }

    /** The machine as a reset leaves it for the first time. */
    constructor (mem: array<byte>, drives: seq<Drive>)
      requires mem.Length <= 0x1_0000_0000 && |drives| == 2
      ensures Valid() && fresh(chan) && this.mem == mem && Initial(Now())
      ensures Core() == DcuModel.Core(mem[..], drives, [0, 0], [0, 0], [false, false])
    {
      this.mem := mem;
      this.drives := drives;
      this.chan := new byte[3](_ => 0);
      this.op, this.code, this.selftest, this.auxerr, this.unit := 0, IDLE, false, false, 0;
      this.sectors, this.heads, this.tainted := [0, 0], [0, 0], [false, false];
      this.armed, this.line := false, true;
      this.edges, this.completions, this.opcodes := 0, 0, 0;
    }

    // --- memory and drives -------------------------------------------------------------

    method Load(a: nat) returns (v: byte)
      ensures v == ReadByte(mem[..], a)
    {
      v := if Wrap(a) < mem.Length then mem[Wrap(a)] else 0;
    }

    method StoreByte(a: nat, v: byte)
      modifies mem
      ensures mem[..] == WriteByte(old(mem[..]), a, v)
    {
      if Wrap(a) < mem.Length {
        mem[Wrap(a)] := v;
      }
    }

    method Load16(a: nat) returns (x: nat)
      ensures x == Read16(mem[..], a)
    {
      var lo := Load(a);
      var hi := Load(a + 1);
      x := lo as int + 256 * (hi as int);
    }

    /** Four bytes, the lowest first. */
    method Load32(a: nat) returns (x: nat)
      ensures x == Read32(mem[..], a)
    {
      var scale := 1;
      x := 0;
      for i := 0 to 4
        invariant scale == [1, 256, 65536, 16777216, 4294967296][i]
        invariant x == LowBytes(mem[..], a, i)
      {
        var b := Load(a + i);
        x := x + b as int * scale;
        scale := scale * 256;
      }
    }

    method GatherPage(page: nat) returns (buf: Sector)
      ensures buf == Gather(mem[..], page)
    {
      var a := new byte[512](_ => 0);
      for b := 0 to 512
        invariant forall k :: 0 <= k < b ==> a[k] == ReadByte(mem[..], page + k)
      {
        var v := Load(page + b);
        a[b] := v;
      }
      buf := a[..];
      assert buf == Gather(mem[..], page);
    }

    method ScatterPage(page: nat, buf: Sector)
      requires mem.Length <= 0x1_0000_0000 && page < 0x1_0000_0000
      modifies mem
      ensures mem[..] == Scatter(old(mem[..]), page, buf)
    {
      ghost var m := mem[..];
      for b := 0 to 512
        invariant forall k :: 0 <= k < mem.Length ==>
          mem[k] == if 0 <= Above(k, page) < b then buf[Above(k, page)] else m[k]
      {
        StoreByte(page + b, buf[b]);
      }
      assert mem[..] == Scatter(m, page, buf);
    }

    /** `dcu_geometry` */
    method FillGeometry(u: nat)
      requires Shaped() && u < 2
      modifies this`sectors, this`heads, this`tainted
      ensures Shaped() && Core() == Geometry(old(Core()), u)
    {
      if sectors[u] != 0 {
        return;
      }
      sectors, heads := sectors[u := 24], heads[u := 3];
      tainted := tainted[u := false];
      if !drives[u].Ok(0) {
        return;
      }
      var header := drives[u].sectors[0];
      if U32(header, 0) != DMAGIC {
        return;
      }
      var nsec, ntr := U16(header, 8), U16(header, 10);
      if nsec != 0 && ntr != 0 && nsec < 256 && ntr < 32 {
        sectors, heads := sectors[u := nsec], heads[u := ntr];
      }
    }

    // --- one IOCB ------------------------------------------------------------------------

    method ReadIocb(a: nat) returns (io: Iocb)
      ensures io == Decode(mem[..], a)
    {
      var opcode := Load(a);
      var count := Load(a + 3);
      var cylinder := Load16(a + 6);
      var drhdsec := Load16(a + 8);
      var table := Load32(a + 10);
      var chain := Load32(a + 22);
      io := Iocb(opcode, count, cylinder, drhdsec / 8192, drhdsec / 256 % 32, drhdsec % 256, table, chain);
    }

    method MoveSector(opcode: byte, u: nat, lba: nat, page: nat) returns (ok: bool)
      requires Shaped() && u < 2 && page < 0x1_0000_0000
      modifies this`drives, this`tainted, mem
      ensures Shaped()
      ensures match Move(old(Core()), opcode, u, lba, page)
        case None => !ok && Core() == old(Core())
        case Some(c) => ok && Core() == c
    {
      hide Gather, Scatter;
      if Writes(opcode) {
        var buffer: Sector := Zeros(512);
        if opcode != C_FORMAT {
          buffer := GatherPage(page);
        }
        if !drives[u].Ok(lba) {
          return false;
        }
        drives := drives[u := drives[u].(sectors := drives[u].sectors[lba := buffer])];
        tainted := tainted[u := tainted[u] || lba == 0];
      } else {
        if !drives[u].Ok(lba) {
          return false;
        }
        ScatterPage(page, drives[u].sectors[lba]);
      }
      return true;
    }

    /** The loop over the sectors of one IOCB. */
    method Transfer(io: Iocb) returns (ok: bool, resid: nat)
      requires Shaped() && io.count < 256
      modifies this`drives, this`sectors, this`heads, this`tainted, mem
      ensures Shaped() && resid <= io.count
      ensures (Core(), io.count - resid) == TransferLive(old(Core()), io)
      ensures ok == Succeeds(old(Core()), io, io.count - resid)
    {
      hide Move, PageAt, Geometry;
      ok, resid := true, io.count;
      if io.unit >= 2 || !drives[io.unit].present {
        return false, resid;
      }
      FillGeometry(io.unit);
      ghost var c1 := Core();
      var start := ToLba(heads[io.unit], sectors[io.unit], io.cylinder, io.head, io.sector);
      var lba, i := start, 0;
      while i < io.count
        invariant Shaped() && 0 <= i <= io.count && lba == start + i && resid == io.count - i
        invariant MoveLive(Core(), io, start, i) == MoveLive(c1, io, start, 0)
        decreases io.count - i
      {
        var addr := Load32(io.table + i * 4);
        assert addr == PageAt(mem[..], io.table, i) by {
          PageWord(mem[..], io.table, i);
        }
        var moved := MoveSector(io.opcode, io.unit, lba, addr);
        if !moved {
          return false, resid;
        }
        resid := resid - 1;
        i := i + 1;
        lba := lba + 1;
      }
    }

    // --- the chain -----------------------------------------------------------------------

    /** `dcu_transfer`: follow the chain, here one that comes to an end within `n` links. */
    method RunChain(start: nat, ghost n: nat) returns (ok: bool)
      requires Shaped() && Live(Core(), start, n).Some?
      modifies this`drives, this`sectors, this`heads, this`tainted, mem
      ensures Shaped() && Live(old(Core()), start, n) == Some((Core(), ok))
    {
      hide TransferLive, Decode, Succeeds, WriteByte;
      ghost var c0 := Core();
      var iocb: nat := start;
      ghost var left: nat := n;
      while true
        invariant Shaped() && Live(Core(), iocb, left) == Live(c0, start, n)
        decreases left
      {
        var io := ReadIocb(iocb);
        ghost var c := Core();
        var resid;
        ok, resid := Transfer(io);
        ghost var c1 := Core();
        PresenceKept(c, io);
        StoreByte(iocb + 27, resid);
        if !ok {
          StoreByte(iocb + 26, ES_DRIVE);
          FailedStatus(c, c1, io, io.count - resid);
          break;
        }
        if io.chain >= CHAINBIT {
          StoreByte(iocb + 26, ES_CHAIN);
          GoodStatus(c, c1, io, io.count - resid);
          iocb := io.chain - CHAINBIT;
          left := left - 1;
          continue;
        }
        StoreByte(iocb + 26, ES_DONE);
        GoodStatus(c, c1, io, io.count - resid);
        break;
      }
    }

    // --- registers -----------------------------------------------------------------------

    method SetIr3(level: bool)
      modifies this`line, this`edges
      ensures Now() == SetLine(old(Now()), level)
    {
      if line && !level {
        edges := edges + 1;
      }
      line := level;
    }

    method ReadRegister(offset: nat) returns (v: byte)
      requires Valid()
      ensures v == ReadReg(Now(), offset)
    {
      if offset != 4 {
        return 0;
      }
      var status := 0x80 + 4 * CodeBits(code) + 3;
      if selftest {
        status := status + 0x20;
      }
      if auxerr {
        status := status + 0x10;
      }
      v := status;
    }

    method WriteRegister(offset: nat, data: byte)
      requires Valid()
      modifies this`op, this`code, this`auxerr, this`armed, this`opcodes, this`line, this`edges, chan
      ensures Valid() && Now() == WriteReg(old(Now()), offset, data)
    {
      if offset < 3 {
        chan[offset] := data;
        assert chan[..] == old(chan[..])[offset := data];
      } else if offset == 3 {
        op, code, auxerr := data, BUSY, false;
        armed := true;
        opcodes := opcodes + 1;
      } else if offset == 4 {
        code := IDLE;
        SetIr3(true);
      } else if offset == 8 {
        auxerr := false;
      }
    }

    method ResetMachine()
      requires Valid()
      modifies this`sectors, this`heads, this`op, this`code, this`selftest, this`auxerr, this`unit, this`line,
        this`edges, chan
      ensures Valid() && Now() == Reset(old(Now()))
    {
      for i := 0 to 3
        invariant Valid() && mem[..] == old(mem[..])
        invariant forall k :: 0 <= k < i ==> chan[k] == 0
        modifies chan
      {
        chan[i] := 0;
      }
      op, code, selftest, auxerr, unit := 0, IDLE, false, false, 0;
      sectors, heads := [0, 0], [0, 0];
      assert chan[..] == [0, 0, 0];
      SetIr3(true);
    }

    method ExecuteCommand(ghost n: nat) returns (ok: bool)
      requires Valid() && (op == C_START ==> Live(Core(), Argument(chan[..]), n).Some?)
      modifies this`drives, this`sectors, this`heads, this`tainted, this`unit, this`selftest, this`auxerr, mem
      ensures Valid() && (Now(), ok) == Execute(old(Now()), n)
    {
      hide Live, Geometry, CoreOk;
      var arg := chan[0] as int + 256 * (chan[1] as int) + 65536 * (chan[2] as int);
      assert arg == Argument(chan[..]);
      if op == C_SELFTEST {
        selftest := false;
        return true;
      }
      if op in {C_SETBURST, C_ASSCYLINDER, C_ASSBUFFER, C_SENSE} {
        return true;
      }
      if op == C_ASSDRIVE {
        unit := arg / 8192;
        if unit < 2 && drives[unit].present {
          FillGeometry(unit);
        }
        return unit < 2 && drives[unit].present;
      }
      if op == C_SPECIFIC {
        return unit < 2 && drives[unit].present;
      }
      if op == C_START {
        ok := RunChain(arg, n);
        return;
      }
      auxerr := true;
      return false;
    }

    /** The result code, and the edge that announces it. */
    method ReportResult(ok: bool)
      modifies this`code, this`completions, this`line, this`edges
      ensures Now() ==
        SetLine(old(Now()).(code := if ok then DONE else ERROR, completions := old(completions) + 1), false)
    {
      hide SetLine;
      code := if ok then DONE else ERROR;
      completions := completions + 1;
      SetIr3(false);
    }

    /** The timer callback. */
    method TimerFires(ghost n: nat)
      requires Valid() && CanFire(Now(), n)
      modifies this`drives, this`sectors, this`heads, this`tainted, this`unit, this`selftest, this`auxerr, this`armed,
        this`code, this`completions, this`line, this`edges, mem
      ensures Valid() && Now() == Complete(old(Now()), n)
    {
      hide Live, Execute, Argument, CoreOk, SetLine;
      armed := false;
      var ok := ExecuteCommand(n);
      ReportResult(ok);
    }
  }

  /** The value of the first `i` bytes at `a`. */
  ghost function LowBytes(mem: seq<byte>, a: nat, i: nat): nat {
    (if i > 0 then ReadByte(mem, a) as int else 0)
    + (if i > 1 then 256 * (ReadByte(mem, a + 1) as int) else 0)
    + (if i > 2 then 65536 * (ReadByte(mem, a + 2) as int) else 0)
    + (if i > 3 then 16777216 * (ReadByte(mem, a + 3) as int) else 0)
  }

  lemma PageWord(mem: seq<byte>, table: nat, i: nat)
    ensures PageAt(mem, table, i) == Read32(mem, table + i * 4) < 0x1_0000_0000
  {
  }

  lemma PresenceKept(c: DcuModel.Core, io: Iocb)
    requires CoreOk(c)
    ensures UnitOk(TransferLive(c, io).0, io.unit) == UnitOk(c, io.unit)
  {
  }

  lemma FailedStatus(c: DcuModel.Core, c1: DcuModel.Core, io: Iocb, moved: nat)
    requires CoreOk(c) && CoreOk(c1) && moved <= io.count && !Succeeds(c, io, moved)
    requires UnitOk(c1, io.unit) == UnitOk(c, io.unit)
    ensures moved < io.count || !UnitOk(c1, io.unit)
  {
  }

  lemma GoodStatus(c: DcuModel.Core, c1: DcuModel.Core, io: Iocb, moved: nat)
    requires CoreOk(c) && CoreOk(c1) && moved <= io.count && Succeeds(c, io, moved)
    requires UnitOk(c1, io.unit) == UnitOk(c, io.unit)
    ensures moved == io.count && UnitOk(c1, io.unit)
  {
  }
}
