/** What a command does with its argument, over events: three bytes written to registers 0, 1 and 2, an opcode to
    register 3, and the timer. Opcodes, registers and status bytes are given as numbers. */
module DcuCommands {
  import opened Bytes
  import opened DcuModel
  import opened DcuMachine

  // --- runs one event longer ------------------------------------------------------------

  lemma {:induction false} OneMore(m: Machine, es: seq<Event>, e: Event)
    ensures Happens(m, es) ==> MachineOk(After(m, es))
    ensures Happens(m, es + [e]) <==> Happens(m, es) && Enabled(After(m, es), e) && MachineOk(Step(After(m, es), e))
    ensures Happens(m, es + [e]) ==> After(m, es + [e]) == Step(After(m, es), e)
    decreases |es|
  {
    hide Step, Enabled;
    if es == [] {
      assert [] + [e] == [e] && [e][1..] == [];
    } else {
      assert (es + [e])[0] == es[0] && (es + [e])[1..] == es[1..] + [e];
      if MachineOk(m) && Enabled(m, es[0]) {
        OneMore(Step(m, es[0]), es[1..], e);
      }
    }
  }

  /** The argument, low byte first, and then the opcode. */
  function Issue(lo: byte, mid: byte, hi: byte, op: byte): seq<Event> {
    [RegWrite(0, lo), RegWrite(1, mid), RegWrite(2, hi), RegWrite(3, op)]
  }

  function Value(lo: byte, mid: byte, hi: byte): nat {
    lo as int + 256 * mid as int + 65536 * hi as int
  }

  /** A command issued is under way: the timer runs, the status says busy, and nothing has been done. */
  lemma Issued(m: Machine, lo: byte, mid: byte, hi: byte, op: byte)
    requires MachineOk(m)
    ensures Happens(m, Issue(lo, mid, hi, op))
    ensures var m' := After(m, Issue(lo, mid, hi, op));
      && m' == m.(chan := [lo, mid, hi], op := op, code := BUSY, auxerr := false, armed := true,
                  opcodes := m.opcodes + 1)
      && ReadReg(m', 4) == 0x83 + (if m.selftest then 0x20 else 0)
  {
    hide CoreOk;
    var es: seq<Event> := [];
    OneMore(m, es, RegWrite(0, lo));
    OneMore(m, es + [RegWrite(0, lo)], RegWrite(1, mid));
    OneMore(m, es + [RegWrite(0, lo)] + [RegWrite(1, mid)], RegWrite(2, hi));
    OneMore(m, es + [RegWrite(0, lo)] + [RegWrite(1, mid)] + [RegWrite(2, hi)], RegWrite(3, op));
    assert es + [RegWrite(0, lo)] + [RegWrite(1, mid)] + [RegWrite(2, hi)] + [RegWrite(3, op)]
        == Issue(lo, mid, hi, op);
    assert m.chan[0 := lo][1 := mid][2 := hi] == [lo, mid, hi];
  }

  /** The events of a whole command. */
  function Command(lo: byte, mid: byte, hi: byte, op: byte, n: nat): seq<Event> {
    Issue(lo, mid, hi, op) + [Fire(n)]
  }

  /** How a command ends: with this result, an interrupt, and the rest of the machine as it was. */
  ghost predicate Ends(m: Machine, m': Machine, ok: bool, status: nat) {
    && m'.code == (if ok then DONE else ERROR)
    && ReadReg(m', 4) == status + (if m'.selftest then 0x20 else 0)
    && !m'.line && !m'.armed && m'.edges == m.edges + One(m.line)
    && m'.completions == m.completions + 1 && m'.opcodes == m.opcodes + 1
  }

  lemma Commanded(m: Machine, lo: byte, mid: byte, hi: byte, op: byte, n: nat)
    requires MachineOk(m)
    ensures Happens(m, Issue(lo, mid, hi, op))
    ensures var i := After(m, Issue(lo, mid, hi, op));
      && (Happens(m, Command(lo, mid, hi, op, n)) <==> CanFire(i, n))
      && (CanFire(i, n) ==> After(m, Command(lo, mid, hi, op, n)) == Complete(i, n))
  {
    Issued(m, lo, mid, hi, op);
    var i := After(m, Issue(lo, mid, hi, op));
    OneMore(m, Issue(lo, mid, hi, op), Fire(n));
    hide Happens, After, Issue, Complete, CanFire;
    if CanFire(i, n) {
      FiredOk(i, n);
    }
  }

  lemma FiredOk(m: Machine, n: nat)
    requires CanFire(m, n)
    ensures MachineOk(Complete(m, n))
  {
    hide Live, Execute;
    ExecuteControl(m.(armed := false), n);
  }

  // --- opcode by opcode ---------------------------------------------------------------------

  /** Opcode 0x18 runs the chain at the argument, low byte in register 0: it can complete if and only if that chain
      comes to an end, and leaves memory, drives and result as the chain does. */
  lemma StartRunsChain(m: Machine, lo: byte, mid: byte, hi: byte, n: nat)
    requires MachineOk(m)
    ensures var x := Value(lo, mid, hi);
      && (Happens(m, Command(lo, mid, hi, 0x18, n)) <==> Live(m.core, x, n).Some?)
      && (Happens(m, Command(lo, mid, hi, 0x18, n)) ==>
            var m', r := After(m, Command(lo, mid, hi, 0x18, n)), Live(m.core, x, n).value;
            && m'.core == r.0 && m'.unit == m.unit && m'.selftest == m.selftest
            && Ends(m, m', r.1, if r.1 then 0x8b else 0x87))
  {
    Commanded(m, lo, mid, hi, 0x18, n);
    Issued(m, lo, mid, hi, 0x18);
    var i := After(m, Issue(lo, mid, hi, 0x18));
    hide Happens, After, Live, Complete, Ends, ReadReg, Command, Issue, Value, CoreOk;
    StartFires(m, i, Value(lo, mid, hi), n);
  }

  lemma StartFires(m: Machine, i: Machine, x: nat, n: nat)
    requires MachineOk(m) && |i.chan| == 3 && Value(i.chan[0], i.chan[1], i.chan[2]) == x
    requires i == m.(chan := i.chan, op := 0x18, code := BUSY, auxerr := false, armed := true, opcodes := m.opcodes + 1)
    ensures CanFire(i, n) <==> Live(m.core, x, n).Some?
    ensures CanFire(i, n) ==>
      var m', r := Complete(i, n), Live(m.core, x, n).value;
      && m'.core == r.0 && m'.unit == m.unit && m'.selftest == m.selftest
      && Ends(m, m', r.1, if r.1 then 0x8b else 0x87)
  {
    hide Live, CoreOk;
  }

  /** Geometry of one unit filled, the other's left alone; memory and drives untouched. */
  ghost predicate UnitFilled(c: Core, c': Core, u: nat)
    requires CoreOk(c) && u < 2
  {
    && CoreOk(c') && c'.mem == c.mem && c'.drives == c.drives
    && c'.sectors[u] != 0 && c'.sectors[1 - u] == c.sectors[1 - u] && c'.heads[1 - u] == c.heads[1 - u]
    && (c.sectors[u] != 0 ==> c'.sectors[u] == c.sectors[u] && c'.heads[u] == c.heads[u])
    && (c.sectors[u] == 0 ==> (c'.sectors[u], c'.heads[u]) == FreshGeometry(c.drives[u]))
  }

  lemma FillsUnit(c: Core, u: nat)
    requires CoreOk(c) && u < 2
    ensures UnitFilled(c, Geometry(c, u), u)
  {
    hide U16, U32;
  }

  /** Opcode 0x20 selects the unit in bits 13 and up of the argument. It ends well if and only if that unit is
      there; then the unit's geometry is known. */
  lemma AssignsUnit(m: Machine, lo: byte, mid: byte, hi: byte, n: nat, u: nat, k: nat)
    requires MachineOk(m) && Value(lo, mid, hi) == 8192 * u + k && k < 8192
    ensures Happens(m, Command(lo, mid, hi, 0x20, n))
    ensures var m', there := After(m, Command(lo, mid, hi, 0x20, n)), u < 2 && m.core.drives[u].present;
      && m'.unit == u && m'.selftest == m.selftest
      && (if there then UnitFilled(m.core, m'.core, u) else m'.core == m.core)
      && Ends(m, m', there, if there then 0x8b else 0x87)
  {
    Commanded(m, lo, mid, hi, 0x20, n);
    Issued(m, lo, mid, hi, 0x20);
    UnitBits(Value(lo, mid, hi), u, k);
    if u < 2 {
      FillsUnit(m.core, u);
    }
    hide Happens, After, Live, CoreOk, Geometry, UnitFilled;
  }

  lemma UnitBits(x: nat, u: nat, k: nat)
    requires x == 8192 * u + k && k < 8192
    ensures x / 8192 == u
  {
  }

  /** Opcode 0xe8 asks whether the selected unit is there. */
  lemma SpecificAsks(m: Machine, lo: byte, mid: byte, hi: byte, n: nat)
    requires MachineOk(m)
    ensures Happens(m, Command(lo, mid, hi, 0xe8, n))
    ensures var m', there := After(m, Command(lo, mid, hi, 0xe8, n)), m.unit < 2 && m.core.drives[m.unit].present;
      && m'.core == m.core && m'.unit == m.unit && m'.selftest == m.selftest
      && Ends(m, m', there, if there then 0x8b else 0x87)
  {
    Commanded(m, lo, mid, hi, 0xe8, n);
    Issued(m, lo, mid, hi, 0xe8);
    hide Happens, After, Live, CoreOk;
  }

  /** Self test, burst and interleave, cylinder, buffer and sense are accepted and do nothing else, whatever their
      argument; the self test is over. */
  lemma OthersAccepted(m: Machine, lo: byte, mid: byte, hi: byte, op: byte, n: nat)
    requires MachineOk(m) && op in {0x16, 0x2e, 0x42, 0x74, 0x84}
    ensures Happens(m, Command(lo, mid, hi, op, n))
    ensures var m' := After(m, Command(lo, mid, hi, op, n));
      && m'.core == m.core && m'.unit == m.unit && m'.selftest == (m.selftest && op != 0x16)
      && Ends(m, m', true, 0x8b)
  {
    Commanded(m, lo, mid, hi, op, n);
    Issued(m, lo, mid, hi, op);
    hide Happens, After, Live, CoreOk;
  }

  /** Every other opcode is an error, which the status shows until it is acknowledged at register 8. */
  lemma UnknownRefused(m: Machine, lo: byte, mid: byte, hi: byte, op: byte, n: nat)
    requires MachineOk(m) && op !in {0x16, 0x18, 0x20, 0x2e, 0x42, 0x74, 0x84, 0xe8}
    ensures Happens(m, Command(lo, mid, hi, op, n))
    ensures var m' := After(m, Command(lo, mid, hi, op, n));
      && m'.core == m.core && m'.unit == m.unit && m'.selftest == m.selftest
      && Ends(m, m', false, 0x97)
  {
    Commanded(m, lo, mid, hi, op, n);
    Issued(m, lo, mid, hi, op);
    hide Happens, After, Live, CoreOk;
  }

  // --- acknowledgements and resets ------------------------------------------------------------

  /** Any write to register 4 makes the status idle and raises the line; any write to register 8 clears the error
      bit; no other register from 5 on does anything. */
  lemma Acknowledges(m: Machine, v: byte)
    requires MachineOk(m)
    ensures var m' := Step(m, RegWrite(4, v));
      && m'.line && m' == m.(code := IDLE, line := true)
      && ReadReg(m', 4) == 0x8f + (if m.selftest then 0x20 else 0) + (if m.auxerr then 0x10 else 0)
    ensures Step(m, RegWrite(8, v)) == m.(auxerr := false)
    ensures ReadReg(m, 4) - ReadReg(Step(m, RegWrite(8, v)), 4) == if m.auxerr then 0x10 else 0
    ensures forall r: nat :: r > 4 && r != 8 ==> Step(m, RegWrite(r, v)) == m
    ensures forall r: nat :: r != 4 ==> ReadReg(m, r) == 0
  {
    hide CoreOk;
  }

  /** After a reset the controller is idle, its argument and unit are 0 and no geometry is known; memory, drives and the
      timer are as they were. A chain started without an argument is that at address 0. */
  lemma ResetIdles(m: Machine, n: nat)
    requires MachineOk(m)
    ensures var m' := Step(m, MachineReset);
      && MachineOk(m') && ReadReg(m', 4) == 0x8f && m'.line && m'.armed == m.armed && m'.unit == 0
      && m'.core.mem == m.core.mem && m'.core.drives == m.core.drives
      && m'.core.sectors == [0, 0] && m'.core.heads == [0, 0]
      && var i := Step(m', RegWrite(3, 0x18));
      && MachineOk(i) && (Enabled(i, Fire(n)) <==> Live(m'.core, 0, n).Some?)
      && (Enabled(i, Fire(n)) ==> Step(i, Fire(n)).core == Live(m'.core, 0, n).value.0)
  {
    hide Live, Geometry;
  }
}
