/** The controller's registers, its one-shot timer and interrupt line 3, as a state machine over its events. */
module DcuMachine {
  import opened Bytes
  import opened DcuModel

  datatype Code = BUSY | ERROR | DONE | IDLE

  function CodeBits(c: Code): nat {
    match c
    case BUSY => 0
    case ERROR => 1
    case DONE => 2
    case IDLE => 3
  }

  const C_SELFTEST: byte := 0x16
  const C_START: byte := 0x18
  const C_ASSDRIVE: byte := 0x20
  const C_ASSCYLINDER: byte := 0x2e
  const C_ASSBUFFER: byte := 0x42
  const C_SETBURST: byte := 0x74
  const C_SENSE: byte := 0x84
  const C_SPECIFIC: byte := 0xe8

  /** `armed` is the timer, `line` the level of interrupt line 3. The last three count what has happened: falling
      edges of the line, commands completed, and opcodes written. */
  datatype Machine = Machine(
    core: Core, chan: seq<byte>, op: byte, code: Code, selftest: bool, auxerr: bool, unit: nat,
    armed: bool, line: bool, edges: nat, completions: nat, opcodes: nat)

  ghost predicate MachineOk(m: Machine) {
    CoreOk(m.core) && |m.chan| == 3
  }

  // --- registers --------------------------------------------------------------------

  function SetLine(m: Machine, level: bool): Machine {
    m.(line := level, edges := if m.line && !level then m.edges + 1 else m.edges)
  }

  function WriteReg(m: Machine, offset: nat, data: byte): Machine
    requires |m.chan| == 3
  {
    if offset < 3 then m.(chan := m.chan[offset := data])
    else if offset == 3 then m.(op := data, code := BUSY, auxerr := false, armed := true, opcodes := m.opcodes + 1)
    else if offset == 4 then SetLine(m.(code := IDLE), true)
    else if offset == 8 then m.(auxerr := false)
    else m
  }

  function ReadReg(m: Machine, offset: nat): byte {
    if offset == 4 then
      0x80 + 4 * CodeBits(m.code) + 3 + (if m.selftest then 0x20 else 0) + (if m.auxerr then 0x10 else 0)
    else 0
  }

  /** `machine_reset`: everything but the timer. */
  function Reset(m: Machine): Machine {
    SetLine(m.(
      core := m.core.(sectors := [0, 0], heads := [0, 0]),
      chan := [0, 0, 0], op := 0, code := IDLE, selftest := false, auxerr := false, unit := 0), true)
  }

  // --- commands ---------------------------------------------------------------------

  function Argument(chan: seq<byte>): nat
    requires |chan| == 3
  {
    chan[0] as int + 256 * (chan[1] as int) + 65536 * (chan[2] as int)
  }

  /** The timer can fire: it is armed, and a transfer it would start comes to an end within `n` links. */
  ghost predicate CanFire(m: Machine, n: nat) {
    && MachineOk(m) && m.armed
    && (m.op == C_START ==> Live(m.core, Argument(m.chan), n).Some?)
  }

  /** `dcu_execute` */
  function Execute(m: Machine, n: nat): (Machine, bool)
    requires MachineOk(m) && (m.op == C_START ==> Live(m.core, Argument(m.chan), n).Some?)
  {
    if m.op == C_SELFTEST then (m.(selftest := false), true)
    else if m.op in {C_SETBURST, C_ASSCYLINDER, C_ASSBUFFER, C_SENSE} then (m, true)
    else if m.op == C_ASSDRIVE then
      var u := Argument(m.chan) / 8192;
      var core := if UnitOk(m.core, u) then Geometry(m.core, u) else m.core;
      (m.(unit := u, core := core), UnitOk(m.core, u))
    else if m.op == C_SPECIFIC then (m, UnitOk(m.core, m.unit))
    else if m.op == C_START then
      var (core, ok) := Live(m.core, Argument(m.chan), n).value;
      (m.(core := core), ok)
    else (m.(auxerr := true), false)
  }

  /** The timer callback, `dcu_complete`. */
  function Complete(m: Machine, n: nat): Machine
    requires CanFire(m, n)
  {
    var (m1, ok) := Execute(m.(armed := false), n);
    SetLine(m1.(code := if ok then DONE else ERROR, completions := m1.completions + 1), false)
  }

  // --- runs -------------------------------------------------------------------------

  datatype Event =
    | RegWrite(offset: nat, data: byte)
    | Fire(links: nat)
    | MachineReset
    | Store(addr: nat, data: byte)   // the processor writes main memory

  ghost predicate Enabled(m: Machine, e: Event) {
    e.Fire? ==> CanFire(m, e.links)
  }

  function Step(m: Machine, e: Event): Machine
    requires MachineOk(m) && Enabled(m, e)
  {
    match e
    case RegWrite(offset, data) => WriteReg(m, offset, data)
    case Fire(n) => Complete(m, n)
    case MachineReset => Reset(m)
    case Store(addr, data) => m.(core := m.core.(mem := WriteByte(m.core.mem, addr, data)))
  }

  /** `es` can happen from `m`, one after the other. */
  ghost predicate Happens(m: Machine, es: seq<Event>)
    decreases |es|
  {
    MachineOk(m) && (es == [] || (Enabled(m, es[0]) && Happens(Step(m, es[0]), es[1..])))
  }

  function After(m: Machine, es: seq<Event>): Machine
    requires Happens(m, es)
    decreases |es|
  {
    if es == [] then m else After(Step(m, es[0]), es[1..])
  }

  /** The state a reset leaves on a machine just started. */
  ghost predicate Initial(m: Machine) {
    && MachineOk(m)
    && m.core.sectors == [0, 0] && m.core.heads == [0, 0]
    && m.code == IDLE && !m.selftest && !m.auxerr && !m.armed && m.line
    && m.edges == m.completions == m.opcodes == 0
  }

  // --- what an event does to the control state ---------------------------------------

  /** Executing a command touches neither code, timer, line nor counts; only an unknown opcode sets the error flag. */
  lemma ExecuteControl(m: Machine, n: nat)
    requires MachineOk(m) && (m.op == C_START ==> Live(m.core, Argument(m.chan), n).Some?)
    ensures var (m', ok) := Execute(m, n);
      && MachineOk(m')
      && m' == m.(core := m'.core, unit := m'.unit, selftest := m'.selftest, auxerr := m'.auxerr)
      && (m'.selftest ==> m.selftest)
      && (m'.auxerr && !m.auxerr ==> !ok)
  {
    hide Live, Geometry;
    GeometryShape(m.core, Argument(m.chan) / 8192);
  }

  lemma GeometryShape(c: Core, u: nat)
    requires CoreOk(c)
    ensures u < 2 ==> CoreOk(Geometry(c, u))
  {
  }

  lemma CompleteControl(m: Machine, n: nat)
    requires CanFire(m, n)
    ensures var m' := Complete(m, n);
      && m'.completions == m.completions + 1 && m'.opcodes == m.opcodes
      && !m'.armed && !m'.line && m'.edges == m.edges + (if m.line then 1 else 0)
      && (m'.code == DONE || m'.code == ERROR)
      && m'.code == (if Execute(m.(armed := false), n).1 then DONE else ERROR)
      && (m'.auxerr && !m.auxerr ==> m'.code == ERROR)
      && (m'.selftest ==> m.selftest)
  {
    hide Live, Execute;
    ExecuteControl(m.(armed := false), n);
  }

  // --- safety ---------------------------------------------------------------------

  /** What a driver can rely on at any moment. */
  ghost predicate Safe(m: Machine) {
    && (m.code == BUSY ==> m.armed)
    && (m.code == DONE || m.code == ERROR ==> !m.line)
    && (m.code == IDLE ==> m.line)
    && (m.auxerr ==> !m.armed && (m.code == ERROR || m.code == IDLE))
    && !m.selftest
    && m.edges <= m.completions
    && m.completions + (if m.armed then 1 else 0) <= m.opcodes
  }

  lemma StepSafe(m: Machine, e: Event)
    requires MachineOk(m) && Enabled(m, e) && Safe(m)
    ensures Safe(Step(m, e))
  {
    hide Live, Execute, Complete;
    if e.Fire? {
      CompleteControl(m, e.links);
    }
  }

  lemma {:induction false} RunSafe(m: Machine, es: seq<Event>)
    requires Happens(m, es) && Safe(m)
    ensures Safe(After(m, es))
    decreases |es|
  {
    hide Step, Safe, Enabled;
    if es != [] {
      StepSafe(m, es[0]);
      RunSafe(Step(m, es[0]), es[1..]);
    }
  }

  /** Over every interleaving of register writes, timer firings, resets and memory writes. */
  lemma AlwaysSafe(m: Machine, es: seq<Event>)
    requires Initial(m) && Happens(m, es)
    ensures Safe(After(m, es))
  {
    hide Happens, After;
    RunSafe(m, es);
  }

  /** A reset does not disarm the timer: a command under way at the reset still completes, as the unknown opcode 0,
      with an error and an interrupt nobody asked for. That happens exactly when the timer was armed. */
  lemma ResetLeavesTimer(m: Machine, n: nat)
    requires MachineOk(m)
    ensures CanFire(Reset(m), n) <==> m.armed
    ensures m.armed ==>
      var m' := Complete(Reset(m), n);
      m'.code == ERROR && m'.auxerr && !m'.line && m'.completions == m.completions + 1
  {
    assert MachineOk(Reset(m));
    hide Live, Geometry, CoreOk;
  }

  // --- interrupts ---------------------------------------------------------------------

  /** Between any two completions there is an acknowledgement or a reset; `low` says one has gone unacknowledged. */
  predicate Acknowledged(es: seq<Event>, low: bool)
    decreases |es|
  {
    if es == [] then true else
    match es[0]
    case Fire(_) => !low && Acknowledged(es[1..], true)
    case MachineReset => Acknowledged(es[1..], false)
    case RegWrite(offset, _) => Acknowledged(es[1..], if offset == 4 then false else low)
    case Store(_, _) => Acknowledged(es[1..], low)
  }

  /** One event: what it adds to the counts, and the line after it. */
  lemma StepLine(m: Machine, e: Event)
    requires MachineOk(m) && Enabled(m, e)
    ensures var m' := Step(m, e);
      && m'.completions == m.completions + (if e.Fire? then 1 else 0)
      && m'.edges == m.edges + (if e.Fire? && m.line then 1 else 0)
      && m'.line == (if e.Fire? then false
                     else if e.MachineReset? || (e.RegWrite? && e.offset == 4) then true else m.line)
  {
    hide Live, Execute, Complete;
    if e.Fire? {
      CompleteControl(m, e.links);
    }
  }

  /** Interrupts are lost exactly when a completion follows another with no acknowledgement or reset between:
      otherwise the falling edges of line 3 are as many as the completed commands. */
  lemma {:induction false} EdgesAreCompletions(m: Machine, es: seq<Event>)
    requires Happens(m, es)
    ensures var m' := After(m, es);
      && m'.edges - m.edges <= m'.completions - m.completions
      && (m'.edges - m.edges == m'.completions - m.completions <==> Acknowledged(es, !m.line))
    decreases |es|
  {
    hide Step, Enabled;
    if es != [] {
      StepLine(m, es[0]);
      EdgesAreCompletions(Step(m, es[0]), es[1..]);
    }
  }

  /** The driver's discipline: an opcode is written only when the code is IDLE and no command is outstanding. */
  ghost predicate Disciplined(m: Machine, es: seq<Event>)
    requires Happens(m, es)
    decreases |es|
  {
    es != [] ==>
      && (es[0].RegWrite? && es[0].offset == 3 ==> m.code == IDLE && !m.armed)
      && Disciplined(Step(m, es[0]), es[1..])
  }

  lemma StepArmed(m: Machine, e: Event)
    requires MachineOk(m) && Enabled(m, e)
    ensures Step(m, e).armed == (if e.Fire? then false else (e.RegWrite? && e.offset == 3) || m.armed)
  {
    hide Live, Execute, Complete;
    if e.Fire? {
      CompleteControl(m, e.links);
    }
  }

  lemma {:induction false} DisciplineAcknowledges(m: Machine, es: seq<Event>)
    requires Happens(m, es) && Safe(m) && (m.armed ==> m.line) && Disciplined(m, es)
    ensures Acknowledged(es, !m.line)
    decreases |es|
  {
    hide Step;
    if es != [] {
      var e, m' := es[0], Step(m, es[0]);
      StepSafe(m, e);
      StepLine(m, e);
      StepArmed(m, e);
      DisciplineAcknowledges(m', es[1..]);
    }
  }

  /** No disk interrupt is lost in a disciplined run. */
  lemma NoLostInterrupt(m: Machine, es: seq<Event>)
    requires Initial(m) && Happens(m, es) && Disciplined(m, es)
    ensures After(m, es).edges == After(m, es).completions
  {
    hide Happens, After, Disciplined;
    DisciplineAcknowledges(m, es);
    EdgesAreCompletions(m, es);
  }

  /** Nothing that writes an opcode, acknowledges, resets or completes. */
  predicate Quiet(es: seq<Event>) {
    forall i :: 0 <= i < |es| ==> es[i].Store? || (es[i].RegWrite? && es[i].offset != 3 && es[i].offset != 4)
  }

  lemma {:induction false} QuietKeeps(m: Machine, es: seq<Event>)
    requires Happens(m, es) && Quiet(es)
    ensures After(m, es).code == m.code && After(m, es).line == m.line
    decreases |es|
  {
    if es != [] {
      assert es[0].Store? || (es[0].RegWrite? && es[0].offset != 3 && es[0].offset != 4);
      assert forall i :: 0 <= i < |es[1..]| ==> es[1..][i] == es[i + 1];
      QuietKeeps(Step(m, es[0]), es[1..]);
    }
  }

  /** A completed command reports its own result, DONE or ERROR, in the status register until it is acknowledged. */
  lemma ResultStands(m: Machine, n: nat, es: seq<Event>)
    requires CanFire(m, n) && Happens(Complete(m, n), es) && Quiet(es)
    ensures var ok := Execute(m.(armed := false), n).1;
      ReadReg(After(Complete(m, n), es), 4) / 4 % 4 == (if ok then CodeBits(DONE) else CodeBits(ERROR))
    ensures !After(Complete(m, n), es).line
  {
    hide Execute, Complete, Happens, After;
    CompleteControl(m, n);
    QuietKeeps(Complete(m, n), es);
    StatusCode(After(Complete(m, n), es));
  }

  /** Bits 2 and 3 of the status register are the code. */
  lemma StatusCode(m: Machine)
    ensures ReadReg(m, 4) / 4 % 4 == CodeBits(m.code)
  {
  }
}
