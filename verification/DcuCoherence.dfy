/** The geometry cache over runs: filled once, never changed until a reset, and true of the pack until someone
    writes over sector 0. */
module DcuCoherence {
  import opened Bytes
  import opened DcuModel
  import opened DcuGeometry
  import opened DcuMachine

  /** Unit `u`: empty, or admissible and, unless LBA 0 was written since, what a fresh look at sector 0 would give. */
  ghost predicate UnitCoherent(c: Core, u: nat)
    requires CoreOk(c) && u < 2
  {
    || (c.sectors[u] == 0 && c.heads[u] == 0)
    || (Admissible(c.sectors[u], c.heads[u])
        && (!c.tainted[u] ==> FreshGeometry(c.drives[u]) == (c.sectors[u], c.heads[u])))
  }

  ghost predicate Coherent(c: Core) {
    CoreOk(c) && UnitCoherent(c, 0) && UnitCoherent(c, 1)
  }

  lemma GeometryCoherent(c: Core, u: nat)
    requires Coherent(c) && u < 2
    ensures Coherent(Geometry(c, u))
  {
    hide FreshGeometry;
    FreshAdmissible(c.drives[u]);
  }

  /** A sector other than 0 does not show in the geometry. */
  lemma FreshSame(d: Drive, lba: nat, buf: Sector)
    requires lba < |d.sectors| && lba != 0
    ensures FreshGeometry(d.(sectors := d.sectors[lba := buf])) == FreshGeometry(d)
  {
    hide Parse;
  }

  lemma MoveCoherent(c: Core, opcode: byte, u: nat, lba: nat, page: nat)
    requires Coherent(c) && u < 2 && Move(c, opcode, u, lba, page).Some?
    ensures Coherent(Move(c, opcode, u, lba, page).value)
  {
    hide FreshGeometry, Gather, Scatter;
    if Writes(opcode) && lba != 0 {
      FreshSame(c.drives[u], lba, if opcode == C_FORMAT then Zeros(512) else Gather(c.mem, page));
    }
  }

  lemma {:induction false} MoveLiveCoherent(c: Core, io: Iocb, lba: nat, i: nat)
    requires Coherent(c) && io.unit < 2
    ensures Coherent(MoveLive(c, io, lba, i).0)
    decreases io.count - i
  {
    hide Move, UnitCoherent, PageAt;
    if i < io.count {
      var page := PageAt(c.mem, io.table, i);
      var next := Move(c, io.opcode, io.unit, lba + i, page);
      if next != None {
        MoveCoherent(c, io.opcode, io.unit, lba + i, page);
        MoveLiveCoherent(next.value, io, lba, i + 1);
      }
    }
  }

  lemma MemoryCoherent(c: Core, mem: seq<byte>)
    requires Coherent(c) && |mem| == |c.mem|
    ensures Coherent(c.(mem := mem))
  {
    hide FreshGeometry, Admissible;
  }

  lemma TransferCoherent(c: Core, io: Iocb)
    requires Coherent(c)
    ensures Coherent(TransferLive(c, io).0)
  {
    hide UnitCoherent, Geometry, MoveLive;
    if UnitOk(c, io.unit) {
      GeometryCoherent(c, io.unit);
      var c1 := Geometry(c, io.unit);
      MoveLiveCoherent(c1, io, Lba(c1, io), 0);
    }
  }

  lemma {:induction false} LiveCoherent(c: Core, a: nat, n: nat)
    requires Coherent(c) && Live(c, a, n).Some?
    ensures Coherent(Live(c, a, n).value.0)
    decreases n
  {
    hide UnitCoherent, TransferLive, Decode, Succeeds, WriteByte;
    var io := Decode(c.mem, a);
    var (c1, moved) := TransferLive(c, io);
    var c2 := Report(c1, a, io, moved);
    TransferCoherent(c, io);
    MemoryCoherent(c1, c2.mem);
    if Succeeds(c, io, moved) && io.chain >= CHAINBIT {
      LiveCoherent(c2, io.chain - CHAINBIT, n - 1);
    }
  }

  lemma ExecuteCoherent(m: Machine, n: nat)
    requires MachineOk(m) && (m.op == C_START ==> Live(m.core, Argument(m.chan), n).Some?) && Coherent(m.core)
    ensures Coherent(Execute(m, n).0.core)
  {
    hide UnitCoherent, Live, Geometry;
    if m.op == C_START {
      LiveCoherent(m.core, Argument(m.chan), n);
    } else if UnitOk(m.core, Argument(m.chan) / 8192) {
      GeometryCoherent(m.core, Argument(m.chan) / 8192);
    }
  }

  lemma StepCoherent(m: Machine, e: Event)
    requires MachineOk(m) && Enabled(m, e) && Coherent(m.core)
    ensures Coherent(Step(m, e).core)
  {
    hide Live, Execute, FreshGeometry, Admissible, WriteByte;
    match e
    case RegWrite(_, _) =>
    case Fire(n) => ExecuteCoherent(m.(armed := false), n);
    case MachineReset =>
    case Store(addr, data) => MemoryCoherent(m.core, WriteByte(m.core.mem, addr, data));
  }

  lemma {:induction false} RunCoherent(m: Machine, es: seq<Event>)
    requires Happens(m, es) && Coherent(m.core)
    ensures Coherent(After(m, es).core)
    decreases |es|
  {
    hide Step, Coherent, Enabled;
    if es != [] {
      StepCoherent(m, es[0]);
      RunCoherent(Step(m, es[0]), es[1..]);
    }
  }

  /** In every run from reset, each unit's cached geometry is empty or admissible, and while LBA 0 has not been
      written since it was filled it is exactly a fresh parse of sector 0. */
  lemma AlwaysCoherent(m: Machine, es: seq<Event>)
    requires Initial(m) && Happens(m, es)
    ensures Coherent(After(m, es).core)
  {
    hide Happens, After;
    assert Coherent(m.core);
    RunCoherent(m, es);
  }

  // --- filled once ----------------------------------------------------------------------

  /** What is cached in `c` is still cached in `c'`. */
  ghost predicate CacheKept(c: Core, c': Core) {
    && CoreOk(c) && CoreOk(c')
    && forall u :: 0 <= u < 2 && c.sectors[u] != 0 ==> c'.sectors[u] == c.sectors[u] && c'.heads[u] == c.heads[u]
  }

  lemma CacheKeptTrans(a: Core, b: Core, c: Core)
    requires CacheKept(a, b) && CacheKept(b, c)
    ensures CacheKept(a, c)
  {
  }

  lemma GeometryCacheKept(c: Core, u: nat)
    requires CoreOk(c) && u < 2
    ensures CacheKept(c, Geometry(c, u))
  {
    hide FreshGeometry;
  }

  lemma {:induction false} MoveLiveCache(c: Core, io: Iocb, lba: nat, i: nat)
    requires CoreOk(c) && io.unit < 2
    ensures MoveLive(c, io, lba, i).0.sectors == c.sectors && MoveLive(c, io, lba, i).0.heads == c.heads
    decreases io.count - i
  {
    hide Gather, Scatter, PageAt;
    if i < io.count {
      var next := Move(c, io.opcode, io.unit, lba + i, PageAt(c.mem, io.table, i));
      if next != None {
        MoveLiveCache(next.value, io, lba, i + 1);
      }
    }
  }

  lemma TransferCacheKept(c: Core, io: Iocb)
    requires CoreOk(c)
    ensures CacheKept(c, TransferLive(c, io).0)
  {
    hide Geometry, MoveLive;
    if UnitOk(c, io.unit) {
      GeometryCacheKept(c, io.unit);
      var c1 := Geometry(c, io.unit);
      MoveLiveCache(c1, io, Lba(c1, io), 0);
    }
  }

  lemma {:induction false} LiveCacheKept(c: Core, a: nat, n: nat)
    requires CoreOk(c) && Live(c, a, n).Some?
    ensures CacheKept(c, Live(c, a, n).value.0)
    decreases n
  {
    hide TransferLive, Decode, Succeeds, WriteByte, CacheKept;
    var io := Decode(c.mem, a);
    var (c1, moved) := TransferLive(c, io);
    var c2 := Report(c1, a, io, moved);
    TransferCacheKept(c, io);
    MemoryCacheKept(c, c1, c2.mem);
    if Succeeds(c, io, moved) && io.chain >= CHAINBIT {
      LiveCacheKept(c2, io.chain - CHAINBIT, n - 1);
      CacheKeptTrans(c, c2, Live(c, a, n).value.0);
    }
  }

  lemma MemoryCacheKept(c: Core, c1: Core, mem: seq<byte>)
    requires CacheKept(c, c1) && |mem| == |c1.mem|
    ensures CacheKept(c, c1.(mem := mem))
  {
  }

  lemma ExecuteCacheKept(m: Machine, n: nat)
    requires MachineOk(m) && (m.op == C_START ==> Live(m.core, Argument(m.chan), n).Some?)
    ensures CacheKept(m.core, Execute(m, n).0.core)
  {
    hide Live, Geometry, CacheKept;
    if m.op == C_START {
      LiveCacheKept(m.core, Argument(m.chan), n);
    } else {
      SelfKept(m.core);
      if UnitOk(m.core, Argument(m.chan) / 8192) {
        GeometryCacheKept(m.core, Argument(m.chan) / 8192);
      }
    }
  }

  lemma SelfKept(c: Core)
    requires CoreOk(c)
    ensures CacheKept(c, c)
  {
  }

  lemma StepCacheKept(m: Machine, e: Event)
    requires MachineOk(m) && Enabled(m, e) && !e.MachineReset?
    ensures CacheKept(m.core, Step(m, e).core)
  {
    hide Live, Execute, WriteByte;
    if e.Fire? {
      ExecuteCacheKept(m.(armed := false), e.links);
    }
  }

  /** Once set, a unit's geometry stays until a reset. */
  lemma {:induction false} CachedUntilReset(m: Machine, es: seq<Event>)
    requires Happens(m, es) && forall i :: 0 <= i < |es| ==> !es[i].MachineReset?
    ensures CacheKept(m.core, After(m, es).core)
    decreases |es|
  {
    hide Step, CacheKept, Enabled;
    if es == [] {
      SelfKept(m.core);
    } else {
      var m' := Step(m, es[0]);
      StepCacheKept(m, es[0]);
      assert forall i :: 0 <= i < |es[1..]| ==> es[1..][i] == es[i + 1];
      CachedUntilReset(m', es[1..]);
      CacheKeptTrans(m.core, m'.core, After(m, es).core);
    }
  }
}
