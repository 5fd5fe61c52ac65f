// The event loop of the converter (convert/main/convert.cc) on values, run beside the reference model.

module TraceRun {
  import opened TxnEngine
  import opened Wrappers
  import opened TxnAccounting
  import opened TxnAttribution
  import opened TxnReference
  import opened Unsigned

  const DUMMY_EXECUTION_CONTEXT := 0
  const DEFAULT_ADDRESS := 0x1337      // what `address` is preset to for events without one
  const LOOK_BEHIND_WINDOW := 2

  datatype Config = Config(ctxTracing: bool, includeAllLocks: bool)
  {
    function Ctx(ctx: int): int {
      if ctxTracing then ctx else DUMMY_EXECUTION_CONTEXT
    }
  }

  // One parsed input line.  kind is None for a lock type the converter does not know; isStatic says
  // whether the address lies in a data section or is a pseudo lock's.
  datatype Event =
    | AllocEvent(base: nat, size: nat, knownType: bool)
    | FreeEvent(base: nat)
    | LockEvent(ts: nat, address: nat, op: LockOp, kind: Option<LockKind>, recursive: bool, isStatic: bool, ctx: int)
    | AccessEvent(ts: nat, isWrite: bool, address: nat, size: nat, base: nat, ctx: int)
    | OtherEvent(actionPV: bool)

  datatype Alloc = Alloc(id: nat, size: nat)

  datatype Conv = Conv(engine: Engine, allocs: map<nat, Alloc>, nextAllocId: nat,
                       buffer: seq<MemAccess>, nextAccessId: nat, rows: seq<AccessRow>)

  // The closest allocation at or below the address covers it.
  predicate Embedded(allocs: map<nat, Alloc>, address: nat) {
    exists b :: b in allocs && b <= address < Add64(b, allocs[b].size)
                && forall c :: c in allocs && c <= address ==> c <= b
  }

  // ----- writeMemAccesses -----------------------------------------------------------------------

  function FlushBuffer(cfg: Config, e: Engine, rows: seq<AccessRow>, buffer: seq<MemAccess>): (Engine, seq<AccessRow>)
    decreases |buffer|
  {
    if buffer == [] then (e, rows)
    else
      var a := buffer[0];
      var ctx := cfg.Ctx(a.ctx);
      FlushBuffer(cfg, CountAccess(e, ctx), rows + [AccessRow(a, ActiveTxn(e, ctx))], buffer[1..])
  }

  // A read and a write of the lock's own address at one time stamp, just before a P or V action.
  predicate BelongToLock(buffer: seq<MemAccess>, address: nat) {
    |buffer| >= LOOK_BEHIND_WINDOW &&
    var r, w := buffer[|buffer| - 2], buffer[|buffer| - 1];
    r.ts == w.ts && !r.isWrite && w.isWrite && r.address == w.address == address && r.size == w.size
  }

  function Dropped(buffer: seq<MemAccess>, actionPV: bool, address: nat): nat {
    if actionPV && BelongToLock(buffer, address) then LOOK_BEHIND_WINDOW else 0
  }

  function WriteMemAccesses(cfg: Config, c: Conv, actionPV: bool, address: nat): Conv {
    var written := FlushBuffer(cfg, c.engine, c.rows, c.buffer[..|c.buffer| - Dropped(c.buffer, actionPV, address)]);
    c.(engine := written.0, rows := written.1, buffer := [])
  }

  // ----- the event loop ---------------------------------------------------------------------------

  // The lock a P or V is about, once it is known: the third case creates it.
  datatype Target = Known(lock: nat) | Unknown | Created(kind: LockKind) | Fatal

  function TargetOf(cfg: Config, c: Conv, ev: Event): Target
    requires ev.LockEvent?
  {
    if ev.address in c.engine.byAddress then Known(c.engine.byAddress[ev.address])
    else if !(Embedded(c.allocs, ev.address) || ev.isStatic || cfg.includeAllLocks) then Unknown
    else if !IsAcquire(ev.op) then Unknown
    else if ev.kind.None? then Fatal
    else Created(ev.kind.value)
  }

  // The engine and the lock number on which transition() is called.
  function EngineFor(cfg: Config, c: Conv, ev: Event): Engine
    requires ev.LockEvent?
  {
    match TargetOf(cfg, c, ev)
    case Created(kind) => AllocLock(c.engine, kind, ev.address, ev.recursive)
    case _ => c.engine
  }

  function LockFor(cfg: Config, c: Conv, ev: Event): Option<nat>
    requires ev.LockEvent?
  {
    match TargetOf(cfg, c, ev)
    case Known(l) => Some(l)
    case Created(_) => Some(|c.engine.locks|)
    case _ => None
  }

  ghost function HandlePV(cfg: Config, c: Conv, ev: Event): Outcome<Conv>
    requires ev.LockEvent? && Typed(c.engine) && Addressed(c.engine)
  {
    match TargetOf(cfg, c, ev)
    case Unknown => Done(c)
    case Fatal => Exit
    case _ =>
      AllocTyped(cfg, c, ev);
      var e :- Transition(EngineFor(cfg, c, ev), LockFor(cfg, c, ev).value, ev.op, ev.recursive, ev.ts, cfg.Ctx(ev.ctx));
      Done(c.(engine := e))
  }

  lemma {:induction false} AllocTyped(cfg: Config, c: Conv, ev: Event)
    requires ev.LockEvent? && Typed(c.engine)
    ensures Typed(EngineFor(cfg, c, ev))
  {
    if TargetOf(cfg, c, ev).Created? {
      KindsKeepTyped(c.engine, EngineFor(cfg, c, ev));
    }
  }

  predicate InBounds(ev: Event, size: nat)
    requires ev.AccessEvent?
  {
    && ev.base <= ev.address <= Add64(ev.base, size)
    && ev.base <= Add64(ev.address, ev.size) <= Add64(ev.base, size)
  }

  function NewAccess(c: Conv, ev: Event): MemAccess
    requires ev.AccessEvent? && ev.base in c.allocs
  {
    MemAccess(c.nextAccessId, ev.ts, c.allocs[ev.base].id, ev.isWrite, ev.size, ev.address, ev.ctx)
  }

  // What happens before the switch over the actions.
  function Before(cfg: Config, c: Conv, ev: Event): Conv {
    match ev
    case AccessEvent(_, _, _, _, _, _) => c
    case OtherEvent(actionPV) => WriteMemAccesses(cfg, c, actionPV, DEFAULT_ADDRESS)
    case _ => WriteMemAccesses(cfg, c, false, DEFAULT_ADDRESS)
  }

  ghost function After(cfg: Config, c: Conv, ev: Event): Outcome<Conv>
    requires Typed(c.engine) && Addressed(c.engine)
  {
    match ev
    case AllocEvent(base, size, knownType) =>
      if base in c.allocs || !knownType then Done(c)
      else Done(c.(allocs := c.allocs[base := Alloc(c.nextAllocId, size)], nextAllocId := c.nextAllocId + 1))
    case FreeEvent(base) =>
      if base !in c.allocs then Done(c)
      else Done(c.(engine := DeleteLocks(c.engine, base, c.allocs[base].size), allocs := c.allocs - {base}))
    case LockEvent(_, _, _, _, _, _, _) => HandlePV(cfg, c, ev)
    case AccessEvent(_, _, _, _, base, _) =>
      if base !in c.allocs then Done(c)
      else if !InBounds(ev, c.allocs[base].size) then Exit
      else Done(c.(buffer := c.buffer + [NewAccess(c, ev)], nextAccessId := c.nextAccessId + 1))
    case OtherEvent(_) => Done(c)
  }
  // ----- every run at all: what finishTXN needs to know of the stacks ---------------------------------

  lemma {:induction false} CountTyped(e: Engine, ctx: int)
    requires Typed(e)
    ensures Typed(CountAccess(e, ctx))
  {
    hide Typed, CountAccess;
    forall c: int ensures WellKinded(e.locks, Proj(CountAccess(e, ctx).Stack(c))) {
      TypedStack(e, c);
      CountKeepsProj(e, ctx, c);
    }
    CountKeepsProj(e, ctx, ctx);
    AllTyped(CountAccess(e, ctx));
  }

  lemma {:induction false} AllTyped(e: Engine)
    requires forall c: int :: WellKinded(e.locks, Proj(e.Stack(c)))
    ensures Typed(e)
  {
  }

  lemma {:induction false} FlushTyped(cfg: Config, e: Engine, rows: seq<AccessRow>, buffer: seq<MemAccess>)
    requires Typed(e) && Addressed(e)
    ensures Typed(FlushBuffer(cfg, e, rows, buffer).0) && Addressed(FlushBuffer(cfg, e, rows, buffer).0)
    decreases |buffer|
  {
    hide Typed, CountAccess, ActiveTxn;
    if buffer != [] {
      var ctx := cfg.Ctx(buffer[0].ctx);
      CountTyped(e, ctx);
      CountFrame(e, ctx);
      FlushTyped(cfg, CountAccess(e, ctx), rows + [AccessRow(buffer[0], ActiveTxn(e, ctx))], buffer[1..]);
    }
  }

  lemma {:induction false} WriteKeepsTyped(cfg: Config, c: Conv, actionPV: bool, address: nat)
    requires Typed(c.engine) && Addressed(c.engine)
    ensures var e' := WriteMemAccesses(cfg, c, actionPV, address).engine; Typed(e') && Addressed(e')
  {
    hide Typed, FlushBuffer;
    FlushTyped(cfg, c.engine, c.rows, c.buffer[..|c.buffer| - Dropped(c.buffer, actionPV, address)]);
  }

  lemma {:induction false} AfterRunnable(cfg: Config, c: Conv, ev: Event)
    requires Typed(c.engine) && Addressed(c.engine)
    ensures After(cfg, c, ev).Done? ==>
      var e' := After(cfg, c, ev).value.engine; Typed(e') && Addressed(e')
  {
    hide Typed, Transition;
    if After(cfg, c, ev).Done? && ev.LockEvent? && LockFor(cfg, c, ev).Some? {
      var e := EngineFor(cfg, c, ev);
      AllocTyped(cfg, c, ev);
      TransitionTyped(e, LockFor(cfg, c, ev).value, ev.op, ev.recursive, ev.ts, cfg.Ctx(ev.ctx));
      TransitionIdentity(e, LockFor(cfg, c, ev).value, ev.op, ev.recursive, ev.ts, cfg.Ctx(ev.ctx));
    } else if ev.FreeEvent? && ev.base in c.allocs {
      KindsKeepTyped(c.engine, DeleteLocks(c.engine, ev.base, c.allocs[ev.base].size));
    }
  }
}
