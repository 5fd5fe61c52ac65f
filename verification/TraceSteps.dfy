// A principle for facts about every run at all, side conflicts and failures included: all the converter
// does to the engine is to renew the top of a stack, to change locks and to count accesses.

module TraceSteps {
  import opened TxnEngine
  import opened Wrappers
  import opened TxnAccounting
  import opened TxnAttribution
  import opened TraceRun
  import opened TraceTheorems

  // finishTXN and startTXN: some of the lowest entries stay, what was above them has its rows.
  ghost predicate RenewsAt(e: Engine, e': Engine, c: int, kept: seq<Txn>, keep: nat, ts: nat, ctxOld: int) {
    && WellKinded(e.locks, Proj(e.Stack(c))) && KeptOf(e.Stack(c), keep, kept)
    && RenewedOver(e, e', c, kept, ts) && Written(e, e', c, keep, ts, ctxOld)
    && e'.nextLockId == e.nextLockId
  }

  ghost predicate Renewal(e: Engine, e': Engine) {
    exists c, kept, keep, ts, ctxOld :: RenewsAt(e, e', c, kept, keep, ts, ctxOld)
  }

  // Known locks keep their ids, and new ones get new ids.
  ghost predicate LockStep(e: Engine, e': Engine) {
    SameButLocks(e, e') && (IdsInjective(e) ==> IdsInjective(e'))
  }

  // What lock operations are made of.
  ghost predicate OpStep(e: Engine, e': Engine) {
    Renewal(e, e') || LockStep(e, e')
  }

  // The same at a given time, in a given context or one that has TXNs.
  ghost predicate RenewalAt(e: Engine, e': Engine, ts: nat, ctx: int) {
    exists c, kept, keep, ctxOld :: RenewsAt(e, e', c, kept, keep, ts, ctxOld) && (c == ctx || e.Stack(c) != [])
  }

  ghost predicate OpStepAt(e: Engine, e': Engine, ts: nat, ctx: int) {
    RenewalAt(e, e', ts, ctx) || LockStep(e, e')
  }

  ghost predicate SmallStep(e: Engine, e': Engine) {
    OpStep(e, e') || exists ctx :: e' == CountAccess(e, ctx)
  }

  ghost predicate OpStable(P: Engine -> bool) {
    forall e: Engine, e': Engine :: P(e) && OpStep(e, e') ==> P(e')
  }

  ghost predicate OpStableAt(P: Engine -> bool, ts: nat, ctx: int) {
    forall e: Engine, e': Engine :: P(e) && OpStepAt(e, e', ts, ctx) ==> P(e')
  }

  ghost predicate Stable(P: Engine -> bool) {
    forall e: Engine, e': Engine :: P(e) && SmallStep(e, e') ==> P(e')
  }

  lemma {:induction false} StableIsOpStable(P: Engine -> bool, ts: nat, ctx: int)
    requires Stable(P)
    ensures OpStableAt(P, ts, ctx) && forall e, c :: P(e) ==> P(CountAccess(e, c))
  {
    hide OpStep, OpStepAt, CountAccess;
    forall e, c | P(e) ensures P(CountAccess(e, c)) {
      assert SmallStep(e, CountAccess(e, c));
    }
    assert OpStable(P) by {
      forall e, e' | P(e) && OpStep(e, e') ensures P(e') {
        assert SmallStep(e, e');
      }
    }
    OpStableIsAt(P, ts, ctx);
  }

  lemma {:induction false} OpStableIsAt(P: Engine -> bool, ts: nat, ctx: int)
    requires OpStable(P)
    ensures OpStableAt(P, ts, ctx)
  {
    hide OpStep, OpStepAt;
    forall e, e' | P(e) && OpStepAt(e, e', ts, ctx) ensures P(e') {
      AtIsOpStep(e, e', ts, ctx);
    }
  }

  lemma {:induction false} AtIsOpStep(e: Engine, e': Engine, ts: nat, ctx: int)
    requires OpStepAt(e, e', ts, ctx)
    ensures OpStep(e, e')
  {
    hide RenewsAt, LockStep;
    if RenewalAt(e, e', ts, ctx) {
      var c, kept, keep, ctxOld :| RenewsAt(e, e', c, kept, keep, ts, ctxOld);
      assert Renewal(e, e');
    }
  }

  lemma {:induction false} Stays(P: Engine -> bool, ts: nat, ctx: int, e: Engine, e': Engine)
    requires OpStableAt(P, ts, ctx) && P(e) && OpStepAt(e, e', ts, ctx)
    ensures P(e')
  {
  }

  // ----- the small steps ---------------------------------------------------------------------------

  lemma {:induction false} FinishIsSmall(e: Engine, x: Sub, ts: nat, removeReader: bool, c: int, ctxOld: int, ctx: int)
    requires (c == ctx || e.Stack(c) != []) && WellKinded(e.locks, Proj(e.Stack(c)))
    ensures OpStepAt(e, Finish(e, x, ts, removeReader, c, ctxOld), ts, ctx)
  {
    hide Finish, Kept, KeepOf, WellKinded, Written, RenewedOver, KeptOf, LockStep;
    var s := e.Stack(c);
    FinishRenews(e, x, ts, removeReader, c, ctxOld);
    FinishIdentity(e, x, ts, removeReader, c, ctxOld);
    KeptIsKept(s, x, removeReader);
    assert RenewsAt(e, Finish(e, x, ts, removeReader, c, ctxOld), c, Kept(s, x, removeReader), KeepOf(s, x), ts, ctxOld);
  }

  lemma {:induction false} StartIsSmall(e: Engine, x: Sub, ts: nat, ctx: int)
    requires WellKinded(e.locks, Proj(e.Stack(ctx)))
    ensures OpStepAt(e, Start(e, x, ts, ctx), ts, ctx)
  {
    hide WellKinded, Written, RenewedOver, KeptOf, LockStep, Shielded;
    var s := e.Stack(ctx);
    StartRenews(e, x, ts, ctx);
    LowestAreKept(s, |s|);
    assert RenewsAt(e, Start(e, x, ts, ctx), ctx, s[..|s|], |s|, ts, ctx);
  }

  lemma {:induction false} SetLockIsSmall(e: Engine, l: nat, lock: LockState, ts: nat, ctx: int)
    requires l < |e.locks| && lock.kind == e.locks[l].kind
    requires lock.readId == e.locks[l].readId && lock.writeId == e.locks[l].writeId
    ensures OpStepAt(e, SetLock(e, l, lock), ts, ctx)
  {
    hide RenewalAt, CountAccess, IdsInjective;
    if IdsInjective(e) {
      IdentityKeepsIds(e, SetLock(e, l, lock));
    }
  }

  // ----- one lock operation ------------------------------------------------------------------------

  lemma {:induction false} FlushSideStays(P: Engine -> bool, e: Engine, x: Sub, ts: nat, ctx: int)
    requires OpStableAt(P, ts, ctx) && P(e) && x.lock < |e.locks| && WellKinded(e.locks, Proj(e.Stack(ctx)))
    ensures P(FlushSide(e, x, ts, ctx))
  {
    hide OpStableAt, Finish, WellKinded, OnStack, OpStepAt;
    var e1 := Finish(e, x, ts, true, ctx, ctx);
    FinishIsSmall(e, x, ts, true, ctx, ctx, ctx);
    Stays(P, ts, ctx, e, e1);
    FinishIdentity(e, x, ts, true, ctx, ctx);
    var lock := e1.locks[x.lock];
    var flushed := if x.subLock.ReaderLock? then lock.(readers := 0, lastNPos := []) else lock.(writers := 0, lastNPos := []);
    SetLockIsSmall(e1, x.lock, flushed, ts, ctx);
    Stays(P, ts, ctx, e1, SetLock(e1, x.lock, flushed));
  }

  lemma {:induction false} FinishAndPopStays(P: Engine -> bool, e: Engine, x: Sub, ts: nat, c: int, ctx: int)
    requires OpStableAt(P, ts, ctx) && P(e) && x.lock < |e.locks| && e.locks[x.lock].lastNPos != []
    requires (c == ctx || e.Stack(c) != []) && WellKinded(e.locks, Proj(e.Stack(c)))
    ensures P(FinishAndPop(e, x, ts, c, ctx))
  {
    hide OpStableAt, Finish, WellKinded, OnStack, OpStepAt;
    var e1 := Finish(e, x, ts, false, c, ctx);
    FinishIsSmall(e, x, ts, false, c, ctx, ctx);
    Stays(P, ts, ctx, e, e1);
    FinishIdentity(e, x, ts, false, c, ctx);
    var popped := e1.locks[x.lock].(lastNPos := Pop(e1.locks[x.lock].lastNPos));
    SetLockIsSmall(e1, x.lock, popped, ts, ctx);
    Stays(P, ts, ctx, e1, SetLock(e1, x.lock, popped));
  }

  lemma {:induction false} BeforeAcquireStays(P: Engine -> bool, e: Engine, x: Sub, ts: nat, ctx: int)
    requires OpStableAt(P, ts, ctx) && P(e) && Typed(e) && x.lock < |e.locks|
    ensures var r := (TypedStack(e, ctx); BeforeAcquire(e, x, ts, ctx)); r.Done? ==> P(r.value)
  {
    hide OpStableAt, Typed, WellKinded, OnStack, FlushSide, Finish, FinishAndPop, OpStepAt;
    TypedStack(e, ctx);
    var w := Sub(x.lock, WriterLock);
    FlushSideStays(P, e, Sub(x.lock, ReaderLock), ts, ctx);
    FlushSideStays(P, e, w, ts, ctx);
    FinishIsSmall(e, w, ts, false, ctx, ctx, ctx);
    Stays(P, ts, ctx, e, Finish(e, w, ts, false, ctx, ctx));
    if e.locks[x.lock].lastNPos != [] {
      FinishAndPopStays(P, e, w, ts, ctx, ctx);
    }
    ReacquireIs(e, x.lock, ts, ctx);
  }

  lemma {:induction false} AfterAcquireStays(P: Engine -> bool, e: Engine, x: Sub, ts: nat, ctx: int)
    requires OpStableAt(P, ts, ctx) && P(e) && Typed(e) && x.lock < |e.locks|
    ensures P(AfterAcquire(e, x, ts, ctx))
  {
    hide OpStableAt, Typed, WellKinded, OpStep, Start;
    var up := CountUp(e.locks[x.lock], x.subLock, ts);
    SetLockIsSmall(e, x.lock, up, ts, ctx);
    Stays(P, ts, ctx, e, SetLock(e, x.lock, up));
    SetLockTyped(e, x.lock, up);
    TypedStack(SetLock(e, x.lock, up), ctx);
    StartIsSmall(SetLock(e, x.lock, up), x, ts, ctx);
    Stays(P, ts, ctx, SetLock(e, x.lock, up), AfterAcquire(e, x, ts, ctx));
  }

  lemma {:induction false} AcquireStays(P: Engine -> bool, e: Engine, x: Sub, ts: nat, ctx: int)
    requires OpStableAt(P, ts, ctx) && P(e) && Typed(e) && x.lock < |e.locks| && Acquire(e, x, ts, ctx).Done?
    ensures P(Acquire(e, x, ts, ctx).value)
  {
    hide OpStableAt, Typed, WellKinded, BeforeAcquire, AfterAcquire, OpStepAt;
    TypedStack(e, ctx);
    BeforeAcquireStays(P, e, x, ts, ctx);
    BeforeAcquireTyped(e, x, ts, ctx);
    AfterAcquireStays(P, BeforeAcquire(e, x, ts, ctx).value, x, ts, ctx);
  }

  lemma {:induction false} ReleaseCtxIs(e: Engine, x: Sub, ctx: int)
    ensures ReleaseCtx(e, x, ctx) == ctx || e.Stack(ReleaseCtx(e, x, ctx)) != []
  {
  }

  lemma {:induction false} ReleaseStays(P: Engine -> bool, e: Engine, x: Sub, ts: nat, ctx: int)
    requires OpStableAt(P, ts, ctx) && P(e) && Typed(e) && x.lock < |e.locks|
    ensures P(Release(e, x, ts, ctx))
  {
    hide OpStableAt, Typed, WellKinded, FinishAndPop, ReleaseCtx, OpStepAt;
    var c := ReleaseCtx(e, x, ctx);
    TypedStack(e, c);
    var e1 := if e.locks[x.lock].lastNPos == [] then e else FinishAndPop(e, x, ts, c, ctx);
    if e.locks[x.lock].lastNPos != [] {
      ReleaseCtxIs(e, x, ctx);
      FinishAndPopStays(P, e, x, ts, c, ctx);
      FinishAndPopLock(e, x, ts, c, ctx);
    }
    var down := CountDown(e1.locks[x.lock], x.subLock);
    SetLockIsSmall(e1, x.lock, down, ts, ctx);
    Stays(P, ts, ctx, e1, SetLock(e1, x.lock, down));
  }

  lemma {:induction false} TransitionStays(P: Engine -> bool, e: Engine, l: nat, op: LockOp, recursive: bool, ts: nat,
      ctx: int)
    requires OpStableAt(P, ts, ctx) && P(e) && Typed(e) && l < |e.locks| && Transition(e, l, op, recursive, ts, ctx).Done?
    ensures P(Transition(e, l, op, recursive, ts, ctx).value)
  {
    hide OpStableAt, Typed, WellKinded, Acquire, Release, OpStepAt;
    var e0 := SetFlags(e, l, recursive);
    SetLockIsSmall(e, l, e.locks[l].(recursive := recursive), ts, ctx);
    Stays(P, ts, ctx, e, e0);
    KindsKeepTyped(e, e0);
    TypedStack(e0, ctx);
    if IsAcquire(op) {
      AcquireStays(P, e0, Sub(l, SideOf(op)), ts, ctx);
    } else {
      ReleaseStays(P, e0, Sub(l, SideOf(op)), ts, ctx);
    }
  }

  // ----- runs ----------------------------------------------------------------------------------------

  lemma {:induction false} FlushStays(P: Engine -> bool, cfg: Config, e: Engine, rows: seq<AccessRow>, buffer: seq<MemAccess>)
    requires Stable(P) && P(e)
    ensures P(FlushBuffer(cfg, e, rows, buffer).0)
    decreases |buffer|
  {
    hide Stable, CountAccess, ActiveTxn;
    if buffer != [] {
      var ctx := cfg.Ctx(buffer[0].ctx);
      StableIsOpStable(P, 0, 0);
      FlushStays(P, cfg, CountAccess(e, ctx), rows + [AccessRow(buffer[0], ActiveTxn(e, ctx))], buffer[1..]);
    }
  }

  lemma {:induction false} FlushedStays(P: Engine -> bool, cfg: Config, w: World, actionPV: bool, address: nat)
    requires Stable(P) && P(w.conv.engine)
    ensures P(Flushed(cfg, w, actionPV, address).conv.engine)
  {
    hide Stable, FlushBuffer;
    var c := w.conv;
    FlushStays(P, cfg, c.engine, c.rows, c.buffer[..|c.buffer| - Dropped(c.buffer, actionPV, address)]);
  }

  lemma {:induction false} AllocIsSmall(cfg: Config, c: Conv, ev: Event, ts: nat, ctx: int)
    requires ev.LockEvent? && Addressed(c.engine)
    ensures OpStepAt(c.engine, EngineFor(cfg, c, ev), ts, ctx)
    ensures LockFor(cfg, c, ev).Some? ==> LockFor(cfg, c, ev).value < |EngineFor(cfg, c, ev).locks|
  {
    hide RenewalAt, CountAccess, IdsInjective;
    if IdsInjective(c.engine) && TargetOf(cfg, c, ev).Created? {
      AllocKeepsIds(c.engine, TargetOf(cfg, c, ev).kind, ev.address, ev.recursive);
    }
  }

  lemma {:induction false} DeleteIsSmall(e: Engine, address: nat, size: nat, ts: nat, ctx: int)
    ensures OpStepAt(e, DeleteLocks(e, address, size), ts, ctx)
  {
    hide RenewalAt, CountAccess, IdsInjective;
    if IdsInjective(e) {
      SameIdsInjective(e, DeleteLocks(e, address, size));
    }
  }

  lemma {:induction false} AfterStays(P: Engine -> bool, cfg: Config, c: Conv, ev: Event, ts: nat, ctx: int)
    requires (ev.LockEvent? ==> ts == ev.ts && ctx == cfg.Ctx(ev.ctx)) && OpStableAt(P, ts, ctx) && P(c.engine)
    requires Typed(c.engine) && Addressed(c.engine) && After(cfg, c, ev).Done?
    ensures P(After(cfg, c, ev).value.engine)
  {
    hide OpStableAt, Typed, Transition, AllocLock, OpStepAt;
    if ev.LockEvent? && LockFor(cfg, c, ev).Some? {
      var e := EngineFor(cfg, c, ev);
      AllocTyped(cfg, c, ev);
      AllocIsSmall(cfg, c, ev, ts, ctx);
      Stays(P, ts, ctx, c.engine, e);
      TransitionStays(P, e, LockFor(cfg, c, ev).value, ev.op, ev.recursive, ev.ts, cfg.Ctx(ev.ctx));
    } else if ev.FreeEvent? && ev.base in c.allocs {
      DeleteIsSmall(c.engine, ev.base, c.allocs[ev.base].size, ts, ctx);
      Stays(P, ts, ctx, c.engine, DeleteLocks(c.engine, ev.base, c.allocs[ev.base].size));
    }
  }

  lemma {:induction false} StepStays(P: Engine -> bool, cfg: Config, w: World, ev: Event)
    requires Stable(P) && P(w.conv.engine) && Runnable(w) && Step(cfg, w, ev).Done?
    ensures P(Step(cfg, w, ev).value.conv.engine)
  {
    hide Stable, Typed, After, Flushed, NextHeld, NextSeen;
    var ts, ctx := if ev.LockEvent? then ev.ts else 0, if ev.LockEvent? then cfg.Ctx(ev.ctx) else 0;
    StableIsOpStable(P, ts, ctx);
    PreparedRunnable(cfg, w, ev);
    FlushedStays(P, cfg, w, FlushArgs(ev).0, FlushArgs(ev).1);
    AfterStays(P, cfg, Prepared(cfg, w, ev).conv, ev, ts, ctx);
  }

  lemma {:induction false} RunStays(P: Engine -> bool, cfg: Config, w: World, events: seq<Event>)
    requires Stable(P) && P(w.conv.engine) && Runnable(w) && Run(cfg, w, events).Done?
    ensures P(Run(cfg, w, events).value.conv.engine)
    decreases |events|
  {
    hide Stable, Runnable, Step;
    if events != [] {
      StepStays(P, cfg, w, events[0]);
      RunStays(P, cfg, Step(cfg, w, events[0]).value, events[1..]);
    }
  }

  lemma {:induction false} CloseCtxStays(P: Engine -> bool, e: Engine, c: int, ts: nat, ctx: int)
    requires OpStableAt(P, ts, ctx) && P(e) && Typed(e)
    ensures P(CloseCtx(e, c, ts))
    decreases |e.Stack(c)|
  {
    hide OpStableAt, Typed, Finish, WellKinded, OpStepAt;
    var s := e.Stack(c);
    if s != [] {
      var x := SubOf(s[|s| - 1]);
      FinishTop(e, c, ts);
      FinishTyped(e, x, ts, c, c);
      FinishIsSmall(e, x, ts, false, c, c, ctx);
      Stays(P, ts, ctx, e, Finish(e, x, ts, false, c, c));
      CloseCtxStays(P, Finish(e, x, ts, false, c, c), c, ts, ctx);
    }
  }

  lemma {:induction false} CloseCtxsStays(P: Engine -> bool, e: Engine, cs: set<int>, ts: nat, ctx: int)
    requires OpStableAt(P, ts, ctx) && P(e) && Typed(e)
    ensures P(CloseCtxs(e, cs, ts))
    decreases cs
  {
    hide OpStableAt, Typed, CloseCtx;
    if exists c :: c in cs {
      CloseCtxStays(P, e, Lowest(cs), ts, ctx);
      CloseCtxsStays(P, CloseCtx(e, Lowest(cs), ts), cs - {Lowest(cs)}, ts, ctx);
    }
  }

  lemma {:induction false} FinalStays(P: Engine -> bool, cfg: Config, w: World, ts: nat)
    requires Stable(P) && P(w.conv.engine) && Runnable(w)
    ensures P(Final(cfg, w, ts).conv.engine)
  {
    hide Stable, OpStableAt, Typed, CloseCtxs, Flushed;
    StableIsOpStable(P, ts, 0);
    FlushedStays(P, cfg, w, true, 0);
    FlushedTyped(cfg, w);
    var e := Flushed(cfg, w, true, 0).conv.engine;
    CloseCtxsStays(P, e, e.stacks.Keys, ts, 0);
  }

  lemma {:induction false} FlushedTyped(cfg: Config, w: World)
    requires Runnable(w)
    ensures Typed(Flushed(cfg, w, true, 0).conv.engine)
  {
    hide Typed, FlushBuffer;
    WriteKeepsTyped(cfg, w.conv, true, 0);
  }

  // ----- ids -----------------------------------------------------------------------------------------

  lemma {:induction false} LocksKeepIds(e: Engine, e': Engine)
    requires IdsUnique(e) && SameButLocks(e, e')
    ensures IdsUnique(e')
  {
    hide NoRepeats, DistinctRows;
    assert forall txn, c, k :: ActiveAt(e', txn, c, k) <==> ActiveAt(e, txn, c, k);
    assert forall txn :: Closed(e', txn) <==> Closed(e, txn);
  }

  lemma {:induction false} SmallKeepsIds(e: Engine, e': Engine)
    requires IdsUnique(e) && SmallStep(e, e')
    ensures IdsUnique(e')
  {
    hide IdsUnique, SameButLocks, IdsInjective, WellKinded, KeptOf, RenewedOver, Written, CountAccess;
    if Renewal(e, e') {
      var c, kept, keep, ts, ctxOld :| RenewsAt(e, e', c, kept, keep, ts, ctxOld);
      RenewKeepsIds(e, e', c, kept, keep, ts, ctxOld);
    } else if LockStep(e, e') {
      LocksKeepIds(e, e');
    } else {
      var ctx :| e' == CountAccess(e, ctx);
      CountKeepsIds(e, ctx);
    }
  }

  lemma {:induction false} IdsStable()
    ensures Stable((e: Engine) => IdsUnique(e))
  {
    hide IdsUnique, SmallStep;
    forall e, e' | IdsUnique(e) && SmallStep(e, e') ensures IdsUnique(e') { SmallKeepsIds(e, e'); }
  }

  lemma {:induction false} InitialIds()
    ensures IdsUnique(Initial().conv.engine) && Runnable(Initial())
  {
    var e := Initial().conv.engine;
    assert forall c: int :: Proj(e.Stack(c)) == [];
    assert forall txn, c, k :: !ActiveAt(e, txn, c, k);
  }

  // Whatever the events, if the program gets to its end: no TXN id is written twice, no lock twice for
  // a TXN, and no lock for a TXN that has no row.
  lemma {:induction false} NoIdIsWrittenTwice(cfg: Config, events: seq<Event>, ts: nat)
    requires Runnable(Initial()) && Run(cfg, Initial(), events).Done?
    ensures var e := Final(cfg, Run(cfg, Initial(), events).value, ts).conv.engine;
      && DistinctRows(e.txnRows) && NoRepeats(e.heldRows)
      && forall i :: 0 <= i < |e.heldRows| ==> Closed(e, e.heldRows[i].txn)
  {
    hide Runnable, Initial, Run, Final, DistinctRows, NoRepeats, Closed, Stable;
    var P := (e: Engine) => IdsUnique(e);
    IdsStable();
    InitialIds();
    RunStays(P, cfg, Initial(), events);
    FinalStays(P, cfg, Run(cfg, Initial(), events).value, ts);
  }

  // ----- what is written -------------------------------------------------------------------------------

  // Whatever the stacks are like: every TXN with a row, or with accesses, has an access row, and all
  // accesses but those discarded are written or waiting.
  ghost predicate Recorded(w: World) {
    && TxnsBacked(w.conv.engine, w.conv.rows)
    && Complete(Accesses(w.conv), w.seen, w.dropped) && w.conv.nextAccessId == |w.seen| + 1
  }

  lemma {:induction false} LocksKeepBacking(e: Engine, e': Engine, rows: seq<AccessRow>)
    requires TxnsBacked(e, rows) && SameButLocks(e, e')
    ensures TxnsBacked(e', rows)
  {
    hide HasRow;
    assert forall txn, c, k :: ActiveAt(e', txn, c, k) <==> ActiveAt(e, txn, c, k);
    assert forall txn :: Closed(e', txn) <==> Closed(e, txn);
  }

  lemma {:induction false} BackingIsStable(rows: seq<AccessRow>)
    ensures OpStable((e: Engine) => TxnsBacked(e, rows))
  {
    hide TxnsBacked, SameButLocks, IdsInjective, WellKinded, KeptOf, RenewedOver, TornTxnRows, TornHeldRows;
    forall e, e' | TxnsBacked(e, rows) && OpStep(e, e') ensures TxnsBacked(e', rows) {
      if Renewal(e, e') {
        var c, kept, keep, ts, ctxOld :| RenewsAt(e, e', c, kept, keep, ts, ctxOld);
        RenewKeepsBacking(e, e', c, kept, keep, ts, ctxOld, rows);
      } else {
        LocksKeepBacking(e, e', rows);
      }
    }
  }

  lemma {:induction false} FlushRecords(cfg: Config, e: Engine, rows: seq<AccessRow>, buffer: seq<MemAccess>)
    requires TxnsBacked(e, rows)
    ensures var (e', rows') := FlushBuffer(cfg, e, rows, buffer);
      TxnsBacked(e', rows') && RowAccesses(rows') == RowAccesses(rows) + buffer
    decreases |buffer|
  {
    hide TxnsBacked, CountAccess, ActiveTxn;
    if buffer != [] {
      var a, ctx := buffer[0], cfg.Ctx(buffer[0].ctx);
      var rows1 := rows + [AccessRow(a, ActiveTxn(e, ctx))];
      NewRowBacks(e, ctx, a, rows);
      FlushRecords(cfg, CountAccess(e, ctx), rows1, buffer[1..]);
      assert RowAccesses(rows1) + buffer[1..] == RowAccesses(rows) + buffer;
    }
  }

  lemma {:induction false} FlushedRecords(cfg: Config, w: World, actionPV: bool, address: nat)
    requires Recorded(w) && address in {0, DEFAULT_ADDRESS}
    ensures Recorded(Flushed(cfg, w, actionPV, address)) && Flushed(cfg, w, actionPV, address).conv.buffer == []
  {
    hide TxnsBacked, Complete, FlushBuffer;
    var c, w' := w.conv, Flushed(cfg, w, actionPV, address);
    var n := Dropped(c.buffer, actionPV, address);
    FlushRecords(cfg, c.engine, c.rows, c.buffer[..|c.buffer| - n]);
    var p := Accesses(c);
    assert Accesses(w'.conv) == p[..|p| - n];
    assert DroppedIds(p, n) == DroppedIds(c.buffer, n) by { DroppedTail(RowAccesses(c.rows), c.buffer, n); }
    DropKeepsComplete(p, n, w.seen, w.dropped);
  }

  lemma {:induction false} AfterRecords(cfg: Config, w: World, ev: Event)
    requires Recorded(w) && Typed(w.conv.engine) && Addressed(w.conv.engine) && After(cfg, w.conv, ev).Done?
    requires ev.AccessEvent? || w.conv.buffer == []
    ensures Recorded(World(After(cfg, w.conv, ev).value, NextHeld(cfg, w, ev), NextSeen(cfg, w, ev), w.dropped))
  {
    hide TxnsBacked, Complete, OpStable, OpStableAt, Typed, Transition, EngineFor, NextHeld, ActiveTxn, DeleteLocks;
    var c := w.conv;
    var c' := After(cfg, c, ev).value;
    BackingIsStable(c.rows);
    var ts, ctx := if ev.LockEvent? then ev.ts else 0, if ev.LockEvent? then cfg.Ctx(ev.ctx) else 0;
    OpStableIsAt((e: Engine) => TxnsBacked(e, c.rows), ts, ctx);
    AfterStays((e: Engine) => TxnsBacked(e, c.rows), cfg, c, ev, ts, ctx);
    if ev.AccessEvent? && ev.base in c.allocs {
      var s := NextSeen(cfg, w, ev)[|w.seen|];
      MoreComplete(Accesses(c), w.seen, w.dropped, s);
      assert Accesses(c') == Accesses(c) + [s.access];
    }
  }

  lemma {:induction false} StepRecords(cfg: Config, w: World, ev: Event)
    requires Runnable(w) && Recorded(w) && Step(cfg, w, ev).Done?
    ensures Recorded(Step(cfg, w, ev).value)
  {
    hide Typed, Recorded, After, Flushed, NextHeld, NextSeen;
    PreparedRunnable(cfg, w, ev);
    FlushedRecords(cfg, w, FlushArgs(ev).0, FlushArgs(ev).1);
    AfterRecords(cfg, Prepared(cfg, w, ev), ev);
  }

  lemma {:induction false} RunRecords(cfg: Config, w: World, events: seq<Event>)
    requires Runnable(w) && Recorded(w) && Run(cfg, w, events).Done?
    ensures Recorded(Run(cfg, w, events).value)
    decreases |events|
  {
    hide Runnable, Recorded, Step;
    if events != [] {
      StepRecords(cfg, w, events[0]);
      RunRecords(cfg, Step(cfg, w, events[0]).value, events[1..]);
    }
  }

  lemma {:induction false} FinalRecords(cfg: Config, w: World, ts: nat)
    requires Runnable(w) && Recorded(w)
    ensures Recorded(Final(cfg, w, ts)) && Final(cfg, w, ts).conv.buffer == []
  {
    hide Typed, Complete, TxnsBacked, OpStable, OpStableAt, CloseCtxs, Flushed;
    FlushedRecords(cfg, w, true, 0);
    FlushedTyped(cfg, w);
    var f := Flushed(cfg, w, true, 0);
    BackingIsStable(f.conv.rows);
    OpStableIsAt((e: Engine) => TxnsBacked(e, f.conv.rows), ts, 0);
    CloseCtxsStays((e: Engine) => TxnsBacked(e, f.conv.rows), f.conv.engine, f.conv.engine.stacks.Keys, ts, 0);
  }

  lemma {:induction false} InitialRecorded()
    ensures Recorded(Initial())
  {
    assert forall txn, c, k :: !ActiveAt(Initial().conv.engine, txn, c, k);
  }

  // Whatever the events: every TXN row has an access, and every access recorded is written exactly once,
  // in order, unless a discard took it.
  lemma {:induction false} EveryAccessIsWritten(cfg: Config, events: seq<Event>, ts: nat)
    requires Runnable(Initial()) && Run(cfg, Initial(), events).Done?
    ensures var f := Final(cfg, Run(cfg, Initial(), events).value, ts);
      && (forall i :: 0 <= i < |f.conv.engine.txnRows| ==> HasRow(f.conv.rows, f.conv.engine.txnRows[i].id))
      && Complete(RowAccesses(f.conv.rows), f.seen, f.dropped)
  {
    hide Runnable, Initial, Run, Final, Complete, HasRow;
    InitialRecorded();
    RunRecords(cfg, Initial(), events);
    FinalRecords(cfg, Run(cfg, Initial(), events).value, ts);
    var f := Final(cfg, Run(cfg, Initial(), events).value, ts);
    assert Accesses(f.conv) == RowAccesses(f.conv.rows);
    forall i | 0 <= i < |f.conv.engine.txnRows| ensures HasRow(f.conv.rows, f.conv.engine.txnRows[i].id) {
      assert Closed(f.conv.engine, f.conv.engine.txnRows[i].id);
    }
  }
}
