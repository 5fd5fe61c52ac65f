// What a writer's flush loses is lost for the whole run: in one context without recursive locks the rows
// are right exactly when every flush is faithful.

module TraceLoss {
  import opened TxnEngine
  import opened Wrappers
  import opened TxnAccounting
  import opened TxnAttribution
  import opened TxnConflict
  import opened TxnReference
  import opened TraceRun
  import opened TraceTheorems
  import opened TraceSteps

  // The rows of the TXN never name sub-lock x, whose id is given: it is not among those written, and the
  // TXN does not lie over it.
  ghost predicate Doomed(e: Engine, txn: nat, x: Sub, id: int) {
    && IdsUnique(e) && IdsInjective(e)
    && x.lock < |e.locks| && e.locks[x.lock].Permits(x.subLock) && e.locks[x.lock].GetId(x.subLock) == id
    && txn < e.nextTxnId
    && (Closed(e, txn) ==> id !in HeldIds(e.heldRows, txn))
    && (forall c, k :: ActiveAt(e, txn, c, k) ==> x !in Proj(e.Stack(c)[..k + 1]))
  }

  // ----- small steps ---------------------------------------------------------------------------------

  lemma {:induction false} HeldRowsWithin(locks: seq<LockState>, s: seq<Txn>, txn: nat, seen: set<int>)
    requires WellKinded(locks, Proj(s))
    ensures HeldIds(HeldRowsOf(locks, s, txn, seen), txn) <= IdsOf(locks, Proj(s))
    decreases |s|
  {
    hide WellKinded, HeldIds, IdsOf;
    if s == [] {
      NoRowsNoIds([], txn);
    } else {
      KindedTail(locks, s);
      IdsOfCons(locks, Proj(s));
      FirstKinded(locks, s);
      var lock := locks[s[0].lock];
      var lockId := lock.GetId(s[0].subLock);
      HeldRowsWithin(locks, s[1..], txn, seen);
      HeldRowsWithin(locks, s[1..], txn, seen + {lockId});
      if lock.IsHeld() && lock.lastNPos != [] && lockId !in seen {
        OneHeldRow(HeldRow(txn, lockId, lock.lastNPos[|lock.lastNPos| - 1].start),
                   HeldRowsOf(locks, s[1..], txn, seen + {lockId}), txn);
      }
    }
  }

  lemma {:induction false} FirstKinded(locks: seq<LockState>, s: seq<Txn>)
    requires s != [] && WellKinded(locks, Proj(s))
    ensures s[0].lock < |locks| && locks[s[0].lock].Permits(s[0].subLock)
  {
    assert Proj(s)[0] == SubOf(s[0]);
  }

  // A torn-down TXN gets at most the ids of the entries up to its own.
  lemma {:induction false} TornIdsWithin(locks: seq<LockState>, s: seq<Txn>, k: nat, i: nat)
    requires k <= i < |s| && WellKinded(locks, Proj(s)) && DistinctIds(s)
    ensures WellKinded(locks, Proj(s[..i + 1]))
    ensures HeldIds(TornHeldRows(locks, s, k), s[i].id) <= IdsOf(locks, Proj(s[..i + 1]))
  {
    hide WellKinded, HeldRowsOf, ClosingHeldRows, HeldIds, IdsOf;
    var init, txn := s[..|s| - 1], s[i].id;
    KindedInit(locks, s);
    ClosingHeldRowsKeys(locks, s);
    HeldIdsConcat(ClosingHeldRows(locks, s), TornHeldRows(locks, init, k), txn);
    if i == |s| - 1 {
      assert s[..i + 1] == s;
      forall r | r in TornHeldRows(locks, init, k) ensures r.txn != txn {
        TornHeldRowsAre(locks, init, k, r);
      }
      NoRowsNoIds(TornHeldRows(locks, init, k), txn);
      ClosingWithin(locks, s);
    } else {
      assert init[..i + 1] == s[..i + 1];
      TornIdsWithin(locks, init, k, i);
      NoRowsNoIds(ClosingHeldRows(locks, s), txn);
    }
  }

  lemma {:induction false} ClosingWithin(locks: seq<LockState>, s: seq<Txn>)
    requires s != [] && WellKinded(locks, Proj(s))
    ensures HeldIds(ClosingHeldRows(locks, s), s[|s| - 1].id) <= IdsOf(locks, Proj(s))
  {
    hide HeldIds, IdsOf, HeldRowsOf, WellKinded;
    HeldRowsWithin(locks, s, s[|s| - 1].id, {});
    NoRowsNoIds([], s[|s| - 1].id);
  }

  lemma {:induction false} RenewedStaysAway(e: Engine, e': Engine, c: int, kept: seq<Txn>, keep: nat, ts: nat, txn: nat,
      x: Sub, d: int, k: int)
    requires RenewedOver(e, e', c, kept, ts) && KeptOf(e.Stack(c), keep, kept) && txn < e.nextTxnId
    requires forall c, k :: ActiveAt(e, txn, c, k) ==> x !in Proj(e.Stack(c)[..k + 1])
    requires ActiveAt(e', txn, d, k)
    ensures x !in Proj(e'.Stack(d)[..k + 1])
  {
    if d != c {
      assert ActiveAt(e, txn, d, k);
    } else {
      var s := e.Stack(c);
      var m: seq<nat> :| Places(m, s[..keep], kept);
      assert e'.Stack(c)[..|kept|][k] == kept[k] == s[m[k]];
      assert ActiveAt(e, txn, c, m[k]);
      var p := Proj(e'.Stack(c)[..k + 1]);
      forall q | 0 <= q < |p|
        ensures p[q] != x
      {
        assert e'.Stack(c)[..|kept|][q] == kept[q] == s[m[q]];
        assert Proj(s[..m[k] + 1])[m[q]] == SubOf(s[m[q]]);
      }
    }
  }

  lemma {:induction false} RenewalKeepsDoomed(e: Engine, e': Engine, c: int, kept: seq<Txn>, keep: nat, ts: nat, ctxOld: int,
      txn: nat, x: Sub, id: int)
    requires Doomed(e, txn, x, id) && RenewsAt(e, e', c, kept, keep, ts, ctxOld)
    ensures Doomed(e', txn, x, id)
  {
    hide IdsUnique, IdsInjective, RenewedOver, KeptOf, Closed, TornTxnRows, TornHeldRows, HeldIds, IdsOf, WellKinded;
    RenewKeepsIds(e, e', c, kept, keep, ts, ctxOld);
    RenewalFrame(e, e', c, kept, keep, ts);
    SameIdsInjective(e, e');
    forall d, k | ActiveAt(e', txn, d, k) ensures x !in Proj(e'.Stack(d)[..k + 1]) {
      RenewedStaysAway(e, e', c, kept, keep, ts, txn, x, d, k);
    }
    ClosedAfter(e, e', c, keep, ts, ctxOld, txn);
    if Closed(e, txn) {
      ClosedIds(e, c, keep, txn);
    } else if Closed(e', txn) {
      var s := e.Stack(c);
      var i :| keep <= i < |s| && s[i].id == txn && s[i].memAccessCounter > 0;
      assert ActiveAt(e, txn, c, i);
      StackIdsDistinct(e, c);
      TornIdsWithin(e.locks, s, keep, i);
      NoRowsYet(e, txn, c, i);
      HeldIdsConcat(e.heldRows, TornHeldRows(e.locks, s, keep), txn);
      IdsNameHeld(e, Proj(s[..i + 1]), x);
    }
  }

  lemma {:induction false} RenewalFrame(e: Engine, e': Engine, c: int, kept: seq<Txn>, keep: nat, ts: nat)
    requires RenewedOver(e, e', c, kept, ts) && KeptOf(e.Stack(c), keep, kept)
    ensures e'.locks == e.locks && e.nextTxnId <= e'.nextTxnId && keep <= |e.Stack(c)|
  {
  }

  lemma {:induction false} LocksKeepDoomed(e: Engine, e': Engine, txn: nat, x: Sub, id: int)
    requires Doomed(e, txn, x, id) && LockStep(e, e')
    ensures Doomed(e', txn, x, id)
  {
    hide IdsUnique, IdsInjective, HeldIds;
    LocksKeepIds(e, e');
    assert Closed(e', txn) <==> Closed(e, txn);
    forall c, k | ActiveAt(e', txn, c, k) ensures x !in Proj(e'.Stack(c)[..k + 1]) {
      assert e'.Stack(c) == e.Stack(c) && ActiveAt(e, txn, c, k);
    }
  }

  lemma {:induction false} CountKeepsDoomed(e: Engine, ctx: int, txn: nat, x: Sub, id: int)
    requires Doomed(e, txn, x, id)
    ensures Doomed(CountAccess(e, ctx), txn, x, id)
  {
    hide IdsUnique, IdsInjective, HeldIds, CountAccess;
    var e' := CountAccess(e, ctx);
    CountKeepsIds(e, ctx);
    CountFrame(e, ctx);
    SameIdsInjective(e, e');
    assert Closed(e', txn) <==> Closed(e, txn);
    forall c, k | ActiveAt(e', txn, c, k) ensures x !in Proj(e'.Stack(c)[..k + 1]) {
      CountedActive(e, ctx, txn, c, k);
    }
  }

  lemma {:induction false} SmallKeepsDoomed(e: Engine, e': Engine, txn: nat, x: Sub, id: int)
    requires Doomed(e, txn, x, id) && SmallStep(e, e')
    ensures Doomed(e', txn, x, id)
  {
    hide Doomed, RenewsAt, LockStep, CountAccess;
    if Renewal(e, e') {
      var c, kept, keep, ts, ctxOld :| RenewsAt(e, e', c, kept, keep, ts, ctxOld);
      RenewalKeepsDoomed(e, e', c, kept, keep, ts, ctxOld, txn, x, id);
    } else if LockStep(e, e') {
      LocksKeepDoomed(e, e', txn, x, id);
    } else {
      var ctx :| e' == CountAccess(e, ctx);
      CountKeepsDoomed(e, ctx, txn, x, id);
    }
  }

  lemma {:induction false} DoomedIsStable(txn: nat, x: Sub, id: int)
    ensures Stable((e: Engine) => Doomed(e, txn, x, id))
  {
    hide Doomed, SmallStep;
    forall e, e' | Doomed(e, txn, x, id) && SmallStep(e, e') ensures Doomed(e', txn, x, id) {
      SmallKeepsDoomed(e, e', txn, x, id);
    }
  }

  // ----- a flush that is not faithful ------------------------------------------------------------------

  lemma {:induction false} FlushDooms(e: Engine, x: Sub, ts: nat, ctx: int, i: nat, j: nat)
    requires IdsUnique(e) && IdsInjective(e) && WellKinded(e.locks, Proj(e.Stack(ctx))) && OnStack(e, ctx, x)
    requires x.subLock.ReaderLock? && i <= j < TopMatch(Proj(e.Stack(ctx)), x) && SubOf(e.Stack(ctx)[i]) == x
    ensures x.lock < |e.locks| && e.locks[x.lock].Permits(x.subLock)
    ensures Doomed(Finish(e, x, ts, true, ctx, ctx), e.Stack(ctx)[j].id, x, e.locks[x.lock].GetId(x.subLock))
  {
    hide Finish, IdsUnique, IdsInjective, OnStack, Closed, HeldIds;
    var s, e' := e.Stack(ctx), Finish(e, x, ts, true, ctx, ctx);
    assert Proj(s)[i] == x;
    FinishKeepsIds(e, x, ts, true, ctx, ctx);
    FinishIdentity(e, x, ts, true, ctx, ctx);
    IdentityKeepsIds(e, e');
    FlushUnwritten(e, x, ts, ctx, j);
    forall d, m | ActiveAt(e', s[j].id, d, m)
      ensures x !in Proj(e'.Stack(d)[..m + 1])
    {
      FlushRaises(e, x, ts, ctx, j, d, m);
    }
  }

  // A P of a writer whose flush finds accesses over a reader entry it erases.
  lemma {:induction false} AcquireDooms(e: Engine, l: nat, ts: nat, ctx: int, i: nat, j: nat)
    requires IdsUnique(e) && IdsInjective(e) && Typed(e) && l < |e.locks| && e.locks[l].readers > 0
    requires OnStack(e, ctx, Sub(l, ReaderLock)) && Acquire(e, Sub(l, WriterLock), ts, ctx).Done?
    requires i <= j < TopMatch(Proj(e.Stack(ctx)), Sub(l, ReaderLock)) && SubOf(e.Stack(ctx)[i]) == Sub(l, ReaderLock)
    ensures e.locks[l].Permits(ReaderLock)
    ensures var e' := Acquire(e, Sub(l, WriterLock), ts, ctx).value;
      Doomed(e', e.Stack(ctx)[j].id, Sub(l, ReaderLock), e.locks[l].GetId(ReaderLock))
  {
    hide Doomed, IdsUnique, IdsInjective, Typed, WellKinded, OnStack, Finish, OpStepAt, TopMatch, Start, Stable, OpStableAt;
    var x, txn := Sub(l, ReaderLock), e.Stack(ctx)[j].id;
    TypedStack(e, ctx);
    FlushDooms(e, x, ts, ctx, i, j);
    var id := e.locks[l].GetId(ReaderLock);
    var P := (e: Engine) => Doomed(e, txn, x, id);
    DoomedIsStable(txn, x, id);
    StableIsOpStable(P, ts, ctx);
    var e1 := Finish(e, x, ts, true, ctx, ctx);
    FinishIdentity(e, x, ts, true, ctx, ctx);
    TxnAccounting.FlushTyped(e, x, ts, ctx);
    SetLockIsSmall(e1, l, e1.locks[l].(readers := 0, lastNPos := []), ts, ctx);
    SetLockTyped(e1, l, e1.locks[l].(readers := 0, lastNPos := []));
    var e2 := SetLock(e1, l, e1.locks[l].(readers := 0, lastNPos := []));
    Stays(P, ts, ctx, e1, e2);
    assert BeforeAcquire(e, Sub(l, WriterLock), ts, ctx) == Done(e2);
    AfterAcquireStays(P, e2, Sub(l, WriterLock), ts, ctx);
  }

  // ----- events ------------------------------------------------------------------------------------------

  // Row r links its access to a TXN that never gets the row of a sub-lock held when it happened.
  ghost predicate LossAt(w: World, r: nat, txn: nat, x: Sub, id: int) {
    && r < |w.conv.rows| && 1 <= w.conv.rows[r].access.id <= |w.seen|
    && w.conv.rows[r].txn == Some(txn) && x in w.seen[w.conv.rows[r].access.id - 1].held
    && Doomed(w.conv.engine, txn, x, id)
  }

  ghost predicate Lossy(w: World) {
    exists r, txn, x, id :: LossAt(w, r, txn, x, id)
  }

  // A TXN with accesses has a row, and that knows what is beneath.
  lemma {:induction false} RowOfTxn(e: Engine, rows: seq<AccessRow>, seen: seq<Seen>, ctx: int, j: nat) returns (r: nat)
    requires Attributed(e, rows, seen) && j < |e.Stack(ctx)| && e.Stack(ctx)[j].memAccessCounter > 0
    ensures r < |rows| && rows[r].txn == Some(e.Stack(ctx)[j].id) && 1 <= rows[r].access.id <= |seen|
    ensures seen[rows[r].access.id - 1].held == Proj(e.Stack(ctx)[..j + 1])
  {
    hide IdsUnique, Closed, HeldIds;
    var txn := e.Stack(ctx)[j].id;
    assert ActiveAt(e, txn, ctx, j);
    assert HasRow(rows, txn);
    r :| r < |rows| && rows[r].txn.Some? && rows[r].txn.value == txn;
    assert RowOk(e, rows[r], seen[rows[r].access.id - 1].held);
  }

  // Where a TXN with accesses lies over an entry that the flush erases.
  ghost predicate Beneath(s: seq<Txn>, x: Sub, i: nat, j: nat) {
    i <= j < TopMatch(Proj(s), x) && SubOf(s[i]) == x && s[j].memAccessCounter > 0
  }

  lemma {:induction false} SomethingBeneath(e: Engine, l: nat, op: LockOp, ctx: int) returns (i: nat, j: nat)
    requires l < |e.locks| && !FlushOk(e, l, op, ctx)
    ensures op.PWrite? && e.locks[l].readers > 0 && Beneath(e.Stack(ctx), Sub(l, ReaderLock), i, j)
  {
    hide TopMatch, Proj;
    var x, s := Sub(l, ReaderLock), e.Stack(ctx);
    i, j :| 0 <= i <= j < TopMatch(Proj(s), x) && SubOf(s[i]) == x && s[j].memAccessCounter != 0;
  }

  lemma {:induction false} LockEventDooms(cfg: Config, w: World, ev: Event)
    requires Inv(cfg, w) && Typed(w.conv.engine) && Addressed(w.conv.engine)
    requires ev.LockEvent? && !EventFaithful(cfg, w.conv, ev) && After(cfg, w.conv, ev).Done?
    ensures Lossy(World(After(cfg, w.conv, ev).value, NextHeld(cfg, w, ev), NextSeen(cfg, w, ev), w.dropped))
  {
    hide Inv, Typed, Transition, NextHeld, Doomed, EngineFor, Follows, FlushOk, Beneath, IdsInjective, OneSided, WrongSide, SubOf;
    var c, ctx := w.conv, cfg.Ctx(ev.ctx);
    var e, l := EngineFor(cfg, c, ev), LockFor(cfg, c, ev).value;
    TargetFollows(cfg, w, ev);
    var i, j := SomethingBeneath(e, l, ev.op, ctx);
    AllocTyped(cfg, c, ev);
    var r, txn := RowBeneath(e, w.held, c.rows, w.seen, Sub(l, ReaderLock), ctx, i, j);
    TransitionDooms(e, l, ev.recursive, ev.ts, ctx, i, j);
    var w' := World(After(cfg, c, ev).value, NextHeld(cfg, w, ev), NextSeen(cfg, w, ev), w.dropped);
    assert LossAt(w', r, txn, Sub(l, ReaderLock), e.locks[l].GetId(ReaderLock));
  }

  lemma {:induction false} RowBeneath(e: Engine, h: Held, rows: seq<AccessRow>, seen: seq<Seen>, x: Sub, ctx: int, i: nat,
      j: nat) returns (r: nat, txn: nat)
    requires Follows(e, h, rows, seen) && Beneath(e.Stack(ctx), x, i, j)
    ensures j < |e.Stack(ctx)| && txn == e.Stack(ctx)[j].id && IdsUnique(e)
    ensures r < |rows| && rows[r].txn == Some(txn) && 1 <= rows[r].access.id <= |seen|
    ensures x in seen[rows[r].access.id - 1].held
  {
    hide IdsUnique, Accounted, Matches, TxnsBacked, RowsOk;
    txn := e.Stack(ctx)[j].id;
    r := RowOfTxn(e, rows, seen, ctx, j);
    assert Proj(e.Stack(ctx)[..j + 1])[i] == x;
  }

  lemma {:induction false} TransitionDooms(e: Engine, l: nat, recursive: bool, ts: nat, ctx: int, i: nat, j: nat)
    requires IdsUnique(e) && IdsInjective(e) && Typed(e) && l < |e.locks| && e.locks[l].readers > 0
    requires Beneath(e.Stack(ctx), Sub(l, ReaderLock), i, j) && Transition(e, l, PWrite, recursive, ts, ctx).Done?
    ensures j < |e.Stack(ctx)| && e.locks[l].Permits(ReaderLock)
    ensures var e' := Transition(e, l, PWrite, recursive, ts, ctx).value;
      Doomed(e', e.Stack(ctx)[j].id, Sub(l, ReaderLock), e.locks[l].GetId(ReaderLock))
  {
    hide Doomed, IdsUnique, IdsInjective, Typed, Acquire, WellKinded, SameButLocks;
    var e0 := SetFlags(e, l, recursive);
    KindsKeepTyped(e, e0);
    TypedStack(e0, ctx);
    assert SameButLocks(e, e0) by { FlagsAreSame(e, l, recursive); }
    LocksKeepIds(e, e0);
    IdentityKeepsIds(e, e0);
    AcquireDooms(e0, l, ts, ctx, i, j);
  }

  lemma {:induction false} FlagsAreSame(e: Engine, l: nat, recursive: bool)
    requires l < |e.locks|
    ensures SameButLocks(e, SetFlags(e, l, recursive))
  {
  }

  // ----- runs --------------------------------------------------------------------------------------------

  // Rows and notes are only added.
  predicate Grows(w: World, w': World) {
    w.conv.rows <= w'.conv.rows && w.seen <= w'.seen
  }

  lemma {:induction false} FlushGrows(cfg: Config, e: Engine, rows: seq<AccessRow>, buffer: seq<MemAccess>)
    ensures rows <= FlushBuffer(cfg, e, rows, buffer).1
    decreases |buffer|
  {
    hide CountAccess, ActiveTxn;
    if buffer != [] {
      var ctx := cfg.Ctx(buffer[0].ctx);
      FlushGrows(cfg, CountAccess(e, ctx), rows + [AccessRow(buffer[0], ActiveTxn(e, ctx))], buffer[1..]);
    }
  }

  lemma {:induction false} FlushedGrows(cfg: Config, w: World, actionPV: bool, address: nat)
    ensures Grows(w, Flushed(cfg, w, actionPV, address))
  {
    hide FlushBuffer;
    var c := w.conv;
    FlushGrows(cfg, c.engine, c.rows, c.buffer[..|c.buffer| - Dropped(c.buffer, actionPV, address)]);
  }

  lemma {:induction false} StepGrows(cfg: Config, w: World, ev: Event)
    requires Runnable(w) && Step(cfg, w, ev).Done?
    ensures Grows(w, Step(cfg, w, ev).value)
  {
    hide Typed, Transition, Flushed, NextHeld;
    PreparedRunnable(cfg, w, ev);
    FlushedGrows(cfg, w, FlushArgs(ev).0, FlushArgs(ev).1);
  }

  lemma {:induction false} LossStays(w: World, w': World, r: nat, txn: nat, x: Sub, id: int)
    requires LossAt(w, r, txn, x, id) && Grows(w, w') && Doomed(w'.conv.engine, txn, x, id)
    ensures LossAt(w', r, txn, x, id)
  {
    hide Doomed;
  }

  lemma {:induction false} RunKeepsLoss(cfg: Config, w: World, events: seq<Event>)
    requires Runnable(w) && Lossy(w) && Run(cfg, w, events).Done?
    ensures Lossy(Run(cfg, w, events).value)
    decreases |events|
  {
    hide Runnable, Step, LossAt, Doomed, Stable;
    if events != [] {
      var r, txn, x, id :| LossAt(w, r, txn, x, id);
      var w' := Step(cfg, w, events[0]).value;
      DoomedIsStable(txn, x, id);
      assert Doomed(w.conv.engine, txn, x, id) by { LossIsDoom(w, r, txn, x, id); }
      StepStays((e: Engine) => Doomed(e, txn, x, id), cfg, w, events[0]);
      StepGrows(cfg, w, events[0]);
      LossStays(w, w', r, txn, x, id);
      RunKeepsLoss(cfg, w', events[1..]);
    }
  }

  lemma {:induction false} LossIsDoom(w: World, r: nat, txn: nat, x: Sub, id: int)
    requires LossAt(w, r, txn, x, id)
    ensures Doomed(w.conv.engine, txn, x, id)
  {
  }

  lemma {:induction false} FinalKeepsLoss(cfg: Config, w: World, ts: nat)
    requires Runnable(w) && Lossy(w)
    ensures Lossy(Final(cfg, w, ts))
  {
    hide Typed, LossAt, Doomed, Stable, Flushed, CloseAll;
    var r, txn, x, id :| LossAt(w, r, txn, x, id);
    DoomedIsStable(txn, x, id);
    LossIsDoom(w, r, txn, x, id);
    FinalStays((e: Engine) => Doomed(e, txn, x, id), cfg, w, ts);
    FlushedGrows(cfg, w, true, 0);
    LossStays(w, Final(cfg, w, ts), r, txn, x, id);
  }

  lemma {:induction false} LossIsNotLinked(w: World, r: nat, txn: nat, x: Sub, id: int)
    requires LossAt(w, r, txn, x, id)
    ensures !AllLinked(w)
  {
    hide IdsUnique, IdsInjective;
    assert !LinkedExactly(w.conv.engine, w.conv.rows[r], w.seen[w.conv.rows[r].access.id - 1]);
  }

  lemma {:induction false} LossyIsNotLinked(w: World)
    requires Lossy(w)
    ensures !AllLinked(w)
  {
    hide LossAt, AllLinked;
    var r: nat, txn: nat, x: Sub, id: int :| LossAt(w, r, txn, x, id);
    LossIsNotLinked(w, r, txn, x, id);
  }

  // The first flush that is not faithful spoils the run.
  lemma {:induction false} RunLoses(cfg: Config, w: World, events: seq<Event>, ctx: int)
    requires Inv(cfg, w) && Runnable(w) && InStep(w.conv.engine, ctx) && OneContext(cfg, ctx, events)
    requires Run(cfg, w, events).Done? && !Faithfully(cfg, w, events)
    ensures Lossy(Run(cfg, w, events).value)
    decreases |events|
  {
    hide Inv, InStep, Step, Prepared, Runnable, EventFaithful, Lossy;
    var w' := Step(cfg, w, events[0]).value;
    if EventFaithful(cfg, Prepared(cfg, w, events[0]).conv, events[0]) {
      StepKeepsSingle(cfg, w, events[0], ctx);
      StepInStep(cfg, w, events[0], ctx);
      assert forall i :: 0 <= i < |events[1..]| ==> events[1..][i] == events[i + 1];
      RunLoses(cfg, w', events[1..], ctx);
    } else {
      StepLoses(cfg, w, events[0]);
      RunKeepsLoss(cfg, w', events[1..]);
    }
  }

  lemma {:induction false} StepLoses(cfg: Config, w: World, ev: Event)
    requires Inv(cfg, w) && Runnable(w) && Step(cfg, w, ev).Done?
    requires !EventFaithful(cfg, Prepared(cfg, w, ev).conv, ev)
    ensures Lossy(Step(cfg, w, ev).value)
  {
    hide Inv, Typed, Flushed, After, NextHeld, NextSeen, Lossy, FlushOk;
    PreparedRunnable(cfg, w, ev);
    FlushedKeeps(cfg, w, FlushArgs(ev).0, FlushArgs(ev).1);
    LockEventDooms(cfg, Prepared(cfg, w, ev), ev);
  }

  // In one context without recursive locks, malformed orders and side conflicts included: every access is
  // linked to exactly the sub-locks held when it happened if and only if no writer's flush finds accesses
  // over a reader entry it erases.
  lemma {:induction false} OneContextIsLinkedIff(cfg: Config, events: seq<Event>, ts: nat, ctx: int)
    requires Runnable(Initial()) && OneContext(cfg, ctx, events) && Run(cfg, Initial(), events).Done?
    ensures AllLinked(Final(cfg, Run(cfg, Initial(), events).value, ts)) <==> Faithfully(cfg, Initial(), events)
  {
    hide Inv, Final, AllLinked, Run, Faithfully, Runnable, OneContext, InStep, OneSided, Lossy;
    if Faithfully(cfg, Initial(), events) {
      OneContextIsLinked(cfg, events, ts, ctx);
    } else {
      InitialOk(cfg);
      InitialInStep(ctx);
      RunLoses(cfg, Initial(), events, ctx);
      FinalKeepsLoss(cfg, Run(cfg, Initial(), events).value, ts);
      LossyIsNotLinked(Final(cfg, Run(cfg, Initial(), events).value, ts));
    }
  }

  // ----- a TXN without a row -------------------------------------------------------------------------------

  // The TXN was started, has no row and never gets one.
  ghost predicate Vanished(e: Engine, txn: nat) {
    IdsUnique(e) && txn < e.nextTxnId && !Closed(e, txn) && forall c, k :: !ActiveAt(e, txn, c, k)
  }

  // A reader entry below the match vanishes in a flush.
  lemma {:induction false} FlushErases(e: Engine, x: Sub, ts: nat, ctx: int, j: nat)
    requires IdsUnique(e) && WellKinded(e.locks, Proj(e.Stack(ctx))) && OnStack(e, ctx, x) && x.subLock.ReaderLock?
    requires j < TopMatch(Proj(e.Stack(ctx)), x) && SubOf(e.Stack(ctx)[j]) == x
    ensures Vanished(Finish(e, x, ts, true, ctx, ctx), e.Stack(ctx)[j].id)
  {
    hide Finish, WellKinded, OnStack, Kept, TornTxnRows, TornHeldRows, FinishedStack, IdsUnique, Closed, TopMatch, Written;
    var s, txn, e' := e.Stack(ctx), e.Stack(ctx)[j].id, Finish(e, x, ts, true, ctx, ctx);
    FinishKeepsIds(e, x, ts, true, ctx, ctx);
    FlushUnwritten(e, x, ts, ctx, j);
    FinishRenews(e, x, ts, true, ctx, ctx);
    StackIdsDistinct(e, ctx);
    OthersAreKept(s, x, j);
    SamePlace(e, ctx, j, txn);
    forall d, m
      ensures !ActiveAt(e', txn, d, m)
    {
      assert d != ctx ==> !ActiveAt(e, txn, d, m);
      assert 0 <= m < |Kept(s, x, true)| ==> e'.Stack(ctx)[..|Kept(s, x, true)|][m] == Kept(s, x, true)[m];
    }
  }

  lemma {:induction false} OthersAreKept(s: seq<Txn>, x: Sub, j: nat)
    requires DistinctIds(s) && x.subLock.ReaderLock? && j < TopMatch(Proj(s), x) && SubOf(s[j]) == x
    ensures forall q :: 0 <= q < |Kept(s, x, true)| ==> Kept(s, x, true)[q].id != s[j].id
  {
    hide WithoutReaders, TopMatch, Proj, Places, DistinctIds, SubOf;
    var k := TopMatch(Proj(s), x);
    WithoutReadersNone(s[..k], x.lock);
    KeptIsKept(s, x, true);
    var m: seq<nat> :| Places(m, s[..k], Kept(s, x, true));
    OthersAt(m, s, k, Kept(s, x, true), x, j);
  }

  lemma {:induction false} OthersAt(m: seq<nat>, s: seq<Txn>, k: nat, kept: seq<Txn>, x: Sub, j: nat)
    requires DistinctIds(s) && j < k <= |s| && SubOf(s[j]) == x && Places(m, s[..k], kept) && x !in Proj(kept)
    ensures forall q :: 0 <= q < |kept| ==> kept[q].id != s[j].id
  {
    forall q | 0 <= q < |kept|
      ensures kept[q].id != s[j].id
    {
      assert Proj(kept)[q] != x;
      assert kept[q] == s[m[q]] && m[q] != j;
    }
  }

  lemma {:induction false} SamePlace(e: Engine, ctx: int, j: nat, txn: nat)
    requires IdsUnique(e) && ActiveAt(e, txn, ctx, j)
    ensures txn < e.nextTxnId && forall d, k :: ActiveAt(e, txn, d, k) ==> d == ctx && k == j
  {
  }

  lemma {:induction false} SmallKeepsVanished(e: Engine, e': Engine, txn: nat)
    requires Vanished(e, txn) && SmallStep(e, e')
    ensures Vanished(e', txn)
  {
    hide IdsUnique, Closed, IdsInjective, WellKinded, KeptOf, RenewedOver, CountAccess, TornTxnRows, TornHeldRows;
    SmallKeepsIds(e, e');
    if Renewal(e, e') {
      var c, kept, keep, ts, ctxOld :| RenewsAt(e, e', c, kept, keep, ts, ctxOld);
      RenewalFrame(e, e', c, kept, keep, ts);
      ClosedAfter(e, e', c, keep, ts, ctxOld, txn);
      forall i | 0 <= i < |e.Stack(c)| ensures e.Stack(c)[i].id != txn { assert !ActiveAt(e, txn, c, i); }
      forall d, k ensures !ActiveAt(e', txn, d, k) {
        if ActiveAt(e', txn, d, k) {
          ActiveAfter(e, e', c, kept, keep, ts, txn, d, k);
        }
      }
    } else if LockStep(e, e') {
      LocksKeepVanished(e, e', txn);
    } else {
      var ctx :| e' == CountAccess(e, ctx);
      CountKeepsVanished(e, ctx, txn);
    }
  }

  lemma {:induction false} LocksKeepVanished(e: Engine, e': Engine, txn: nat)
    requires Vanished(e, txn) && SameButLocks(e, e') && IdsUnique(e')
    ensures Vanished(e', txn)
  {
    hide IdsUnique;
    forall c, k ensures !ActiveAt(e', txn, c, k) { assert !ActiveAt(e, txn, c, k); }
  }

  lemma {:induction false} CountKeepsVanished(e: Engine, ctx: int, txn: nat)
    requires Vanished(e, txn) && IdsUnique(CountAccess(e, ctx))
    ensures Vanished(CountAccess(e, ctx), txn)
  {
    hide IdsUnique, CountAccess;
    CountFrame(e, ctx);
    forall c, k ensures !ActiveAt(CountAccess(e, ctx), txn, c, k) { CountedActive(e, ctx, txn, c, k); }
  }

  lemma {:induction false} VanishedIsStable(txn: nat)
    ensures Stable((e: Engine) => Vanished(e, txn))
  {
    hide Vanished, SmallStep;
    forall e, e' | Vanished(e, txn) && SmallStep(e, e') ensures Vanished(e', txn) {
      SmallKeepsVanished(e, e', txn);
    }
  }

  // ----- a run that loses a TXN ----------------------------------------------------------------------------

  // Two nested read locks with an access in between, then a P on the write side.
  function LosingEvents(): seq<Event> {
    [AllocEvent(0x1000, 0x100, true),
     LockEvent(1, 0x10, PRead, Some(ReadWrite), false, true, 0),
     AccessEvent(2, false, 0x1000, 8, 0x1000, 0),
     LockEvent(3, 0x10, PRead, Some(ReadWrite), false, true, 0),
     LockEvent(4, 0x10, PWrite, Some(ReadWrite), false, true, 0)]
  }

  function Reading(readers: nat, lastNPos: seq<LockPos>): LockState {
    LockState(ReadWrite, 1, 2, 0x10, false, readers, 0, lastNPos)
  }

  const OUTER := Txn(1, 1, 0, 0, 0, ReaderLock)
  const INNER := Txn(2, 3, 0, 0, 0, ReaderLock)
  const THE_ACCESS := MemAccess(1, 2, 1, false, 8, 0x1000, 0)

  function Allocated(): Conv {
    Initial().conv.(allocs := map[0x1000 := Alloc(1, 0x100)], nextAllocId := 2)
  }

  function OnceRead(): Conv {
    Allocated().(engine := Engine([Reading(1, [LockPos(ReaderLock, 1)])], map[0x10 := 0], map[0 := [OUTER]], 2, 3, [], []))
  }

  function Accessed(): Conv {
    OnceRead().(buffer := [THE_ACCESS], nextAccessId := 2)
  }

  // After the access is written.
  function OnceWritten(): Conv {
    Accessed().(engine := OnceRead().engine.(stacks := map[0 := [OUTER.(memAccessCounter := 1)]]),
                rows := [AccessRow(THE_ACCESS, Some(1))], buffer := [])
  }

  function TwiceRead(): Conv {
    OnceRead().(engine := Engine([Reading(2, [LockPos(ReaderLock, 1), LockPos(ReaderLock, 3)])], map[0x10 := 0],
                                 map[0 := [OUTER.(memAccessCounter := 1), INNER]], 3, 3, [], []),
                nextAccessId := 2, rows := [AccessRow(THE_ACCESS, Some(1))])
  }

  // A P on the read side that finds no writer.
  lemma {:induction false} ReadStep(e: Engine, l: nat, ts: nat, ctx: int)
    requires l < |e.locks| && e.locks[l].kind.ReadWrite? && e.locks[l].writers == 0 && !e.locks[l].recursive && Typed(e)
    ensures var lock := e.locks[l];
      Transition(e, l, PRead, false, ts, ctx) == Done(e.(
        locks := e.locks[l := lock.(readers := lock.readers + 1, lastNPos := lock.lastNPos + [LockPos(ReaderLock, ts)])],
        stacks := e.stacks[ctx := e.Stack(ctx) + [Txn(e.nextTxnId, ts, ctx, 0, l, ReaderLock)]],
        nextTxnId := e.nextTxnId + 1))
  {
    hide Typed, Finish, FlushSide, Reacquire, Release;
    var x, lock := Sub(l, ReaderLock), e.locks[l];
    TypedStack(e, ctx);
    assert e.locks[l := lock] == e.locks;
    assert SetFlags(e, l, false) == e;
    assert BeforeAcquire(e, x, ts, ctx) == Done(e);
  }

  lemma {:induction false} FirstRead(cfg: Config, c: Conv)
    requires c == Allocated()
    ensures Typed(c.engine) && Addressed(c.engine) ==> HandlePV(cfg, c, LosingEvents()[1]) == Done(OnceRead())
  {
    hide Typed, Transition;
    var ev := LosingEvents()[1];
    var e := EngineFor(cfg, c, ev);
    if Typed(c.engine) {
      AllocTyped(cfg, c, ev);
      assert e.locks == [Reading(0, [])] && e.byAddress == map[0x10 := 0] && e.nextLockId == 3;
      ReadStep(e, 0, 1, 0);
      assert [] + [LockPos(ReaderLock, 1)] == [LockPos(ReaderLock, 1)];
      assert e.locks[0 := Reading(1, [LockPos(ReaderLock, 1)])] == [Reading(1, [LockPos(ReaderLock, 1)])];
      assert e.Stack(0) + [OUTER] == [OUTER];
      assert e.stacks[0 := [OUTER]] == map[0 := [OUTER]];
    }
  }

  lemma {:induction false} SecondRead(cfg: Config, c: Conv)
    requires c == OnceWritten()
    ensures Typed(c.engine) && Addressed(c.engine) ==> HandlePV(cfg, c, LosingEvents()[3]) == Done(TwiceRead())
  {
    hide Typed, Transition;
    var ev, e := LosingEvents()[3], c.engine;
    var outer := OUTER.(memAccessCounter := 1);
    if Typed(e) {
      ReadStep(e, 0, 3, 0);
    }
    assert [LockPos(ReaderLock, 1)] + [LockPos(ReaderLock, 3)] == [LockPos(ReaderLock, 1), LockPos(ReaderLock, 3)];
    assert e.locks[0 := Reading(2, [LockPos(ReaderLock, 1), LockPos(ReaderLock, 3)])]
        == [Reading(2, [LockPos(ReaderLock, 1), LockPos(ReaderLock, 3)])];
    assert e.Stack(0) + [INNER] == [outer, INNER];
    assert e.stacks[0 := [outer, INNER]] == map[0 := [outer, INNER]];
  }

  lemma {:induction false} AccessWritten(cfg: Config)
    ensures WriteMemAccesses(cfg, Accessed(), false, DEFAULT_ADDRESS) == OnceWritten()
  {
    var c := Accessed();
    var e, s := c.engine, [OUTER];
    assert c.buffer[..1] == c.buffer && c.buffer[1..] == [];
    assert e.Stack(0) == s && s[0 := OUTER.(memAccessCounter := 1)] == [OUTER.(memAccessCounter := 1)];
    assert CountAccess(e, 0).stacks == map[0 := [OUTER.(memAccessCounter := 1)]];
    assert CountAccess(e, 0) == OnceWritten().engine;
    assert [] + [AccessRow(THE_ACCESS, Some(1))] == [AccessRow(THE_ACCESS, Some(1))];
    assert FlushBuffer(cfg, OnceWritten().engine, OnceWritten().rows, []) == (OnceWritten().engine, OnceWritten().rows);
  }

  lemma {:induction false} LastWrite(e: Engine)
    requires e == TwiceRead().engine && Typed(e) && IdsUnique(e)
    ensures Transition(e, 0, PWrite, false, 4, 0).Done? && Vanished(Transition(e, 0, PWrite, false, 4, 0).value, 1)
  {
    hide Typed, IdsUnique, Vanished, Stable, OpStableAt, OpStepAt, Finish, Reacquire, Release, Start;
    var x, s := Sub(0, ReaderLock), e.Stack(0);
    assert Proj(s)[0] == Proj(s)[1] == x && TopMatch(Proj(s), x) == 1;
    assert e.locks[0 := e.locks[0]] == e.locks && SetFlags(e, 0, false) == e;
    TypedStack(e, 0);
    FlushErases(e, x, 4, 0, 0);
    var P := (e: Engine) => Vanished(e, 1);
    VanishedIsStable(1);
    StableIsOpStable(P, 4, 0);
    var e1 := Finish(e, x, 4, true, 0, 0);
    FinishIdentity(e, x, 4, true, 0, 0);
    TxnAccounting.FlushTyped(e, x, 4, 0);
    var flushed := e1.locks[0].(readers := 0, lastNPos := []);
    SetLockIsSmall(e1, 0, flushed, 4, 0);
    SetLockTyped(e1, 0, flushed);
    Stays(P, 4, 0, e1, SetLock(e1, 0, flushed));
    assert BeforeAcquire(e, Sub(0, WriterLock), 4, 0) == Done(SetLock(e1, 0, flushed));
    AfterAcquireStays(P, SetLock(e1, 0, flushed), Sub(0, WriterLock), 4, 0);
  }

  // One event of the run below, from the converter c' it leads to.
  lemma {:induction false} OneStep(cfg: Config, w: World, ev: Event, rest: seq<Event>, c': Conv) returns (w': World)
    requires Runnable(w) && IdsUnique(w.conv.engine)
    requires var c := Prepared(cfg, w, ev).conv;
      Typed(c.engine) && Addressed(c.engine) ==> After(cfg, c, ev) == Done(c')
    ensures Runnable(w') && w'.conv == c' && IdsUnique(c'.engine)
    ensures Run(cfg, w, [ev] + rest) == Run(cfg, w', rest)
  {
    hide Typed, After, Prepared, NextHeld, NextSeen, IdsUnique, SmallStep, Stable;
    PreparedRunnable(cfg, w, ev);
    w' := Step(cfg, w, ev).value;
    IdsStable();
    StepStays((e: Engine) => IdsUnique(e), cfg, w, ev);
    assert ([ev] + rest)[1..] == rest;
  }

  lemma {:induction false} NothingToWrite(cfg: Config, c: Conv)
    requires c.buffer == []
    ensures WriteMemAccesses(cfg, c, false, DEFAULT_ADDRESS) == c
  {
    assert FlushBuffer(cfg, c.engine, c.rows, []) == (c.engine, c.rows);
  }

  lemma {:induction false} AllocAndAccess(cfg: Config)
    ensures var c := Initial().conv;
      Typed(c.engine) && Addressed(c.engine) ==> After(cfg, c, LosingEvents()[0]) == Done(Allocated())
    ensures var c := OnceRead();
      Typed(c.engine) && Addressed(c.engine) ==> After(cfg, c, LosingEvents()[2]) == Done(Accessed())
  {
    hide Typed, HandlePV;
    var c := Initial().conv;
    assert c.allocs[0x1000 := Alloc(1, 0x100)] == map[0x1000 := Alloc(1, 0x100)];
    assert [] + [THE_ACCESS] == [THE_ACCESS];
  }

  lemma {:induction false} LosingSteps(cfg: Config) returns (w: World)
    ensures Runnable(Initial()) && Runnable(w) && w.conv == TwiceRead() && IdsUnique(w.conv.engine)
    ensures Run(cfg, Initial(), LosingEvents()) == Run(cfg, w, [LosingEvents()[4]])
  {
    hide Typed, HandlePV, WriteMemAccesses, TwiceRead, OnceRead, OnceWritten, IdsUnique, Run;
    var evs := LosingEvents();
    InitialIds();
    NothingToWrite(cfg, Initial().conv);
    NothingToWrite(cfg, Allocated());
    AccessWritten(cfg);
    AllocAndAccess(cfg);
    assert evs == [evs[0]] + ([evs[1]] + ([evs[2]] + ([evs[3]] + [evs[4]])));
    var w1 := OneStep(cfg, Initial(), evs[0], [evs[1]] + ([evs[2]] + ([evs[3]] + [evs[4]])), Allocated());
    FirstRead(cfg, Allocated());
    var w2 := OneStep(cfg, w1, evs[1], [evs[2]] + ([evs[3]] + [evs[4]]), OnceRead());
    var w3 := OneStep(cfg, w2, evs[2], [evs[3]] + [evs[4]], Accessed());
    SecondRead(cfg, OnceWritten());
    w := OneStep(cfg, w3, evs[3], [evs[4]], TwiceRead());
  }

  // The P on the write side erases the TXN of the access.
  lemma {:induction false} LosingStep(cfg: Config, w: World) returns (w': World)
    requires Runnable(w) && w.conv == TwiceRead() && IdsUnique(w.conv.engine)
    ensures Runnable(w') && Run(cfg, w, [LosingEvents()[4]]) == Done(w')
    ensures w'.conv.rows == TwiceRead().rows && Vanished(w'.conv.engine, 1)
  {
    hide Typed, Transition, WriteMemAccesses, Vanished, IdsUnique;
    var ev := LosingEvents()[4];
    NothingToWrite(cfg, w.conv);
    LastWrite(w.conv.engine);
    w' := Step(cfg, w, ev).value;
    assert [ev][1..] == [];
  }

  // After that run an access row names TXN 1, and there is no row for it.
  lemma {:induction false} LostTxn(cfg: Config, ts: nat)
    ensures Runnable(Initial()) && Run(cfg, Initial(), LosingEvents()).Done?
    ensures var c := Final(cfg, Run(cfg, Initial(), LosingEvents()).value, ts).conv;
      exists i :: 0 <= i < |c.rows| && c.rows[i].txn == Some(1) && !Closed(c.engine, 1)
  {
    hide Runnable, Run, Typed, IdsUnique, Stable, Flushed, CloseAll, Closed, LosingEvents, Initial;
    var w := LosingSteps(cfg);
    var w' := LosingStep(cfg, w);
    VanishedIsStable(1);
    FinalStays((e: Engine) => Vanished(e, 1), cfg, w', ts);
    FlushedGrows(cfg, w', true, 0);
    assert w'.conv.rows[0].txn == Some(1);
    FinalRows(cfg, w', ts);
  }

  lemma {:induction false} FinalRows(cfg: Config, w: World, ts: nat)
    requires Runnable(w)
    ensures Final(cfg, w, ts).conv.rows == Flushed(cfg, w, true, 0).conv.rows
  {
    hide Flushed, CloseAll;
  }
}
