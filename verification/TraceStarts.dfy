// What the start of a locks_held row says.  It is read off the lock's stack of positions when the row is
// written: the timestamp of the last outstanding P on the lock, as long as every V ends that one.

module TraceStarts {
  import opened TxnEngine
  import opened Wrappers
  import opened TxnAccounting
  import opened TxnAttribution
  import opened TxnConflict
  import opened TxnReference
  import opened TraceRun
  import opened TraceTheorems
  import opened TraceSteps
  import opened Grants

  function Starts(lock: LockState): (s: seq<nat>)
    ensures |s| == |lock.lastNPos| && forall i :: 0 <= i < |s| ==> s[i] == lock.lastNPos[i].start
  {
    seq(|lock.lastNPos|, i requires 0 <= i < |lock.lastNPos| => lock.lastNPos[i].start)
  }

  // The list of Ps, reduced to one context, is what the reference holds there.
  ghost predicate SubsMatch(g: seq<Grant>, h: Held) {
    forall c: int :: InCtx(g, c) == HeldIn(h, c)
  }

  // Reduced to one lock, it gives the lock's positions.
  ghost predicate StampsMatch(e: Engine, g: seq<Grant>) {
    forall l :: 0 <= l < |e.locks| ==> Stamps(OnLock(g, l)) == Starts(e.locks[l])
  }

  // ----- one lock operation --------------------------------------------------------------------------

  ghost function GrantBefore(g: seq<Grant>, x: Sub, recursive: bool, ctx: int): seq<Grant> {
    var own := Forgotten(g, ctx, Other(x));
    if x.subLock.WriterLock? && !recursive then Ended(own, ctx, x) else own
  }

  ghost function GrantStep(h: Held, g: seq<Grant>, l: nat, op: LockOp, recursive: bool, ts: nat, ctx: int): seq<Grant> {
    var x := Sub(l, SideOf(op));
    if IsAcquire(op) then GrantBefore(g, x, recursive, ctx) + [Grant(ctx, x, ts)] else Ended(g, HolderOf(h, x, ctx), x)
  }

  // Whatever the operation ends is last on its lock, over all contexts.
  ghost predicate InOrder(h: Held, g: seq<Grant>, l: nat, op: LockOp, recursive: bool, ctx: int) {
    var x := Sub(l, SideOf(op));
    if IsAcquire(op) then
      && (LastOf(g, ctx, Other(x)) >= 0 ==> forall q :: q in g && q.sub.lock == l ==> q.ctx == ctx && q.sub == Other(x))
      && (x.subLock.WriterLock? && !recursive ==> EndsLast(Forgotten(g, ctx, Other(x)), ctx, x))
    else EndsLast(g, HolderOf(h, x, ctx), x)
  }

  lemma {:induction false} GrantStepSubs(h: Held, g: seq<Grant>, l: nat, op: LockOp, recursive: bool, ts: nat, ctx: int)
    requires SubsMatch(g, h)
    ensures SubsMatch(GrantStep(h, g, l, op, recursive, ts, ctx), RefStep(h, l, op, recursive, ctx))
  {
    hide InCtx, Without, RemoveTop, Ended, Forgotten, HolderOf;
    var x := Sub(l, SideOf(op));
    forall c: int
      ensures InCtx(GrantStep(h, g, l, op, recursive, ts, ctx), c) == HeldIn(RefStep(h, l, op, recursive, ctx), c)
    {
      if IsAcquire(op) {
        ForgottenSubs(g, ctx, Other(x), c);
        ForgottenSubs(g, ctx, Other(x), ctx);
        EndedSubs(Forgotten(g, ctx, Other(x)), ctx, x, c);
        InCtxConcat(GrantBefore(g, x, recursive, ctx), [Grant(ctx, x, ts)], c);
        OneGrant(Grant(ctx, x, ts), l, c);
      } else {
        EndedSubs(g, HolderOf(h, x, ctx), x, c);
      }
    }
  }

  lemma {:induction false} OnStackIsGrant(e: Engine, h: Held, g: seq<Grant>, c: int, x: Sub)
    requires Matches(e, h) && SubsMatch(g, h)
    ensures OnStack(e, c, x) <==> LastOf(g, c, x) >= 0
  {
    hide InCtx, OnStack;
    OnStackIffMember(e, c, x);
    InCtxAre(g, c);
    if k :| 0 <= k < |g| && g[k].ctx == c && g[k].sub == x {
      assert g[k] in g;
    }
  }

  // What a P does to the positions of its lock before it adds its own.
  function PositionsBefore(e: Engine, x: Sub, ctx: int): seq<LockPos>
    requires x.lock < |e.locks|
  {
    var lock := e.locks[x.lock];
    if lock.readers == 0 && lock.writers == 0 then lock.lastNPos
    else if (if x.subLock.WriterLock? then lock.readers > 0 else lock.readers == 0) then
      if OnStack(e, ctx, Other(x)) then [] else lock.lastNPos
    else if x.subLock.WriterLock? && !lock.recursive && OnStack(e, ctx, x) && lock.lastNPos != [] then Pop(lock.lastNPos)
    else lock.lastNPos
  }

  lemma {:induction false} BeforeAcquirePositions(e: Engine, x: Sub, ts: nat, ctx: int)
    requires Typed(e) && x.lock < |e.locks| && WellKinded(e.locks, Proj(e.Stack(ctx))) && BeforeAcquire(e, x, ts, ctx).Done?
    ensures var e1 := BeforeAcquire(e, x, ts, ctx).value;
      && OnlyLock(e, e1, x.lock) && e1.locks[x.lock].lastNPos == PositionsBefore(e, x, ctx)
  {
    hide Typed, WellKinded, OnStack, FlushSide, FinishAndPop, Finish;
    var w := Sub(x.lock, WriterLock);
    FlushSideEffect(e, Other(x), ts, ctx);
    if e.locks[x.lock].lastNPos != [] {
      FinishAndPopLock(e, w, ts, ctx, ctx);
    }
    ReacquireIs(e, x.lock, ts, ctx);
  }

  lemma {:induction false} UncountedIsNoGrant(e: Engine, h: Held, g: seq<Grant>, x: Sub, c: int)
    requires Matches(e, h) && SubsMatch(g, h) && Total(e)[x] == 0
    ensures LastOf(g, c, x) < 0 && !OnStack(e, c, x)
    ensures Forgotten(g, c, x) == g && Ended(g, c, x) == g
  {
    hide Total, OnStack, Forgotten, SubsMatch, Matches;
    OnStackIsGrant(e, h, g, c, x);
    if OnStack(e, c, x) {
      OnStackCounted(e, c, x);
    }
    ForgottenStamps(g, c, x, x.lock);
  }

  lemma {:induction false} PopStarts(s: seq<Grant>, lock: LockState)
    requires Stamps(s) == Starts(lock) && s != []
    ensures lock.lastNPos != [] && Stamps(Pop(s)) == Starts(lock.(lastNPos := Pop(lock.lastNPos))) == Pop(Stamps(s))
  {
  }

  lemma {:induction false} GrantBeforeStamps(e: Engine, h: Held, g: seq<Grant>, x: Sub, ctx: int)
    requires Accounted(e) && Matches(e, h) && SubsMatch(g, h) && StampsMatch(e, g) && x.lock < |e.locks|
    requires e.locks[x.lock].readers == 0 || e.locks[x.lock].writers == 0
    requires LastOf(g, ctx, Other(x)) >= 0 ==>
      forall q :: q in g && q.sub.lock == x.lock ==> q.ctx == ctx && q.sub == Other(x)
    requires x.subLock.WriterLock? && !e.locks[x.lock].recursive ==> EndsLast(Forgotten(g, ctx, Other(x)), ctx, x)
    ensures var lock := e.locks[x.lock];
      Stamps(OnLock(GrantBefore(g, x, lock.recursive, ctx), x.lock)) == Starts(lock.(lastNPos := PositionsBefore(e, x, ctx)))
  {
    hide Typed, Total, Matches, SubsMatch, OnLock, Forgotten, OnStack, EndsLast, Ended;
    var l, lock, y := x.lock, e.locks[x.lock], Other(x);
    assert LockOk(lock, Total(e)[Sub(l, ReaderLock)], Total(e)[Sub(l, WriterLock)]);
    assert Stamps(OnLock(g, l)) == Starts(lock);
    var other, own := if x.subLock.WriterLock? then lock.readers else lock.writers,
                      if x.subLock.WriterLock? then lock.writers else lock.readers;
    if own == 0 {
      UncountedIsNoGrant(e, h, g, x, ctx);
    }
    if other == 0 {
      UncountedIsNoGrant(e, h, g, y, ctx);
      OnStackIsGrant(e, h, g, ctx, x);
      EndedStamps(g, ctx, x, l);
      if OnLock(g, l) != [] {
        PopStarts(OnLock(g, l), lock);
      }
    } else {
      OnStackIsGrant(e, h, g, ctx, y);
      ForgottenStamps(g, ctx, y, l);
      EndedStamps(Forgotten(g, ctx, y), ctx, x, l);
    }
  }

  // Only the Ps and the positions of lock l have changed.
  lemma {:induction false} OneLockStamps(e: Engine, e': Engine, g: seq<Grant>, g': seq<Grant>, l: nat)
    requires StampsMatch(e, g) && l < |e.locks| && OnlyLock(e, e', l)
    requires forall m: nat :: m != l ==> OnLock(g', m) == OnLock(g, m)
    ensures StampsMatch(e', g') <==> Stamps(OnLock(g', l)) == Starts(e'.locks[l])
  {
    hide OnLock;
    if Stamps(OnLock(g', l)) == Starts(e'.locks[l]) {
      forall m | 0 <= m < |e'.locks| ensures Stamps(OnLock(g', m)) == Starts(e'.locks[m]) {
        assert m != l ==> Stamps(OnLock(g, m)) == Starts(e.locks[m]);
      }
    }
  }

  lemma {:induction false} GrantStepElsewhere(h: Held, g: seq<Grant>, l: nat, op: LockOp, recursive: bool, ts: nat, ctx: int)
    ensures forall m: nat :: m != l ==> OnLock(GrantStep(h, g, l, op, recursive, ts, ctx), m) == OnLock(g, m)
  {
    hide OnLock, Ended, Forgotten, HolderOf;
    var x := Sub(l, SideOf(op));
    forall m: nat | m != l ensures OnLock(GrantStep(h, g, l, op, recursive, ts, ctx), m) == OnLock(g, m) {
      ForgottenStamps(g, ctx, Other(x), m);
      EndedStamps(Forgotten(g, ctx, Other(x)), ctx, x, m);
      OnLockConcat(GrantBefore(g, x, recursive, ctx), [Grant(ctx, x, ts)], m);
      OneGrant(Grant(ctx, x, ts), m, ctx);
      EndedStamps(g, HolderOf(h, x, ctx), x, m);
    }
  }

  lemma {:induction false} AcquirePositions(e: Engine, x: Sub, ts: nat, ctx: int)
    requires Typed(e) && x.lock < |e.locks| && WellKinded(e.locks, Proj(e.Stack(ctx))) && Acquire(e, x, ts, ctx).Done?
    ensures var e' := Acquire(e, x, ts, ctx).value;
      && OnlyLock(e, e', x.lock)
      && e'.locks[x.lock].lastNPos == PositionsBefore(e, x, ctx) + [LockPos(x.subLock, ts)]
  {
    hide Typed, WellKinded, BeforeAcquire, PositionsBefore;
    BeforeAcquirePositions(e, x, ts, ctx);
  }

  lemma {:induction false} MoreStarts(s: seq<Grant>, lock: LockState, q: Grant, side: SubLock)
    ensures (Stamps(s + [q]) == Starts(lock.(lastNPos := lock.lastNPos + [LockPos(side, q.ts)]))) <==> Stamps(s) == Starts(lock)
  {
    var t, u := Stamps(s + [q]), Starts(lock.(lastNPos := lock.lastNPos + [LockPos(side, q.ts)]));
    assert t == Stamps(s) + [q.ts] && u == Starts(lock) + [q.ts];
    assert t[..|t| - 1] == Stamps(s) && u[..|u| - 1] == Starts(lock);
  }

  lemma {:induction false} AcquireStamps(e: Engine, h: Held, g: seq<Grant>, op: LockOp, l: nat, ts: nat, ctx: int)
    requires Accounted(e) && Matches(e, h) && SubsMatch(g, h) && StampsMatch(e, g) && l < |e.locks| && IsAcquire(op)
    requires WellKinded(e.locks, Proj(e.Stack(ctx))) && Acquire(e, Sub(l, SideOf(op)), ts, ctx).Done?
    requires InOrder(h, g, l, op, e.locks[l].recursive, ctx)
    ensures StampsMatch(Acquire(e, Sub(l, SideOf(op)), ts, ctx).value,
                        GrantStep(h, g, l, op, e.locks[l].recursive, ts, ctx))
  {
    hide Typed, Total, Matches, SubsMatch, OnLock, Forgotten, WellKinded, EndsLast, Ended, PositionsBefore, Acquire, GrantBefore;
    var x, lock := Sub(l, SideOf(op)), e.locks[l];
    assert lock.readers == 0 || lock.writers == 0 by { AcquireGoesOn(e, x, ts, ctx); }
    GrantBeforeStamps(e, h, g, x, ctx);
    AcquirePositions(e, x, ts, ctx);
    GrantStepElsewhere(h, g, l, op, lock.recursive, ts, ctx);
    var own, q := GrantBefore(g, x, lock.recursive, ctx), Grant(ctx, x, ts);
    OnLockConcat(own, [q], l);
    OneGrant(q, l, ctx);
    MoreStarts(OnLock(own, l), lock.(lastNPos := PositionsBefore(e, x, ctx)), q, x.subLock);
    var e' := Acquire(e, x, ts, ctx).value;
    SameStarts(e'.locks[l], lock.(lastNPos := PositionsBefore(e, x, ctx) + [LockPos(x.subLock, ts)]));
    OneLockStamps(e, e', g, GrantStep(h, g, l, op, lock.recursive, ts, ctx), l);
  }

  lemma {:induction false} AcquireGoesOn(e: Engine, x: Sub, ts: nat, ctx: int)
    requires x.lock < |e.locks| && WellKinded(e.locks, Proj(e.Stack(ctx))) && Acquire(e, x, ts, ctx).Done?
    ensures e.locks[x.lock].readers == 0 || e.locks[x.lock].writers == 0
  {
    hide WellKinded, FlushSide, Reacquire, AfterAcquire;
  }

  lemma {:induction false} SameStarts(a: LockState, b: LockState)
    requires a.lastNPos == b.lastNPos
    ensures Starts(a) == Starts(b)
  {
  }

  lemma {:induction false} ReleasePositions(e: Engine, x: Sub, ts: nat, ctx: int)
    requires Typed(e) && x.lock < |e.locks|
    ensures var e', lock := Release(e, x, ts, ctx), e.locks[x.lock];
      && OnlyLock(e, e', x.lock)
      && e'.locks[x.lock].lastNPos ==
           if lock.lastNPos != [] && OnStack(e, ReleaseCtx(e, x, ctx), x) then Pop(lock.lastNPos) else lock.lastNPos
  {
    hide Typed, WellKinded, OnStack, FinishAndPop, ReleaseCtx;
    var c := ReleaseCtx(e, x, ctx);
    TypedStack(e, c);
    if e.locks[x.lock].lastNPos != [] {
      FinishAndPopLock(e, x, ts, c, ctx);
    }
  }

  lemma {:induction false} ReleaseStamps(e: Engine, h: Held, g: seq<Grant>, op: LockOp, l: nat, ts: nat, ctx: int)
    requires Accounted(e) && Matches(e, h) && SubsMatch(g, h) && StampsMatch(e, g) && l < |e.locks| && !IsAcquire(op)
    ensures var x := Sub(l, SideOf(op));
      var e', g' := Release(e, x, ts, ctx), GrantStep(h, g, l, op, e.locks[l].recursive, ts, ctx);
      && (EndsLast(g, HolderOf(h, x, ctx), x) ==> StampsMatch(e', g'))
      && (Increasing(g) && !EndsLast(g, HolderOf(h, x, ctx), x) ==> !StampsMatch(e', g'))
  {
    hide Typed, Total, Matches, SubsMatch, OnLock, WellKinded, EndsLast, Ended, Release, OnStack, HolderOf, ReleaseCtx, Increasing;
    var x, lock := Sub(l, SideOf(op)), e.locks[l];
    var c, e' := HolderOf(h, x, ctx), Release(e, Sub(l, SideOf(op)), ts, ctx);
    SameHolder(e, h, x, ctx);
    OnStackIsGrant(e, h, g, c, x);
    ReleasePositions(e, x, ts, ctx);
    GrantStepElsewhere(h, g, l, op, lock.recursive, ts, ctx);
    OneLockStamps(e, e', g, Ended(g, c, x), l);
    EndedStamps(g, c, x, l);
    assert Stamps(OnLock(g, l)) == Starts(lock);
    if OnLock(g, l) != [] {
      PopStarts(OnLock(g, l), lock);
      SameStarts(e'.locks[l], if OnStack(e, c, x) then lock.(lastNPos := Pop(lock.lastNPos)) else lock);
    } else {
      SameStarts(e'.locks[l], lock);
    }
    if Increasing(g) && !EndsLast(g, c, x) {
      EndedElsewhere(g, c, x);
      NotLastIsThere(g, c, x);
    }
  }

  lemma {:induction false} NotLastIsThere(g: seq<Grant>, c: int, x: Sub)
    requires !EndsLast(g, c, x)
    ensures LastOf(g, c, x) >= 0
  {
  }

  // A repeated P of a write lock whose earlier P is not the last on the lock.
  lemma {:induction false} AcquireStrays(e: Engine, h: Held, g: seq<Grant>, l: nat, ts: nat, ctx: int)
    requires Accounted(e) && Matches(e, h) && SubsMatch(g, h) && StampsMatch(e, g) && l < |e.locks|
    requires WellKinded(e.locks, Proj(e.Stack(ctx))) && Acquire(e, Sub(l, WriterLock), ts, ctx).Done?
    requires e.locks[l].readers == 0 && Increasing(g) && !InOrder(h, g, l, PWrite, e.locks[l].recursive, ctx)
    ensures !StampsMatch(Acquire(e, Sub(l, WriterLock), ts, ctx).value,
                         GrantStep(h, g, l, PWrite, e.locks[l].recursive, ts, ctx))
  {
    hide Typed, Total, Matches, SubsMatch, OnLock, Forgotten, WellKinded, EndsLast, Ended, Acquire, OnStack, Increasing;
    var x, y, lock := Sub(l, WriterLock), Sub(l, ReaderLock), e.locks[l];
    assert LockOk(lock, Total(e)[y], Total(e)[x]);
    UncountedIsNoGrant(e, h, g, y, ctx);
    NotLastIsThere(g, ctx, x);
    OnStackIsGrant(e, h, g, ctx, x);
    OnStackCounted(e, ctx, x);
    EndedElsewhere(g, ctx, x);
    assert Stamps(OnLock(g, l)) == Starts(lock);
    PopStarts(OnLock(g, l), lock);
    AcquirePositions(e, x, ts, ctx);
    GrantStepElsewhere(h, g, l, PWrite, lock.recursive, ts, ctx);
    var own, q := Ended(g, ctx, x), Grant(ctx, x, ts);
    OnLockConcat(own, [q], l);
    OneGrant(q, l, ctx);
    MoreStarts(OnLock(own, l), lock.(lastNPos := Pop(lock.lastNPos)), q, WriterLock);
    var e' := Acquire(e, x, ts, ctx).value;
    SameStarts(e'.locks[l], lock.(lastNPos := Pop(lock.lastNPos) + [LockPos(WriterLock, ts)]));
    OneLockStamps(e, e', g, own + [q], l);
  }

  lemma {:induction false} FlagsKeepStamps(e: Engine, h: Held, g: seq<Grant>, l: nat, recursive: bool)
    requires Accounted(e) && Matches(e, h) && StampsMatch(e, g) && l < |e.locks|
    ensures var e0 := SetFlags(e, l, recursive); Accounted(e0) && Matches(e0, h) && StampsMatch(e0, g)
  {
    hide Typed, Total, OnLock;
    var e0 := SetFlags(e, l, recursive);
    FlagsAccounted(e, l, recursive);
    assert forall c: int :: e0.Stack(c) == e.Stack(c);
    forall m | 0 <= m < |e0.locks| ensures Starts(e0.locks[m]) == Starts(e.locks[m]) {
      SameStarts(e0.locks[m], e.locks[m]);
    }
  }

  // The positions go on telling the Ps if the operation ends the last one on its lock.
  lemma {:induction false} TransitionStamps(e: Engine, h: Held, g: seq<Grant>, l: nat, op: LockOp, recursive: bool, ts: nat,
      ctx: int)
    requires Accounted(e) && Matches(e, h) && SubsMatch(g, h) && StampsMatch(e, g) && l < |e.locks|
    requires Transition(e, l, op, recursive, ts, ctx).Done? && InOrder(h, g, l, op, recursive, ctx)
    ensures StampsMatch(Transition(e, l, op, recursive, ts, ctx).value, GrantStep(h, g, l, op, recursive, ts, ctx))
  {
    hide Typed, Total, Matches, SubsMatch, StampsMatch, GrantStep, InOrder, Acquire, Release, WellKinded;
    var e0 := SetFlags(e, l, recursive);
    FlagsKeepStamps(e, h, g, l, recursive);
    TypedStack(e0, ctx);
    if IsAcquire(op) {
      AcquireStamps(e0, h, g, op, l, ts, ctx);
    } else {
      AssertInOrder(h, g, l, op, recursive, ctx);
      ReleaseStamps(e0, h, g, op, l, ts, ctx);
    }
  }

  lemma {:induction false} AssertInOrder(h: Held, g: seq<Grant>, l: nat, op: LockOp, recursive: bool, ctx: int)
    requires !IsAcquire(op)
    ensures InOrder(h, g, l, op, recursive, ctx) <==> EndsLast(g, HolderOf(h, Sub(l, SideOf(op)), ctx), Sub(l, SideOf(op)))
  {
  }

  // ... and, without side conflict and with increasing timestamps, only then.
  lemma {:induction false} TransitionStrays(e: Engine, h: Held, g: seq<Grant>, l: nat, op: LockOp, recursive: bool, ts: nat,
      ctx: int)
    requires Accounted(e) && Matches(e, h) && SubsMatch(g, h) && StampsMatch(e, g) && l < |e.locks|
    requires Transition(e, l, op, recursive, ts, ctx).Done? && NoSideConflict(e.locks[l], op)
    requires Increasing(g) && !InOrder(h, g, l, op, recursive, ctx)
    ensures !StampsMatch(Transition(e, l, op, recursive, ts, ctx).value, GrantStep(h, g, l, op, recursive, ts, ctx))
  {
    hide Typed, Total, Matches, SubsMatch, StampsMatch, GrantStep, InOrder, Acquire, Release, WellKinded, Increasing;
    var e0 := SetFlags(e, l, recursive);
    FlagsKeepStamps(e, h, g, l, recursive);
    TypedStack(e0, ctx);
    if IsAcquire(op) {
      if op.PRead? {
        ReadersAreInOrder(e, h, g, l, op, recursive, ctx);
      } else {
        AcquireStrays(e0, h, g, l, ts, ctx);
      }
    } else {
      AssertInOrder(h, g, l, op, recursive, ctx);
      ReleaseStamps(e0, h, g, op, l, ts, ctx);
    }
  }

  lemma {:induction false} ReadersAreInOrder(e: Engine, h: Held, g: seq<Grant>, l: nat, op: LockOp, recursive: bool, ctx: int)
    requires Accounted(e) && Matches(e, h) && SubsMatch(g, h) && l < |e.locks| && op.PRead? && e.locks[l].writers == 0
    ensures InOrder(h, g, l, op, recursive, ctx)
  {
    hide Typed, Total, Matches, SubsMatch, Forgotten, EndsLast;
    assert LockOk(e.locks[l], Total(e)[Sub(l, ReaderLock)], Total(e)[Sub(l, WriterLock)]);
    UncountedIsNoGrant(e, h, g, Sub(l, WriterLock), ctx);
  }

  // ----- the rows an event writes ----------------------------------------------------------------------

  ghost predicate Names(locks: seq<LockState>, y: Sub, id: int) {
    y.lock < |locks| && locks[y.lock].Permits(y.subLock) && locks[y.lock].GetId(y.subLock) == id
  }

  // The row's start is the last position of its lock.
  ghost predicate TopsLock(locks: seq<LockState>, y: Sub, row: HeldRow) {
    Names(locks, y, row.lockId) && Starts(locks[y.lock]) != [] && row.start == Starts(locks[y.lock])[|Starts(locks[y.lock])| - 1]
  }

  ghost predicate RowTop(locks: seq<LockState>, row: HeldRow) {
    exists y :: TopsLock(locks, y, row)
  }

  // The rows in e' that are not in e say what the positions of e do.
  ghost predicate NewRowsTop(e: Engine, e': Engine) {
    && |e.heldRows| <= |e'.heldRows| && e'.heldRows[..|e.heldRows|] == e.heldRows
    && forall i :: |e.heldRows| <= i < |e'.heldRows| ==> RowTop(e.locks, e'.heldRows[i])
  }

  lemma {:induction false} HeldRowsOfTop(locks: seq<LockState>, s: seq<Txn>, txn: nat, seen: set<int>)
    requires WellKinded(locks, Proj(s))
    ensures forall r :: r in HeldRowsOf(locks, s, txn, seen) ==> RowTop(locks, r)
    decreases |s|
  {
    hide RowTop, TopsLock;
    if s != [] {
      KindedTail(locks, s);
      var lock := locks[s[0].lock];
      HeldRowsOfTop(locks, s[1..], txn, seen);
      HeldRowsOfTop(locks, s[1..], txn, seen + {lock.GetId(s[0].subLock)});
      if lock.lastNPos != [] {
        ThisTop(locks, SubOf(s[0]), HeldRow(txn, lock.GetId(s[0].subLock), lock.lastNPos[|lock.lastNPos| - 1].start));
      }
    }
  }

  lemma {:induction false} ThisTop(locks: seq<LockState>, y: Sub, row: HeldRow)
    requires Names(locks, y, row.lockId) && locks[y.lock].lastNPos != []
    requires row.start == locks[y.lock].lastNPos[|locks[y.lock].lastNPos| - 1].start
    ensures RowTop(locks, row)
  {
    assert TopsLock(locks, y, row);
  }

  lemma {:induction false} TornHeldRowsTop(locks: seq<LockState>, s: seq<Txn>, k: nat)
    requires k <= |s| && WellKinded(locks, Proj(s))
    ensures forall r :: r in TornHeldRows(locks, s, k) ==> RowTop(locks, r)
  {
    hide RowTop, HeldRowsOf;
    if |s| > k {
      KindedInit(locks, s);
      HeldRowsOfTop(locks, s, s[|s| - 1].id, {});
      TornHeldRowsTop(locks, s[..|s| - 1], k);
    }
  }

  lemma {:induction false} FinishRowsTop(e: Engine, x: Sub, ts: nat, removeReader: bool, c: int, ctxOld: int)
    requires WellKinded(e.locks, Proj(e.Stack(c)))
    ensures NewRowsTop(e, Finish(e, x, ts, removeReader, c, ctxOld))
  {
    hide RowTop, Finish, WellKinded, TornHeldRows, TornTxnRows, FinishedStack, KeepOf;
    var s, e' := e.Stack(c), Finish(e, x, ts, removeReader, c, ctxOld);
    FinishFields(e, x, ts, removeReader, c, ctxOld);
    TornHeldRowsTop(e.locks, s, KeepOf(s, x));
    var torn := TornHeldRows(e.locks, s, KeepOf(s, x));
    forall i | |e.heldRows| <= i < |e'.heldRows| ensures RowTop(e.locks, e'.heldRows[i]) {
      assert e'.heldRows[i] == torn[i - |e.heldRows|];
    }
  }

  lemma {:induction false} NoNewRows(e: Engine, e': Engine)
    requires e'.heldRows == e.heldRows
    ensures NewRowsTop(e, e')
  {
  }

  // The same rows beside locks with the same positions, or with some more.
  lemma {:induction false} SameRowsTop(e: Engine, e0: Engine, e1: Engine, e': Engine)
    requires NewRowsTop(e0, e1) && e0.heldRows == e.heldRows && e'.heldRows == e1.heldRows && |e.locks| <= |e0.locks|
    requires forall m :: 0 <= m < |e.locks| ==>
      && e0.locks[m].kind == e.locks[m].kind && e0.locks[m].readId == e.locks[m].readId
      && e0.locks[m].writeId == e.locks[m].writeId && e0.locks[m].lastNPos == e.locks[m].lastNPos
    requires forall m :: |e.locks| <= m < |e0.locks| ==> e0.locks[m].lastNPos == []
    ensures NewRowsTop(e, e')
  {
    hide RowTop;
    forall i | |e.heldRows| <= i < |e'.heldRows| ensures RowTop(e.locks, e'.heldRows[i]) {
      SameRowTop(e, e0, e'.heldRows[i]);
    }
  }

  lemma {:induction false} SameRowTop(e: Engine, e0: Engine, row: HeldRow)
    requires RowTop(e0.locks, row) && |e.locks| <= |e0.locks|
    requires forall m :: 0 <= m < |e.locks| ==>
      && e0.locks[m].kind == e.locks[m].kind && e0.locks[m].readId == e.locks[m].readId
      && e0.locks[m].writeId == e.locks[m].writeId && e0.locks[m].lastNPos == e.locks[m].lastNPos
    requires forall m :: |e.locks| <= m < |e0.locks| ==> e0.locks[m].lastNPos == []
    ensures RowTop(e.locks, row)
  {
    var y :| TopsLock(e0.locks, y, row);
    SameStarts(e0.locks[y.lock], if y.lock < |e.locks| then e.locks[y.lock] else e0.locks[y.lock]);
    assert TopsLock(e.locks, y, row);
  }

  lemma {:induction false} BeforeAcquireRowsTop(e: Engine, x: Sub, ts: nat, ctx: int)
    requires x.lock < |e.locks| && WellKinded(e.locks, Proj(e.Stack(ctx))) && BeforeAcquire(e, x, ts, ctx).Done?
    ensures NewRowsTop(e, BeforeAcquire(e, x, ts, ctx).value)
  {
    hide NewRowsTop, WellKinded, OnStack, Finish;
    var r, w := Sub(x.lock, ReaderLock), Sub(x.lock, WriterLock);
    FinishRowsTop(e, r, ts, true, ctx, ctx);
    FinishRowsTop(e, w, ts, true, ctx, ctx);
    FinishRowsTop(e, w, ts, false, ctx, ctx);
    FinishIdentity(e, r, ts, true, ctx, ctx);
    FinishIdentity(e, w, ts, true, ctx, ctx);
    FinishIdentity(e, w, ts, false, ctx, ctx);
    NoNewRows(e, e);
    var e1 := BeforeAcquire(e, x, ts, ctx).value;
    if e1.heldRows == Finish(e, r, ts, true, ctx, ctx).heldRows {
      SameRowsTop(e, e, Finish(e, r, ts, true, ctx, ctx), e1);
    } else if e1.heldRows == Finish(e, w, ts, true, ctx, ctx).heldRows {
      SameRowsTop(e, e, Finish(e, w, ts, true, ctx, ctx), e1);
    } else if e1.heldRows == Finish(e, w, ts, false, ctx, ctx).heldRows {
      SameRowsTop(e, e, Finish(e, w, ts, false, ctx, ctx), e1);
    } else {
      assert e1 == e;
    }
  }

  lemma {:induction false} AcquireRowsTop(e: Engine, x: Sub, ts: nat, ctx: int)
    requires x.lock < |e.locks| && WellKinded(e.locks, Proj(e.Stack(ctx))) && Acquire(e, x, ts, ctx).Done? && Typed(e)
    ensures NewRowsTop(e, Acquire(e, x, ts, ctx).value)
  {
    hide NewRowsTop, WellKinded, BeforeAcquire, Typed;
    BeforeAcquireRowsTop(e, x, ts, ctx);
    BeforeAcquireTyped(e, x, ts, ctx);
    SameRowsTop(e, e, BeforeAcquire(e, x, ts, ctx).value, Acquire(e, x, ts, ctx).value);
  }

  lemma {:induction false} ReleaseRowsTop(e: Engine, x: Sub, ts: nat, ctx: int)
    requires x.lock < |e.locks| && Typed(e)
    ensures NewRowsTop(e, Release(e, x, ts, ctx))
  {
    hide NewRowsTop, WellKinded, OnStack, Finish, Typed, ReleaseCtx;
    var c := ReleaseCtx(e, x, ctx);
    TypedStack(e, c);
    FinishRowsTop(e, x, ts, false, c, ctx);
    FinishIdentity(e, x, ts, false, c, ctx);
    NoNewRows(e, e);
    var e1 := if e.locks[x.lock].lastNPos == [] then e else Finish(e, x, ts, false, c, ctx);
    SameRowsTop(e, e, e1, Release(e, x, ts, ctx));
  }

  lemma {:induction false} TransitionRowsTop(e: Engine, l: nat, op: LockOp, recursive: bool, ts: nat, ctx: int)
    requires Typed(e) && l < |e.locks| && Transition(e, l, op, recursive, ts, ctx).Done?
    ensures NewRowsTop(e, Transition(e, l, op, recursive, ts, ctx).value)
  {
    hide NewRowsTop, Typed, WellKinded, Acquire, Release;
    var e0, x := SetFlags(e, l, recursive), Sub(l, SideOf(op));
    KindsKeepTyped(e, e0);
    TypedStack(e0, ctx);
    if IsAcquire(op) {
      AcquireRowsTop(e0, x, ts, ctx);
    } else {
      ReleaseRowsTop(e0, x, ts, ctx);
    }
    SameRowsTop(e, e0, Transition(e, l, op, recursive, ts, ctx).value, Transition(e, l, op, recursive, ts, ctx).value);
  }

  lemma {:induction false} CloseCtxRowsTop(e: Engine, c: int, ts: nat)
    requires Typed(e)
    ensures NewRowsTop(e, CloseCtx(e, c, ts)) && CloseCtx(e, c, ts).locks == e.locks
    decreases |e.Stack(c)|
  {
    hide Typed, NewRowsTop, Finish, WellKinded;
    var s := e.Stack(c);
    if s == [] {
      NoNewRows(e, e);
    } else {
      var x := SubOf(s[|s| - 1]);
      FinishTop(e, c, ts);
      var e1 := Finish(e, x, ts, false, c, c);
      FinishTyped(e, x, ts, c, c);
      FinishRowsTop(e, x, ts, false, c, c);
      FinishIdentity(e, x, ts, false, c, c);
      CloseCtxRowsTop(e1, c, ts);
      RowsTopOn(e, e1, CloseCtx(e1, c, ts));
    }
  }

  lemma {:induction false} RowsTopOn(e: Engine, e1: Engine, e2: Engine)
    requires NewRowsTop(e, e1) && NewRowsTop(e1, e2) && e1.locks == e.locks
    ensures NewRowsTop(e, e2)
  {
    hide RowTop;
    assert e2.heldRows[..|e.heldRows|] == e2.heldRows[..|e1.heldRows|][..|e.heldRows|];
    forall i | |e.heldRows| <= i < |e2.heldRows| ensures RowTop(e.locks, e2.heldRows[i]) {
      assert i < |e1.heldRows| ==> e2.heldRows[i] == e2.heldRows[..|e1.heldRows|][i];
    }
  }

  lemma {:induction false} CloseCtxsRowsTop(e: Engine, cs: set<int>, ts: nat)
    requires Typed(e)
    ensures NewRowsTop(e, CloseCtxs(e, cs, ts)) && CloseCtxs(e, cs, ts).locks == e.locks
    decreases cs
  {
    hide Typed, NewRowsTop, CloseCtx;
    if exists c :: c in cs {
      var e1 := CloseCtx(e, Lowest(cs), ts);
      CloseCtxRowsTop(e, Lowest(cs), ts);
      CloseCtxsRowsTop(e1, cs - {Lowest(cs)}, ts);
      RowsTopOn(e, e1, CloseCtxs(e, cs, ts));
    } else {
      NoNewRows(e, e);
    }
  }

  lemma {:induction false} FlushKeepsRows(cfg: Config, e: Engine, rows: seq<AccessRow>, buffer: seq<MemAccess>)
    ensures var e' := FlushBuffer(cfg, e, rows, buffer).0; e'.heldRows == e.heldRows && e'.locks == e.locks
    decreases |buffer|
  {
    hide CountAccess, ActiveTxn;
    if buffer != [] {
      var ctx := cfg.Ctx(buffer[0].ctx);
      CountFrame(e, ctx);
      FlushKeepsRows(cfg, CountAccess(e, ctx), rows + [AccessRow(buffer[0], ActiveTxn(e, ctx))], buffer[1..]);
    }
  }

  lemma {:induction false} FlushedKeepsRows(cfg: Config, w: World, actionPV: bool, address: nat)
    ensures var e' := Flushed(cfg, w, actionPV, address).conv.engine;
      e'.heldRows == w.conv.engine.heldRows && e'.locks == w.conv.engine.locks
  {
    hide FlushBuffer;
    var c := w.conv;
    FlushKeepsRows(cfg, c.engine, c.rows, c.buffer[..|c.buffer| - Dropped(c.buffer, actionPV, address)]);
  }

  lemma {:induction false} AfterRowsTop(cfg: Config, c: Conv, ev: Event)
    requires Typed(c.engine) && Addressed(c.engine) && After(cfg, c, ev).Done?
    ensures NewRowsTop(c.engine, After(cfg, c, ev).value.engine)
  {
    hide Typed, Transition, NewRowsTop;
    var e' := After(cfg, c, ev).value.engine;
    if ev.LockEvent? && LockFor(cfg, c, ev).Some? {
      var e := EngineFor(cfg, c, ev);
      AllocTyped(cfg, c, ev);
      TransitionRowsTop(e, LockFor(cfg, c, ev).value, ev.op, ev.recursive, ev.ts, cfg.Ctx(ev.ctx));
      SameRowsTop(c.engine, e, e', e');
    } else {
      NoNewRows(c.engine, e');
    }
  }

  // All rows an event writes say what the positions before it do.
  lemma {:induction false} StepRowsTop(cfg: Config, w: World, ev: Event)
    requires Runnable(w) && Step(cfg, w, ev).Done?
    ensures NewRowsTop(w.conv.engine, Step(cfg, w, ev).value.conv.engine)
  {
    hide Typed, After, Flushed, NextHeld, NextSeen, NewRowsTop;
    var p, e := Prepared(cfg, w, ev), w.conv.engine;
    PreparedRunnable(cfg, w, ev);
    FlushedKeepsRows(cfg, w, FlushArgs(ev).0, FlushArgs(ev).1);
    AfterRowsTop(cfg, p.conv, ev);
    var e' := Step(cfg, w, ev).value.conv.engine;
    SameRowsTop(e, p.conv.engine, e', e');
  }

  lemma {:induction false} FinalRowsTop(cfg: Config, w: World, ts: nat)
    requires Runnable(w)
    ensures NewRowsTop(w.conv.engine, Final(cfg, w, ts).conv.engine)
  {
    hide Typed, Flushed, CloseCtxs, NewRowsTop;
    FlushedTyped(cfg, w);
    FlushedKeepsRows(cfg, w, true, 0);
    var f := Flushed(cfg, w, true, 0).conv.engine;
    CloseCtxsRowsTop(f, f.stacks.Keys, ts);
    SameRowsTop(w.conv.engine, f, CloseAll(f, ts), Final(cfg, w, ts).conv.engine);
  }

  // ----- runs --------------------------------------------------------------------------------------------

  // The run beside the list of outstanding Ps, and for each row what that list was when it was written.
  datatype Traced = Traced(w: World, g: seq<Grant>, log: seq<seq<Grant>>)

  ghost function NextGrants(cfg: Config, w: World, g: seq<Grant>, ev: Event): seq<Grant> {
    if ev.LockEvent? && LockFor(cfg, w.conv, ev).Some?
    then GrantStep(w.held, g, LockFor(cfg, w.conv, ev).value, ev.op, ev.recursive, ev.ts, cfg.Ctx(ev.ctx))
    else g
  }

  ghost predicate EventInOrder(cfg: Config, w: World, g: seq<Grant>, ev: Event) {
    ev.LockEvent? && LockFor(cfg, w.conv, ev).Some? ==>
      InOrder(w.held, g, LockFor(cfg, w.conv, ev).value, ev.op, ev.recursive, cfg.Ctx(ev.ctx))
  }

  function Noted(log: seq<seq<Grant>>, g: seq<Grant>, n: nat): (r: seq<seq<Grant>>)
    ensures |log| <= |r| && r[..|log|] == log && (|log| <= n ==> |r| == n)
    ensures forall i :: |log| <= i < |r| ==> r[i] == g
  {
    if n <= |log| then log else log + seq(n - |log|, i => g)
  }

  ghost function NextTraced(cfg: Config, t: Traced, ev: Event): Traced
    requires Runnable(t.w) && Step(cfg, t.w, ev).Done?
  {
    var w := Step(cfg, t.w, ev).value;
    Traced(w, NextGrants(cfg, Prepared(cfg, t.w, ev), t.g, ev), Noted(t.log, t.g, |w.conv.engine.heldRows|))
  }

  ghost function RunTraced(cfg: Config, t: Traced, events: seq<Event>): (r: Traced)
    requires Runnable(t.w) && Run(cfg, t.w, events).Done?
    ensures Runnable(r.w) && r.w == Run(cfg, t.w, events).value
    decreases |events|
  {
    if events == [] then t else RunTraced(cfg, NextTraced(cfg, t, events[0]), events[1..])
  }

  ghost function FinalTraced(cfg: Config, t: Traced, ts: nat): Traced
    requires Runnable(t.w)
  {
    var w := Final(cfg, t.w, ts);
    Traced(w, t.g, Noted(t.log, t.g, |w.conv.engine.heldRows|))
  }

  // Every P that ends is the last one on its lock.
  ghost predicate InOrderThroughout(cfg: Config, t: Traced, events: seq<Event>)
    requires Runnable(t.w)
    decreases |events|
  {
    events != [] && Step(cfg, t.w, events[0]).Done? ==>
      && EventInOrder(cfg, Prepared(cfg, t.w, events[0]), t.g, events[0])
      && InOrderThroughout(cfg, NextTraced(cfg, t, events[0]), events[1..])
  }

  // The row's start is the timestamp of the last P on its lock that was outstanding then, in any context.
  ghost predicate Says(locks: seq<LockState>, y: Sub, row: HeldRow, g: seq<Grant>) {
    Names(locks, y, row.lockId) && OnLock(g, y.lock) != [] && row.start == OnLock(g, y.lock)[|OnLock(g, y.lock)| - 1].ts
  }

  ghost predicate SaysLastP(locks: seq<LockState>, row: HeldRow, g: seq<Grant>) {
    exists y :: Says(locks, y, row, g)
  }

  ghost predicate RowsSay(e: Engine, log: seq<seq<Grant>>) {
    |log| == |e.heldRows| && forall i :: 0 <= i < |log| ==> SaysLastP(e.locks, e.heldRows[i], log[i])
  }

  lemma {:induction false} TopSays(e: Engine, g: seq<Grant>, row: HeldRow)
    requires RowTop(e.locks, row) && StampsMatch(e, g)
    ensures SaysLastP(e.locks, row, g)
  {
    hide OnLock;
    var y :| TopsLock(e.locks, y, row);
    assert Stamps(OnLock(g, y.lock)) == Starts(e.locks[y.lock]);
    assert Says(e.locks, y, row, g);
  }

  // Known locks keep their ids.
  predicate SameNames(e: Engine, e': Engine) {
    |e.locks| <= |e'.locks| && forall l :: 0 <= l < |e.locks| ==>
      && e'.locks[l].kind == e.locks[l].kind
      && e'.locks[l].readId == e.locks[l].readId && e'.locks[l].writeId == e.locks[l].writeId
  }

  lemma {:induction false} SayStill(e: Engine, e': Engine, row: HeldRow, g: seq<Grant>)
    requires SaysLastP(e.locks, row, g) && SameNames(e, e')
    ensures SaysLastP(e'.locks, row, g)
  {
    hide OnLock;
    var y :| Says(e.locks, y, row, g);
    assert Says(e'.locks, y, row, g);
  }

  lemma {:induction false} RowsSayOn(e: Engine, e': Engine, g: seq<Grant>, log: seq<seq<Grant>>)
    requires RowsSay(e, log) && StampsMatch(e, g) && NewRowsTop(e, e') && SameNames(e, e')
    ensures RowsSay(e', Noted(log, g, |e'.heldRows|))
  {
    hide StampsMatch, RowTop, SaysLastP, SameNames;
    var log' := Noted(log, g, |e'.heldRows|);
    forall i | 0 <= i < |log'| ensures SaysLastP(e'.locks, e'.heldRows[i], log'[i]) {
      if i < |log| {
        assert e'.heldRows[..|e.heldRows|][i] == e.heldRows[i] && log'[..|log|][i] == log[i];
      } else {
        TopSays(e, g, e'.heldRows[i]);
      }
      SayStill(e, e', e'.heldRows[i], log'[i]);
    }
  }

  lemma {:induction false} NamesKept(e: Engine, e': Engine)
    requires OpStep(e, e') || e'.locks == e.locks
    ensures SameNames(e, e')
  {
    hide WellKinded, KeptOf, Written, IdsInjective;
  }

  // Ids of e are kept by everything that happens from there on.
  lemma {:induction false} StepKeepsNames(cfg: Config, w: World, ev: Event)
    requires Runnable(w) && Step(cfg, w, ev).Done?
    ensures SameNames(w.conv.engine, Step(cfg, w, ev).value.conv.engine)
  {
    hide Step, Runnable, OpStep, SmallStep, Stable, SameNames;
    var e := w.conv.engine;
    var P := (e': Engine) => SameNames(e, e');
    NamesAreStable(e);
    NamesRefl(e);
    StepStays(P, cfg, w, ev);
  }

  lemma {:induction false} NamesRefl(e: Engine)
    ensures SameNames(e, e)
  {
  }

  lemma {:induction false} NamesAreStable(e: Engine)
    ensures Stable((e': Engine) => SameNames(e, e'))
  {
    hide OpStep, CountAccess;
    forall e1, e2 | SameNames(e, e1) && SmallStep(e1, e2) ensures SameNames(e, e2) {
      if !OpStep(e1, e2) {
        var ctx :| e2 == CountAccess(e1, ctx);
        CountFrame(e1, ctx);
      }
      NamesKept(e1, e2);
    }
  }

  lemma {:induction false} FinalKeepsNames(cfg: Config, w: World, ts: nat)
    requires Runnable(w)
    ensures SameNames(w.conv.engine, Final(cfg, w, ts).conv.engine)
  {
    hide Final, Runnable, Stable, SameNames;
    var e := w.conv.engine;
    NamesAreStable(e);
    NamesRefl(e);
    FinalStays((e': Engine) => SameNames(e, e'), cfg, w, ts);
  }

  // ----- the starts are right ----------------------------------------------------------------------------

  lemma {:induction false} GrantsKnown(e: Engine, h: Held, g: seq<Grant>)
    requires Typed(e) && Matches(e, h) && SubsMatch(g, h)
    ensures forall q :: q in g ==> q.sub.lock < |e.locks|
  {
    hide InCtx, Typed;
    forall q | q in g ensures q.sub.lock < |e.locks| {
      InCtxAre(g, q.ctx);
      TypedStack(e, q.ctx);
      assert q.sub in Proj(e.Stack(q.ctx));
    }
  }

  // A new lock has no P yet.
  lemma {:induction false} AllocStamps(cfg: Config, c: Conv, ev: Event, h: Held, g: seq<Grant>)
    requires ev.LockEvent? && Typed(c.engine) && Matches(c.engine, h) && SubsMatch(g, h) && StampsMatch(c.engine, g)
    ensures StampsMatch(EngineFor(cfg, c, ev), g)
  {
    hide OnLock, Matches, SubsMatch, Typed;
    var e, e' := c.engine, EngineFor(cfg, c, ev);
    GrantsKnown(e, h, g);
    forall l | 0 <= l < |e'.locks| ensures Stamps(OnLock(g, l)) == Starts(e'.locks[l]) {
      if l < |e.locks| {
        assert e'.locks[l] == e.locks[l];
      } else {
        OnLockNone(g, l);
      }
    }
  }

  lemma {:induction false} SameLocksStamps(e: Engine, e': Engine, g: seq<Grant>)
    requires e'.locks == e.locks
    ensures StampsMatch(e', g) <==> StampsMatch(e, g)
  {
    hide OnLock;
  }

  ghost predicate Telling(cfg: Config, t: Traced) {
    && Inv(cfg, t.w) && SubsMatch(t.g, t.w.held)
    && StampsMatch(t.w.conv.engine, t.g) && RowsSay(t.w.conv.engine, t.log)
  }

  // The lock event about which the world is ready.
  lemma {:induction false} LockEventStamps(cfg: Config, w: World, g: seq<Grant>, ev: Event)
    requires Inv(cfg, w) && Typed(w.conv.engine) && Addressed(w.conv.engine) && SubsMatch(g, w.held)
    requires ev.LockEvent? && LockFor(cfg, w.conv, ev).Some? && StampsMatch(w.conv.engine, g)
    requires After(cfg, w.conv, ev).Done?
    ensures var e', g' := After(cfg, w.conv, ev).value.engine, NextGrants(cfg, w, g, ev);
      && SubsMatch(g', NextHeld(cfg, w, ev))
      && (EventInOrder(cfg, w, g, ev) ==> StampsMatch(e', g'))
      && (EventOk(cfg, w.conv, ev) && Increasing(g) && !EventInOrder(cfg, w, g, ev) ==> !StampsMatch(e', g'))
  {
    hide Inv, Typed, Transition, SubsMatch, StampsMatch, GrantStep, RefStep, InOrder, IdsInjective, OneSided, WrongSide, Increasing,
      Attributed, Total, Matches, EngineFor;
    var c := w.conv;
    var e, l, ctx := EngineFor(cfg, c, ev), LockFor(cfg, c, ev).value, cfg.Ctx(ev.ctx);
    AllocTyped(cfg, c, ev);
    TargetFollows(cfg, w, ev);
    assert Matches(c.engine, w.held) by { InvMatches(cfg, w); }
    AllocStamps(cfg, c, ev, w.held, g);
    GrantStepSubs(w.held, g, l, ev.op, ev.recursive, ev.ts, ctx);
    if InOrder(w.held, g, l, ev.op, ev.recursive, ctx) {
      TransitionStamps(e, w.held, g, l, ev.op, ev.recursive, ev.ts, ctx);
    } else if EventOk(cfg, c, ev) && Increasing(g) {
      NoSideConflictFor(cfg, c, ev);
      TransitionStrays(e, w.held, g, l, ev.op, ev.recursive, ev.ts, ctx);
    }
  }

  lemma {:induction false} InvMatches(cfg: Config, w: World)
    requires Inv(cfg, w)
    ensures Matches(w.conv.engine, w.held)
  {
    hide Complete, AtOnce, Attributed, Accounted, IdsInjective;
  }

  lemma {:induction false} NoSideConflictFor(cfg: Config, c: Conv, ev: Event)
    requires ev.LockEvent? && LockFor(cfg, c, ev).Some? && EventOk(cfg, c, ev) && Addressed(c.engine)
    ensures LockFor(cfg, c, ev).value < |EngineFor(cfg, c, ev).locks|
    ensures NoSideConflict(EngineFor(cfg, c, ev).locks[LockFor(cfg, c, ev).value], ev.op)
  {
  }

  lemma {:induction false} StepStamps(cfg: Config, t: Traced, ev: Event)
    requires Runnable(t.w) && Telling(cfg, t) && Step(cfg, t.w, ev).Done?
    ensures var n, p := NextTraced(cfg, t, ev), Prepared(cfg, t.w, ev);
      && SubsMatch(n.g, n.w.held)
      && (EventInOrder(cfg, p, t.g, ev) ==> StampsMatch(n.w.conv.engine, n.g))
      && (EventOk(cfg, p.conv, ev) && Increasing(t.g) && !EventInOrder(cfg, p, t.g, ev) ==> !StampsMatch(n.w.conv.engine, n.g))
  {
    hide Inv, Typed, Transition, SubsMatch, StampsMatch, GrantStep, RefStep, InOrder, Increasing, Flushed, EventOk, RowsSay, EngineFor,
      NextSeen;
    var p := Prepared(cfg, t.w, ev);
    PreparedRunnable(cfg, t.w, ev);
    FlushedKeepsRows(cfg, t.w, FlushArgs(ev).0, FlushArgs(ev).1);
    FlushedKeepsHeld(cfg, t.w, FlushArgs(ev).0, FlushArgs(ev).1);
    SameLocksStamps(t.w.conv.engine, p.conv.engine, t.g);
    if ev.LockEvent? && LockFor(cfg, p.conv, ev).Some? {
      FlushedKeeps(cfg, t.w, FlushArgs(ev).0, FlushArgs(ev).1);
      LockEventStamps(cfg, p, t.g, ev);
    } else {
      SameLocksStamps(p.conv.engine, Step(cfg, t.w, ev).value.conv.engine, t.g);
    }
  }

  lemma {:induction false} FlushedKeepsHeld(cfg: Config, w: World, actionPV: bool, address: nat)
    ensures Flushed(cfg, w, actionPV, address).held == w.held
  {
    hide WriteMemAccesses;
  }

  lemma {:induction false} StepTells(cfg: Config, t: Traced, ev: Event)
    requires Runnable(t.w) && Telling(cfg, t) && Step(cfg, t.w, ev).Done? && Inv(cfg, Step(cfg, t.w, ev).value)
    requires EventInOrder(cfg, Prepared(cfg, t.w, ev), t.g, ev)
    ensures Telling(cfg, NextTraced(cfg, t, ev))
  {
    hide Inv, Step, SubsMatch, StampsMatch, EventInOrder, NewRowsTop, RowsSay, SameNames, Runnable, NextGrants, Noted;
    StepStamps(cfg, t, ev);
    StepRowsTop(cfg, t.w, ev);
    StepKeepsNames(cfg, t.w, ev);
    RowsSayOn(t.w.conv.engine, Step(cfg, t.w, ev).value.conv.engine, t.g, t.log);
  }

  lemma {:induction false} RunTells(cfg: Config, t: Traced, events: seq<Event>)
    requires Runnable(t.w) && Telling(cfg, t) && OneSided(t.w.conv.engine) && NoConflicts(cfg, t.w, events)
    requires InOrderThroughout(cfg, t, events) && Run(cfg, t.w, events).Done?
    ensures Telling(cfg, RunTraced(cfg, t, events))
    decreases |events|
  {
    hide Telling, Step, Inv, OneSided, EventOk, EventInOrder, Runnable, Prepared, NextGrants, Noted;
    if events != [] {
      TellingInv(cfg, t);
      StepKeeps(cfg, t.w, events[0]);
      StepTells(cfg, t, events[0]);
      RunTells(cfg, NextTraced(cfg, t, events[0]), events[1..]);
    }
  }

  lemma {:induction false} TellingInv(cfg: Config, t: Traced)
    requires Telling(cfg, t)
    ensures Inv(cfg, t.w) && RowsSay(t.w.conv.engine, t.log) && StampsMatch(t.w.conv.engine, t.g)
  {
  }

  lemma {:induction false} FinalTells(cfg: Config, t: Traced, ts: nat)
    requires Runnable(t.w) && Telling(cfg, t)
    ensures RowsSay(FinalTraced(cfg, t, ts).w.conv.engine, FinalTraced(cfg, t, ts).log)
  {
    hide Telling, Final, Inv, Runnable, RowsSay, StampsMatch, NewRowsTop, SameNames, Noted;
    TellingInv(cfg, t);
    FinalRowsTop(cfg, t.w, ts);
    FinalKeepsNames(cfg, t.w, ts);
    RowsSayOn(t.w.conv.engine, Final(cfg, t.w, ts).conv.engine, t.g, t.log);
  }

  function Untraced(): Traced {
    Traced(Initial(), [], [])
  }

  lemma {:induction false} InitialTells(cfg: Config)
    ensures Telling(cfg, Untraced()) && Runnable(Initial()) && OneSided(Initial().conv.engine)
  {
    hide Inv, Typed;
    InitialOk(cfg);
  }

  // In a run without side conflicts, of any contexts, in which every P that ends is the last on its lock:
  // the start of each locks_held row is the timestamp of the last P on that lock that was outstanding, in
  // any context, when the row was written.
  lemma {:induction false} StartsTellLastPs(cfg: Config, events: seq<Event>, ts: nat)
    requires Runnable(Initial()) && Run(cfg, Initial(), events).Done?
    requires NoConflicts(cfg, Initial(), events) && InOrderThroughout(cfg, Untraced(), events)
    ensures var f := FinalTraced(cfg, RunTraced(cfg, Untraced(), events), ts);
      f.w == Final(cfg, Run(cfg, Initial(), events).value, ts) && RowsSay(f.w.conv.engine, f.log)
  {
    hide Telling, Final, RunTraced, Run, Runnable, RowsSay, Initial, InOrderThroughout, NoConflicts, Noted;
    InitialTells(cfg);
    RunTells(cfg, Untraced(), events);
    FinalTells(cfg, RunTraced(cfg, Untraced(), events), ts);
  }

  // ----- one context -------------------------------------------------------------------------------------

  // Nothing but the Ps of one context, and those on a lock all on one side.
  lemma {:induction false} SingleIsUniform(e: Engine, h: Held, g: seq<Grant>, l: nat, ctx: int)
    requires InStep(e, ctx) && Matches(e, h) && SubsMatch(g, h) && l < |e.locks|
    ensures forall q, r :: q in g && r in g && q.sub.lock == r.sub.lock == l ==> q.ctx == r.ctx == ctx && q.sub == r.sub
  {
    hide Total, Typed, InCtx, LockOk;
    forall q, r | q in g && r in g && q.sub.lock == r.sub.lock == l
      ensures q.ctx == r.ctx == ctx && q.sub == r.sub
    {
      InTheContext(e, h, g, ctx, q);
      InTheContext(e, h, g, ctx, r);
      match q.sub.subLock { case ReaderLock => case WriterLock => }
      match r.sub.subLock { case ReaderLock => case WriterLock => }
    }
  }

  lemma {:induction false} InTheContext(e: Engine, h: Held, g: seq<Grant>, ctx: int, q: Grant)
    requires SingleCtx(e, ctx) && Matches(e, h) && SubsMatch(g, h) && q in g
    ensures q.ctx == ctx && Total(e)[q.sub] > 0
  {
    hide Total, InCtx;
    InCtxAre(g, q.ctx);
    assert q.sub in Proj(e.Stack(q.ctx));
    OnStackIffMember(e, q.ctx, q.sub);
    OnStackCounted(e, q.ctx, q.sub);
  }

  lemma {:induction false} SingleInOrder(e: Engine, h: Held, g: seq<Grant>, l: nat, op: LockOp, ctx: int)
    requires InStep(e, ctx) && Matches(e, h) && SubsMatch(g, h) && l < |e.locks|
    ensures InOrder(h, g, l, op, false, ctx)
  {
    hide InStep, SubsMatch, Matches, HolderOf, EndsLast, Forgotten;
    var x := Sub(l, SideOf(op));
    SingleIsUniform(e, h, g, l, ctx);
    UniformEndsLast(g, HolderOf(h, x, ctx), x);
    ForgottenAre(g, ctx, Other(x));
    UniformEndsLast(Forgotten(g, ctx, Other(x)), ctx, x);
    if LastOf(g, ctx, Other(x)) >= 0 {
      assert g[LastOf(g, ctx, Other(x))] in g;
    }
  }

  lemma {:induction false} SingleEventInOrder(cfg: Config, t: Traced, ev: Event, ctx: int)
    requires Runnable(t.w) && Telling(cfg, t) && InStep(t.w.conv.engine, ctx)
    requires ev.LockEvent? ==> !ev.recursive && cfg.Ctx(ev.ctx) == ctx
    ensures EventInOrder(cfg, Prepared(cfg, t.w, ev), t.g, ev)
  {
    hide Inv, Typed, InStep, SubsMatch, StampsMatch, InOrder, Flushed, RowsSay, EngineFor, Follows, Matches, OneSided, WrongSide,
      IdsInjective;
    if ev.LockEvent? {
      var p := Prepared(cfg, t.w, ev);
      FlushedKeeps(cfg, t.w, FlushArgs(ev).0, FlushArgs(ev).1);
      FlushedKeepsHeld(cfg, t.w, FlushArgs(ev).0, FlushArgs(ev).1);
      PreparedInStep(cfg, t.w, ev, ctx);
      if LockFor(cfg, p.conv, ev).Some? {
        TargetFollows(cfg, p, ev);
        TargetInStep(cfg, p.conv, ev, ctx);
        var e := EngineFor(cfg, p.conv, ev);
        assert Matches(e, p.held) by { FollowsMatches(e, p.held, p.conv.rows, p.seen); }
        SingleInOrder(e, p.held, t.g, LockFor(cfg, p.conv, ev).value, ev.op, ctx);
      }
    }
  }

  lemma {:induction false} FollowsMatches(e: Engine, h: Held, rows: seq<AccessRow>, seen: seq<Seen>)
    requires Follows(e, h, rows, seen)
    ensures Matches(e, h)
  {
    hide Accounted, Attributed;
  }

  lemma {:induction false} TargetInStep(cfg: Config, c: Conv, ev: Event, ctx: int)
    requires ev.LockEvent? && InStep(c.engine, ctx)
    ensures InStep(EngineFor(cfg, c, ev), ctx)
  {
    hide InStep, AllocLock;
    if TargetOf(cfg, c, ev).Created? {
      AllocInStep(c.engine, TargetOf(cfg, c, ev).kind, ev.address, ev.recursive, ctx);
    }
  }

  lemma {:induction false} RunTellsSingle(cfg: Config, t: Traced, events: seq<Event>, ctx: int)
    requires Runnable(t.w) && Telling(cfg, t) && InStep(t.w.conv.engine, ctx)
    requires OneContext(cfg, ctx, events) && Faithfully(cfg, t.w, events) && Run(cfg, t.w, events).Done?
    ensures Telling(cfg, RunTraced(cfg, t, events))
    decreases |events|
  {
    hide Telling, Step, Inv, InStep, EventFaithful, EventInOrder, Runnable, Prepared, NextGrants, Noted;
    if events != [] {
      TellingInv(cfg, t);
      StepKeepsSingle(cfg, t.w, events[0], ctx);
      StepInStep(cfg, t.w, events[0], ctx);
      SingleEventInOrder(cfg, t, events[0], ctx);
      StepTells(cfg, t, events[0]);
      assert forall i :: 0 <= i < |events[1..]| ==> events[1..][i] == events[i + 1];
      RunTellsSingle(cfg, NextTraced(cfg, t, events[0]), events[1..], ctx);
    }
  }

  // In one context without recursive locks it is enough that flushes are faithful.
  lemma {:induction false} OneContextStarts(cfg: Config, events: seq<Event>, ts: nat, ctx: int)
    requires Runnable(Initial()) && Run(cfg, Initial(), events).Done?
    requires OneContext(cfg, ctx, events) && Faithfully(cfg, Initial(), events)
    ensures var f := FinalTraced(cfg, RunTraced(cfg, Untraced(), events), ts);
      f.w == Final(cfg, Run(cfg, Initial(), events).value, ts) && RowsSay(f.w.conv.engine, f.log)
  {
    hide Telling, Final, RunTraced, Run, Runnable, RowsSay, Initial, Faithfully, OneContext, InStep, Noted, OneSided;
    InitialTells(cfg);
    InitialInStep(ctx);
    RunTellsSingle(cfg, Untraced(), events, ctx);
    FinalTells(cfg, RunTraced(cfg, Untraced(), events), ts);
  }

  // ----- exactly then --------------------------------------------------------------------------------------

  // The positions tell the outstanding Ps in every state of the run.
  ghost predicate TellsThroughout(cfg: Config, t: Traced, events: seq<Event>)
    requires Runnable(t.w)
    decreases |events|
  {
    && StampsMatch(t.w.conv.engine, t.g)
    && (events != [] && Step(cfg, t.w, events[0]).Done? ==> TellsThroughout(cfg, NextTraced(cfg, t, events[0]), events[1..]))
  }

  // Lock events have increasing timestamps.
  ghost predicate Ticking(g: seq<Grant>, events: seq<Event>) {
    && Increasing(g)
    && (forall q, i :: q in g && 0 <= i < |events| && events[i].LockEvent? ==> q.ts < events[i].ts)
    && (forall i, j :: 0 <= i < j < |events| && events[i].LockEvent? && events[j].LockEvent? ==> events[i].ts < events[j].ts)
  }

  lemma {:induction false} TickingIncreases(g: seq<Grant>, events: seq<Event>)
    requires Ticking(g, events)
    ensures Increasing(g)
  {
  }

  lemma {:induction false} TickingWith(g: seq<Grant>, own: seq<Grant>, q: Grant, events: seq<Event>)
    requires events != [] && events[0].LockEvent? && Ticking(g, events) && q.ts == events[0].ts
    requires Increasing(own) && forall r :: r in own ==> r in g
    ensures Ticking(own, events[1..]) && Ticking(own + [q], events[1..])
  {
    var ev, rest, more := events[0], events[1..], own + [q];
    assert forall i :: 0 <= i < |rest| ==> rest[i] == events[i + 1];
    forall i, j | 0 <= i < j < |more| ensures more[i].ts < more[j].ts {
      assert own[i] in own;
    }
  }

  lemma {:induction false} TickingPast(g: seq<Grant>, events: seq<Event>)
    requires events != [] && Ticking(g, events)
    ensures Ticking(g, events[1..])
  {
    assert forall i :: 0 <= i < |events[1..]| ==> events[1..][i] == events[i + 1];
  }

  lemma {:induction false} TickingOn(cfg: Config, w: World, g: seq<Grant>, events: seq<Event>)
    requires events != [] && Ticking(g, events)
    ensures Ticking(NextGrants(cfg, w, g, events[0]), events[1..])
  {
    hide Ended, Forgotten, HolderOf, LockFor, Ticking, Increasing;
    var ev := events[0];
    TickingPast(g, events);
    TickingIncreases(g, events);
    if ev.LockEvent? && LockFor(cfg, w.conv, ev).Some? {
      var x, ctx := Sub(LockFor(cfg, w.conv, ev).value, SideOf(ev.op)), cfg.Ctx(ev.ctx);
      var own := GrantBefore(g, x, ev.recursive, ctx);
      EndedIncreasing(g, HolderOf(w.held, x, ctx), x);
      ForgottenIncreasing(g, ctx, Other(x));
      ForgottenAre(g, ctx, Other(x));
      EndedIncreasing(Forgotten(g, ctx, Other(x)), ctx, x);
      TickingWith(g, own, Grant(ctx, x, ev.ts), events);
      TickingWith(g, Ended(g, HolderOf(w.held, x, ctx), x), Grant(ctx, x, ev.ts), events);
    }
  }

  // In a run without side conflicts and with increasing timestamps the positions tell the outstanding Ps
  // all the way if and only if every P that ends is the last on its lock.
  lemma {:induction false} TellsIffInOrder(cfg: Config, t: Traced, events: seq<Event>)
    requires Runnable(t.w) && Telling(cfg, t) && OneSided(t.w.conv.engine)
    requires NoConflicts(cfg, t.w, events) && Ticking(t.g, events)
    ensures TellsThroughout(cfg, t, events) <==> InOrderThroughout(cfg, t, events)
    decreases |events|
  {
    hide Telling, Step, Inv, OneSided, EventOk, EventInOrder, Runnable, Prepared, NextGrants, StampsMatch, Ticking, Noted, Increasing;
    TellingInv(cfg, t);
    if events != [] && Step(cfg, t.w, events[0]).Done? {
      assert Increasing(t.g) by { TickingIncreases(t.g, events); }
      StepKeeps(cfg, t.w, events[0]);
      StepStamps(cfg, t, events[0]);
      if EventInOrder(cfg, Prepared(cfg, t.w, events[0]), t.g, events[0]) {
        StepTells(cfg, t, events[0]);
        TickingOn(cfg, Prepared(cfg, t.w, events[0]), t.g, events);
        TellsIffInOrder(cfg, NextTraced(cfg, t, events[0]), events[1..]);
      }
    }
  }

  // ----- the order of starts -------------------------------------------------------------------------------

  // A TXN that has its rows gets no more.
  ghost predicate Settled(e: Engine, txn: nat, ids: set<int>) {
    IdsUnique(e) && Closed(e, txn) && HeldIds(e.heldRows, txn) == ids
  }

  lemma {:induction false} RenewalKeepsSettled(e: Engine, e': Engine, txn: nat, ids: set<int>)
    requires Settled(e, txn, ids) && Renewal(e, e')
    ensures Settled(e', txn, ids)
  {
    hide IdsUnique, Closed, HeldIds, WellKinded, RenewedOver, TornTxnRows, TornHeldRows, Places;
    var c, kept, keep, ts, ctxOld :| RenewsAt(e, e', c, kept, keep, ts, ctxOld);
    RenewKeepsIds(e, e', c, kept, keep, ts, ctxOld);
    ClosedAfter(e, e', c, keep, ts, ctxOld, txn);
    ClosedIds(e, c, keep, txn);
  }

  lemma {:induction false} SettledIsStable(txn: nat, ids: set<int>)
    ensures Stable((e: Engine) => Settled(e, txn, ids))
  {
    hide IdsUnique, HeldIds, Renewal, CountAccess, IdsInjective;
    forall e, e' | Settled(e, txn, ids) && SmallStep(e, e') ensures Settled(e', txn, ids) {
      SmallKeepsIds(e, e');
      if Renewal(e, e') {
        RenewalKeepsSettled(e, e', txn, ids);
      } else if LockStep(e, e') {
        assert e'.txnRows == e.txnRows && e'.heldRows == e.heldRows;
      } else {
        var ctx :| e' == CountAccess(e, ctx);
        CountFrame(e, ctx);
      }
    }
  }

  // So no row added later is about a TXN that had rows before.
  lemma {:induction false} NewRowsNewTxns(e: Engine, e': Engine, i: nat, j: nat)
    requires IdsUnique(e') && NewRowsTop(e, e') && i < |e.heldRows| <= j < |e'.heldRows|
    requires Settled(e', e.heldRows[i].txn, HeldIds(e.heldRows, e.heldRows[i].txn))
    ensures e'.heldRows[j].txn != e'.heldRows[i].txn
  {
    hide RowTop, Closed;
    var txn := e.heldRows[i].txn;
    assert e'.heldRows[..|e.heldRows|][i] == e.heldRows[i];
    var q := e'.heldRows[j];
    forall m | 0 <= m < |e.heldRows| ensures e.heldRows[m].txn != q.txn || e.heldRows[m].lockId != q.lockId {
      assert e'.heldRows[..|e.heldRows|][m] == e.heldRows[m];
    }
    assert q.txn == txn ==> q.lockId !in HeldIds(e.heldRows, txn);
    assert q.txn == txn ==> q.lockId in HeldIds(e'.heldRows, txn);
  }

  // The rows of one TXN are written at one moment.
  ghost predicate Logged(t: Traced) {
    var e := t.w.conv.engine;
    && IdsUnique(e) && |t.log| == |e.heldRows| && Increasing(t.g)
    && (forall i :: 0 <= i < |t.log| ==> Increasing(t.log[i]))
    && (forall i, j :: 0 <= i < j < |t.log| && e.heldRows[i].txn == e.heldRows[j].txn ==> t.log[i] == t.log[j])
  }

  lemma {:induction false} LoggedOn(t: Traced, w: World, g: seq<Grant>)
    requires Logged(t) && IdsUnique(w.conv.engine) && Increasing(g)
    requires NewRowsTop(t.w.conv.engine, w.conv.engine)
    requires forall i :: 0 <= i < |t.log| ==>
      var rows := t.w.conv.engine.heldRows; Settled(w.conv.engine, rows[i].txn, HeldIds(rows, rows[i].txn))
    ensures Logged(Traced(w, g, Noted(t.log, t.g, |w.conv.engine.heldRows|)))
  {
    hide IdsUnique, Settled, RowTop, Increasing;
    var e, e' := t.w.conv.engine, w.conv.engine;
    var log := Noted(t.log, t.g, |e'.heldRows|);
    forall i | 0 <= i < |t.log| ensures log[i] == t.log[i] && e'.heldRows[i] == e.heldRows[i] {
      assert log[..|t.log|][i] == t.log[i] && e'.heldRows[..|e.heldRows|][i] == e.heldRows[i];
    }
    forall i, j | 0 <= i < j < |log| && e'.heldRows[i].txn == e'.heldRows[j].txn ensures log[i] == log[j] {
      if i < |t.log| <= j {
        NewRowsNewTxns(e, e', i, j);
      }
    }
  }

  lemma {:induction false} RowsSettled(e: Engine, i: nat)
    requires IdsUnique(e) && i < |e.heldRows|
    ensures Settled(e, e.heldRows[i].txn, HeldIds(e.heldRows, e.heldRows[i].txn))
  {
    hide NoRepeats, DistinctRows, HeldIds;
  }

  lemma {:induction false} RunLogs(cfg: Config, t: Traced, events: seq<Event>)
    requires Runnable(t.w) && Logged(t) && Ticking(t.g, events) && Run(cfg, t.w, events).Done?
    ensures Logged(RunTraced(cfg, t, events))
    decreases |events|
  {
    hide Runnable, Step, Prepared, IdsUnique, Settled, Stable, NewRowsTop, NextGrants, Ticking, Increasing, Noted, Logged;
    if events != [] {
      var e, w' := t.w.conv.engine, Step(cfg, t.w, events[0]).value;
      LoggedIds(t);
      IdsStable();
      StepStays((e: Engine) => IdsUnique(e), cfg, t.w, events[0]);
      forall i | 0 <= i < |t.log|
        ensures Settled(w'.conv.engine, e.heldRows[i].txn, HeldIds(e.heldRows, e.heldRows[i].txn))
      {
        var txn, ids := e.heldRows[i].txn, HeldIds(e.heldRows, e.heldRows[i].txn);
        RowsSettled(e, i);
        SettledIsStable(txn, ids);
        StepStays((e: Engine) => Settled(e, txn, ids), cfg, t.w, events[0]);
      }
      StepRowsTop(cfg, t.w, events[0]);
      TickingOn(cfg, Prepared(cfg, t.w, events[0]), t.g, events);
      TickingIncreases(NextGrants(cfg, Prepared(cfg, t.w, events[0]), t.g, events[0]), events[1..]);
      LoggedOn(t, w', NextGrants(cfg, Prepared(cfg, t.w, events[0]), t.g, events[0]));
      RunLogs(cfg, NextTraced(cfg, t, events[0]), events[1..]);
    }
  }

  lemma {:induction false} LoggedIds(t: Traced)
    requires Logged(t)
    ensures IdsUnique(t.w.conv.engine) && |t.log| == |t.w.conv.engine.heldRows| && Increasing(t.g)
  {
    hide IdsUnique, Increasing;
  }

  lemma {:induction false} FinalLogs(cfg: Config, t: Traced, ts: nat)
    requires Runnable(t.w) && Logged(t)
    ensures Logged(FinalTraced(cfg, t, ts))
  {
    hide Runnable, Final, IdsUnique, Settled, Stable, NewRowsTop, Increasing, Noted, Logged;
    var e, w' := t.w.conv.engine, Final(cfg, t.w, ts);
    LoggedIds(t);
    IdsStable();
    FinalStays((e: Engine) => IdsUnique(e), cfg, t.w, ts);
    forall i | 0 <= i < |t.log|
      ensures Settled(w'.conv.engine, e.heldRows[i].txn, HeldIds(e.heldRows, e.heldRows[i].txn))
    {
      var txn, ids := e.heldRows[i].txn, HeldIds(e.heldRows, e.heldRows[i].txn);
      RowsSettled(e, i);
      SettledIsStable(txn, ids);
      FinalStays((e: Engine) => Settled(e, txn, ids), cfg, t.w, ts);
    }
    FinalRowsTop(cfg, t.w, ts);
    LoggedOn(t, w', t.g);
  }

  lemma {:induction false} InitialLogged()
    ensures Logged(Untraced())
  {
    hide Initial;
    InitialIds();
    assert Initial().conv.engine.heldRows == [] by { NoRowsAtFirst(); }
  }

  lemma {:induction false} NoRowsAtFirst()
    ensures Initial().conv.engine.heldRows == []
  {
  }

  // Two rows of one TXN: their starts are in the order in which the locks were taken first exactly if,
  // among the Ps outstanding then, neither lock was taken both before and after all Ps on the other.
  ghost predicate OrderTold(locks: seq<LockState>, r: HeldRow, q: HeldRow, g: seq<Grant>) {
    forall y, z :: Says(locks, y, r, g) && Says(locks, z, q, g) && y.lock != z.lock ==>
      ((r.start < q.start <==> FirstP(g, y.lock) < FirstP(g, z.lock))
       <==> !Encloses(g, y.lock, z.lock) && !Encloses(g, z.lock, y.lock))
  }

  lemma {:induction false} OrderIsTold(locks: seq<LockState>, r: HeldRow, q: HeldRow, g: seq<Grant>)
    requires Increasing(g)
    ensures OrderTold(locks, r, q, g)
  {
    hide OnLock, Encloses, Increasing;
    forall y, z | Says(locks, y, r, g) && Says(locks, z, q, g) && y.lock != z.lock
      ensures (r.start < q.start <==> FirstP(g, y.lock) < FirstP(g, z.lock))
         <==> !Encloses(g, y.lock, z.lock) && !Encloses(g, z.lock, y.lock)
    {
      FirstOrderIsLastOrder(g, y.lock, z.lock);
    }
  }

  // The order of starts, over whole runs.
  lemma {:induction false} StartsFollowFirstPs(cfg: Config, events: seq<Event>, ts: nat)
    requires Runnable(Initial()) && Run(cfg, Initial(), events).Done? && Ticking([], events)
    ensures var f := FinalTraced(cfg, RunTraced(cfg, Untraced(), events), ts);
      var rows := f.w.conv.engine.heldRows;
      |f.log| == |rows| && forall i, j :: 0 <= i < j < |rows| && rows[i].txn == rows[j].txn ==>
        f.log[i] == f.log[j] && OrderTold(f.w.conv.engine.locks, rows[i], rows[j], f.log[i])
  {
    hide Runnable, Run, RunTraced, FinalTraced, IdsUnique, Ticking, OrderTold, Initial;
    InitialLogged();
    RunLogs(cfg, Untraced(), events);
    FinalLogs(cfg, RunTraced(cfg, Untraced(), events), ts);
    var f := FinalTraced(cfg, RunTraced(cfg, Untraced(), events), ts);
    var rows := f.w.conv.engine.heldRows;
    forall i, j | 0 <= i < j < |rows| && rows[i].txn == rows[j].txn
      ensures f.log[i] == f.log[j] && OrderTold(f.w.conv.engine.locks, rows[i], rows[j], f.log[i])
    {
      OrderIsTold(f.w.conv.engine.locks, rows[i], rows[j], f.log[i]);
    }
  }
}
