// The reference model: per context, the list of sub-locks held.  No TXNs, no counters, no rows.
// The engine follows it without side conflicts, and with them as far as a flush is faithful.

module TxnReference {
  import opened TxnEngine
  import opened Wrappers
  import opened TxnAccounting
  import opened TxnAttribution
  import opened TxnConflict

  type Held = map<int, seq<Sub>>

  function HeldIn(h: Held, c: int): seq<Sub> {
    if c in h then h[c] else []
  }

  function Other(x: Sub): Sub {
    Sub(x.lock, if x.subLock.ReaderLock? then WriterLock else ReaderLock)
  }

  // A P appends its sub-lock.  What its context holds on the other side of the lock has missed its V
  // and is forgotten; a write lock that may only be held once replaces its earlier P.
  function RefAcquire(h: Held, x: Sub, recursive: bool, ctx: int): Held {
    var own := Without(HeldIn(h, ctx), Other(x));
    h[ctx := (if x.subLock.WriterLock? && !recursive then RemoveTop(own, x) else own) + [x]]
  }

  // A V ends the latest P of its sub-lock in its own context, else in the lowest context holding it.
  ghost function HolderOf(h: Held, x: Sub, ctx: int): int {
    var holders := set c | c in h && x in h[c];
    if x in HeldIn(h, ctx) then ctx
    else if exists c :: c in holders then Lowest(holders)
    else ctx
  }

  lemma {:induction false} HolderIs(h: Held, x: Sub, ctx: int)
    ensures var c := HolderOf(h, x, ctx);
      && (x in HeldIn(h, ctx) ==> c == ctx)
      && (x !in HeldIn(h, ctx) && (exists d :: x in HeldIn(h, d)) ==>
            x in HeldIn(h, c) && forall d :: d < c ==> x !in HeldIn(h, d))
      && ((forall d :: x !in HeldIn(h, d)) ==> c == ctx)
  {
    var holders := set c | c in h && x in h[c];
    forall d ensures d in holders <==> x in HeldIn(h, d) {}
    if d :| x in HeldIn(h, d) {
      assert d in holders;
    }
  }

  ghost function RefRelease(h: Held, x: Sub, ctx: int): Held {
    var c := HolderOf(h, x, ctx);
    h[c := RemoveTop(HeldIn(h, c), x)]
  }

  ghost function RefStep(h: Held, l: nat, op: LockOp, recursive: bool, ctx: int): Held {
    var x := Sub(l, SideOf(op));
    if IsAcquire(op) then RefAcquire(h, x, recursive, ctx) else RefRelease(h, x, ctx)
  }

  ghost predicate Matches(e: Engine, h: Held) {
    forall c: int :: Proj(e.Stack(c)) == HeldIn(h, c)
  }

  lemma {:induction false} StackAllHeld(e: Engine, c: int)
    requires Accounted(e)
    ensures WellKinded(e.locks, Proj(e.Stack(c))) && AllHeld(e.locks, e.Stack(c))
  {
    hide Accounted, WellKinded;
    AccountedStack(e, c);
    forall i | 0 <= i < |e.Stack(c)|
      ensures var lock := e.locks[Proj(e.Stack(c))[i].lock]; lock.IsHeld() && lock.lastNPos != []
    {
      EntriesAreHeld(e, c, i);
    }
  }

  lemma {:induction false} AccountedStack(e: Engine, c: int)
    requires Accounted(e)
    ensures WellKinded(e.locks, Proj(e.Stack(c)))
    ensures forall i :: 0 <= i < |e.Stack(c)| ==> Proj(e.Stack(c))[i].lock < |e.locks|
  {
    TypedStack(e, c);
  }

  lemma {:induction false} NotOnStack(p: seq<Sub>, x: Sub)
    requires x !in p
    ensures RemoveTop(p, x) == p
  {
  }

  // ----- P ------------------------------------------------------------------------------------

  lemma {:induction false} ReacquireFollows(e: Engine, h: Held, l: nat, ts: nat, ctx: int, rows: seq<AccessRow>,
      seen: seq<Seen>)
    requires Accounted(e) && Matches(e, h) && Attributed(e, rows, seen) && l < |e.locks|
    ensures var r := Reacquire(e, l, ts, ctx);
      && r.Done? && Attributed(r.value, rows, seen)
      && Matches(r.value, h[ctx := RemoveTop(HeldIn(h, ctx), Sub(l, WriterLock))])
  {
    hide Typed, Total, Attributed, AllHeld, Finish, RemoveTop;
    var x := Sub(l, WriterLock);
    ReacquireAccounted(e, l, ts, ctx);
    StackAllHeld(e, ctx);
    FinishKeepsAttribution(e, x, ts, ctx, ctx, rows, seen);
    FinishProj(e, x, ts, ctx, ctx);
    var e1, e' := Finish(e, x, ts, false, ctx, ctx), Reacquire(e, l, ts, ctx).value;
    assert SameButLocks(e1, e');
    LocksKeepAttribution(e1, e', rows, seen);
    forall c: int ensures Proj(e'.Stack(c)) == HeldIn(h[ctx := RemoveTop(HeldIn(h, ctx), x)], c) {
      assert c != ctx ==> e1.Stack(c) == e.Stack(c);
    }
  }

  lemma {:induction false} AfterAcquireFollows(e: Engine, h: Held, x: Sub, ts: nat, ctx: int, rows: seq<AccessRow>,
      seen: seq<Seen>)
    requires Accounted(e) && Matches(e, h) && Attributed(e, rows, seen)
    requires x.lock < |e.locks|
    ensures var e' := AfterAcquire(e, x, ts, ctx);
      Attributed(e', rows, seen) && Matches(e', h[ctx := HeldIn(h, ctx) + [x]])
  {
    hide Typed, Total, Attributed, AllHeld, RemoveTop;
    var e1 := SetLock(e, x.lock, CountUp(e.locks[x.lock], x.subLock, ts));
    LocksKeepAttribution(e, e1, rows, seen);
    StackAllHeld(e, ctx);
    CountUpAllHeld(e, x, ts, ctx);
    StartKeepsAttribution(e1, x, ts, ctx, rows, seen);
    StartProj(e1, x, ts, ctx);
    forall c: int ensures Proj(Start(e1, x, ts, ctx).Stack(c)) == HeldIn(h[ctx := HeldIn(h, ctx) + [x]], c) {
      assert c != ctx ==> Start(e1, x, ts, ctx).Stack(c) == e.Stack(c);
    }
  }

  lemma {:induction false} CountUpAllHeld(e: Engine, x: Sub, ts: nat, ctx: int)
    requires x.lock < |e.locks| && WellKinded(e.locks, Proj(e.Stack(ctx))) && AllHeld(e.locks, e.Stack(ctx))
    ensures var e1 := SetLock(e, x.lock, CountUp(e.locks[x.lock], x.subLock, ts));
      WellKinded(e1.locks, Proj(e1.Stack(ctx))) && AllHeld(e1.locks, e1.Stack(ctx))
  {
    var e1 := SetLock(e, x.lock, CountUp(e.locks[x.lock], x.subLock, ts));
    assert e1.Stack(ctx) == e.Stack(ctx);
    var p := Proj(e.Stack(ctx));
    forall i | 0 <= i < |p| ensures e1.locks[p[i].lock].IsHeld() && e1.locks[p[i].lock].lastNPos != [] {
      assert e.locks[p[i].lock].IsHeld() && e.locks[p[i].lock].lastNPos != [];
    }
  }

  lemma {:induction false} AcquireFollows(e: Engine, h: Held, x: Sub, ts: nat, ctx: int, rows: seq<AccessRow>,
      seen: seq<Seen>)
    requires Follows(e, h, rows, seen) && x.lock < |e.locks| && e.locks[x.lock].Permits(x.subLock)
    requires if x.subLock.ReaderLock? then e.locks[x.lock].writers == 0 else e.locks[x.lock].readers == 0
    ensures var r := Acquire(e, x, ts, ctx);
      && r.Done? && Attributed(r.value, rows, seen)
      && Matches(r.value, RefAcquire(h, x, e.locks[x.lock].recursive, ctx))
  {
    hide Typed, Total, WellKinded, Reacquire, AfterAcquire, FlushSide, Attributed, RemoveTop, Without, OnStack;
    AccountedStack(e, ctx);
    var l, lock := x.lock, e.locks[x.lock];
    assert LockOk(lock, Total(e)[Sub(l, ReaderLock)], Total(e)[Sub(l, WriterLock)]);
    var e1, h1 := e, h;
    UncountedNotHeld(e, h, Other(x), ctx);
    if x.subLock.WriterLock? && !lock.recursive {
      h1 := h[ctx := RemoveTop(HeldIn(h, ctx), x)];
      if lock.writers > 0 {
        ReacquireFollows(e, h, l, ts, ctx, rows, seen);
        ReacquireAccounted(e, l, ts, ctx);
        e1 := Reacquire(e, l, ts, ctx).value;
      } else {
        UncountedNotHeld(e, h, x, ctx);
        assert Matches(e, h1);
      }
    }
    assert BeforeAcquire(e, x, ts, ctx) == Done(e1);
    AfterAcquireFollows(e1, h1, x, ts, ctx, rows, seen);
    assert h1[ctx := HeldIn(h1, ctx) + [x]] == RefAcquire(h, x, lock.recursive, ctx);
  }

  lemma {:induction false} UncountedNotHeld(e: Engine, h: Held, x: Sub, ctx: int)
    requires Matches(e, h) && Total(e)[x] == 0
    ensures RemoveTop(HeldIn(h, ctx), x) == HeldIn(h, ctx)
    ensures Without(HeldIn(h, ctx), x) == HeldIn(h, ctx)
  {
    hide Total;
    OnStackIffMember(e, ctx, x);
    if OnStack(e, ctx, x) {
      OnStackCounted(e, ctx, x);
    }
    NotOnStack(HeldIn(h, ctx), x);
    WithoutNone(HeldIn(h, ctx), x);
  }

  // ----- V ------------------------------------------------------------------------------------

  // findTXN picks the context the reference model picks.
  lemma {:induction false} SameHolder(e: Engine, h: Held, x: Sub, ctx: int)
    requires Matches(e, h)
    ensures ReleaseCtx(e, x, ctx) == HolderOf(h, x, ctx)
  {
    var holders := set c | c in h && x in h[c];
    forall c ensures c in CtxsWith(e, x) <==> c in holders {
      OnStackIffMember(e, c, x);
      assert Proj(e.Stack(c)) == HeldIn(h, c);
    }
    assert CtxsWith(e, x) == holders;
    OnStackIffMember(e, ctx, x);
  }

  lemma {:induction false} FinishAndPopFollows(e: Engine, h: Held, x: Sub, ts: nat, c: int, ctx: int,
                            rows: seq<AccessRow>, seen: seq<Seen>)
    requires Accounted(e) && Matches(e, h) && Attributed(e, rows, seen)
    requires x.lock < |e.locks| && e.locks[x.lock].lastNPos != []
    requires WellKinded(e.locks, Proj(e.Stack(c)))
    ensures Attributed(FinishAndPop(e, x, ts, c, ctx), rows, seen)
    ensures Matches(FinishAndPop(e, x, ts, c, ctx), h[c := RemoveTop(HeldIn(h, c), x)])
  {
    hide Typed, Total, Attributed, AllHeld, Finish, RemoveTop, OnStack;
    StackAllHeld(e, c);
    FinishKeepsAttribution(e, x, ts, c, ctx, rows, seen);
    FinishProj(e, x, ts, c, ctx);
    var e1, e' := Finish(e, x, ts, false, c, ctx), FinishAndPop(e, x, ts, c, ctx);
    assert SameButLocks(e1, e');
    LocksKeepAttribution(e1, e', rows, seen);
    forall d: int ensures Proj(e'.Stack(d)) == HeldIn(h[c := RemoveTop(HeldIn(h, c), x)], d) {
      assert d != c ==> e1.Stack(d) == e.Stack(d);
    }
  }

  lemma {:induction false} ReleaseFollows(e: Engine, h: Held, x: Sub, ts: nat, ctx: int, rows: seq<AccessRow>,
      seen: seq<Seen>)
    requires Accounted(e) && Matches(e, h) && Attributed(e, rows, seen) && x.lock < |e.locks|
    ensures Attributed(Release(e, x, ts, ctx), rows, seen)
    ensures Matches(Release(e, x, ts, ctx), RefRelease(h, x, ctx))
  {
    hide Typed, Total, Attributed, FinishAndPop, ReleaseCtx, HolderOf, RemoveTop;
    var c := ReleaseCtx(e, x, ctx);
    SameHolder(e, h, x, ctx);
    var e1, h1 := e, h[c := RemoveTop(HeldIn(h, c), x)];
    AccountedStack(e, c);
    if e.locks[x.lock].lastNPos == [] {
      OutstandingIsCounted(e, x);
      UncountedNotHeld(e, h, x, c);
      assert Matches(e, h1);
    } else {
      FinishAndPopFollows(e, h, x, ts, c, ctx, rows, seen);
      e1 := FinishAndPop(e, x, ts, c, ctx);
      FinishAndPopLock(e, x, ts, c, ctx);
    }
    var e' := Release(e, x, ts, ctx);
    assert SameButLocks(e1, e');
    LocksKeepAttribution(e1, e', rows, seen);
    assert forall d: int :: e'.Stack(d) == e1.Stack(d);
  }

  // ----- every lock operation --------------------------------------------------------------------

  ghost predicate Follows(e: Engine, h: Held, rows: seq<AccessRow>, seen: seq<Seen>) {
    Accounted(e) && Matches(e, h) && Attributed(e, rows, seen)
  }

  lemma {:induction false} FlagsFollow(e: Engine, h: Held, l: nat, recursive: bool, rows: seq<AccessRow>, seen: seq<Seen>)
    requires Follows(e, h, rows, seen) && l < |e.locks|
    ensures Follows(SetFlags(e, l, recursive), h, rows, seen)
  {
    hide Typed, Total, Attributed;
    FlagsAccounted(e, l, recursive);
    LocksKeepAttribution(e, SetFlags(e, l, recursive), rows, seen);
    assert forall c: int :: SetFlags(e, l, recursive).Stack(c) == e.Stack(c);
  }

  lemma {:induction false} TransitionFollows(e: Engine, h: Held, l: nat, op: LockOp, recursive: bool, ts: nat, ctx: int,
                          rows: seq<AccessRow>, seen: seq<Seen>)
    requires Follows(e, h, rows, seen) && OneSided(e) && l < |e.locks|
    requires e.locks[l].Permits(SideOf(op)) && NoSideConflict(e.locks[l], op)
    ensures var r := Transition(e, l, op, recursive, ts, ctx);
      r.Done? && Follows(r.value, RefStep(h, l, op, recursive, ctx), rows, seen) && OneSided(r.value)
  {
    hide Typed, Total, Release, Acquire, Attributed, RefAcquire, RefRelease;
    var e0 := SetFlags(e, l, recursive);
    var x := Sub(l, SideOf(op));
    TransitionNoConflict(e, l, op, recursive, ts, ctx);
    FlagsFollow(e, h, l, recursive, rows, seen);
    AccountedStack(e0, ctx);
    if IsAcquire(op) {
      AcquireFollows(e0, h, x, ts, ctx, rows, seen);
    } else {
      ReleaseFollows(e0, h, x, ts, ctx, rows, seen);
    }
  }

  // ----- one context: a P that finds the other side held ---------------------------------------

  lemma {:induction false} FlushSideFollows(e: Engine, h: Held, x: Sub, ts: nat, ctx: int, rows: seq<AccessRow>,
      seen: seq<Seen>)
    requires Follows(e, h, rows, seen) && Exclusive(e) && SingleCtx(e, ctx) && x.lock < |e.locks|
    requires if x.subLock.ReaderLock? then NothingBeneath(e.Stack(ctx), x) else e.locks[x.lock].readers == 0
    requires WellKinded(e.locks, Proj(e.Stack(ctx)))
    ensures Attributed(FlushSide(e, x, ts, ctx), rows, seen)
    ensures Matches(FlushSide(e, x, ts, ctx), h[ctx := Without(HeldIn(h, ctx), x)])
  {
    hide Typed, Total, Attributed, Finish, OnStack, NothingBeneath, WellKinded, AllHeld, FlushedProj, Shielded, Without, Kept, KeepOf;
    var e1, e' := Finish(e, x, ts, true, ctx, ctx), FlushSide(e, x, ts, ctx);
    StackAllHeld(e, ctx);
    NoReadersBesides(e, x, ctx);
    FlushShielded(e.Stack(ctx), x);
    FinishKeepsAttributionIf(e, x, ts, true, ctx, ctx, rows, seen);
    FlushProj(e, x, ts, ctx);
    FlushedIsWithout(e.Stack(ctx), x);
    assert SameButLocks(e1, e');
    LocksKeepAttribution(e1, e', rows, seen);
    forall c: int ensures Proj(e'.Stack(c)) == HeldIn(h[ctx := Without(HeldIn(h, ctx), x)], c) {
      assert c != ctx ==> e1.Stack(c) == e.Stack(c);
    }
  }

  // A writer has its lock to itself.
  lemma {:induction false} NoReadersBesides(e: Engine, x: Sub, ctx: int)
    requires Accounted(e) && Exclusive(e) && SingleCtx(e, ctx) && x.lock < |e.locks|
    requires x.subLock.WriterLock? ==> e.locks[x.lock].readers == 0
    ensures x.subLock.WriterLock? ==>
      Sub(x.lock, ReaderLock) !in Proj(e.Stack(ctx)) && multiset(Proj(e.Stack(ctx)))[x] <= 1
  {
    hide Typed, Total;
    assert LockOk(e.locks[x.lock], Total(e)[Sub(x.lock, ReaderLock)], Total(e)[Sub(x.lock, WriterLock)]);
    SingleCtxTotal(e, ctx);
    assert Sub(x.lock, ReaderLock) in Proj(e.Stack(ctx)) <==> Sub(x.lock, ReaderLock) in multiset(Proj(e.Stack(ctx)));
  }

  // What a P of a single context asks of the stack: a writer that flushes readers finds no TXN with
  // accesses over a reader entry below the topmost one.
  predicate FlushOk(e: Engine, l: nat, op: LockOp, ctx: int)
    requires l < |e.locks|
  {
    op.PWrite? && e.locks[l].readers > 0 ==> NothingBeneath(e.Stack(ctx), Sub(l, ReaderLock))
  }

  lemma {:induction false} ConflictFollows(e: Engine, h: Held, x: Sub, ts: nat, ctx: int, rows: seq<AccessRow>,
      seen: seq<Seen>)
    requires Follows(e, h, rows, seen) && Exclusive(e) && SingleCtx(e, ctx)
    requires x.lock < |e.locks| && e.locks[x.lock].Permits(x.subLock) && !e.locks[x.lock].recursive
    requires if x.subLock.WriterLock? then e.locks[x.lock].readers > 0 && e.locks[x.lock].writers == 0
                && NothingBeneath(e.Stack(ctx), Sub(x.lock, ReaderLock))
             else e.locks[x.lock].readers == 0 && e.locks[x.lock].writers > 0
    ensures var r := Acquire(e, x, ts, ctx);
      && r.Done? && Attributed(r.value, rows, seen) && Matches(r.value, RefAcquire(h, x, false, ctx))
  {
    hide Typed, Total, WellKinded, AfterAcquire, FlushSide, Attributed, RemoveTop, Without, OnStack, NothingBeneath;
    AccountedStack(e, ctx);
    var l, other := x.lock, Other(x);
    assert LockOk(e.locks[l], Total(e)[Sub(l, ReaderLock)], Total(e)[Sub(l, WriterLock)]);
    FlushSideFollows(e, h, other, ts, ctx, rows, seen);
    FlushSideSingleCtx(e, other, ts, ctx);
    var e1, h1 := FlushSide(e, other, ts, ctx), h[ctx := Without(HeldIn(h, ctx), other)];
    UncountedNotHeld(e1, h1, x, ctx);
    assert BeforeAcquire(e, x, ts, ctx) == Done(e1);
    AfterAcquireFollows(e1, h1, x, ts, ctx, rows, seen);
    assert h1[ctx := HeldIn(h1, ctx) + [x]] == RefAcquire(h, x, false, ctx);
  }

  // One context without recursive locks: every operation that succeeds does the step of the reference,
  // as long as a writer's flush is faithful.
  lemma {:induction false} TransitionFollowsSingle(e: Engine, h: Held, l: nat, op: LockOp, ts: nat, ctx: int,
      rows: seq<AccessRow>, seen: seq<Seen>)
    requires Follows(e, h, rows, seen) && Exclusive(e) && SingleCtx(e, ctx) && l < |e.locks|
    requires FlushOk(e, l, op, ctx) && Transition(e, l, op, false, ts, ctx).Done?
    ensures var e' := Transition(e, l, op, false, ts, ctx).value;
      Follows(e', RefStep(h, l, op, false, ctx), rows, seen) && Exclusive(e') && SingleCtx(e', ctx)
  {
    hide Typed, Total, Release, Acquire, Attributed, RefAcquire, RefRelease, NothingBeneath;
    var e0 := SetFlags(e, l, false);
    var x := Sub(l, SideOf(op));
    TransitionSingleCtx(e, l, op, ts, ctx);
    FlagsFollow(e, h, l, false, rows, seen);
    SameStacksTotal(e, e0);
    AccountedStack(e0, ctx);
    assert forall c: int :: e0.Stack(c) == e.Stack(c);
    if !IsAcquire(op) {
      ReleaseFollows(e0, h, x, ts, ctx, rows, seen);
    } else if NoSideConflict(e.locks[l], op) {
      AcquireFollows(e0, h, x, ts, ctx, rows, seen);
    } else {
      ConflictFollows(e0, h, x, ts, ctx, rows, seen);
    }
  }
}
