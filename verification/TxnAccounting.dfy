// The accounting between a lock's counters, its stack of positions and its TXNs on all stacks.

module TxnAccounting {
  import opened TxnEngine

  // ----- how often a sub-lock is on the stacks of all contexts --------------------------------

  function At(m: map<int, seq<Txn>>, c: int): seq<Txn> {
    if c in m then m[c] else []
  }

  ghost function TotalOver(cs: set<int>, m: map<int, seq<Txn>>): multiset<Sub>
    decreases cs
  {
    if exists c :: c in cs then
      var c := Lowest(cs);
      multiset(Proj(At(m, c))) + TotalOver(cs - {c}, m)
    else multiset{}
  }

  ghost function Total(e: Engine): multiset<Sub> {
    TotalOver(e.stacks.Keys, e.stacks)
  }

  lemma {:induction false} TotalSplit(cs: set<int>, m: map<int, seq<Txn>>, c: int)
    requires c in cs
    ensures TotalOver(cs, m) == multiset(Proj(At(m, c))) + TotalOver(cs - {c}, m)
    decreases cs
  {
    var low := Lowest(cs);
    if c != low {
      TotalSplit(cs - {low}, m, c);
      TotalSplit(cs - {c}, m, low);
      assert cs - {low} - {c} == cs - {c} - {low};
    }
  }

  lemma {:induction false} TotalFrame(cs: set<int>, m: map<int, seq<Txn>>, m': map<int, seq<Txn>>)
    requires forall c :: c in cs ==> At(m, c) == At(m', c)
    ensures TotalOver(cs, m) == TotalOver(cs, m')
    decreases cs
  {
    if exists c :: c in cs {
      TotalFrame(cs - {Lowest(cs)}, m, m');
    }
  }

  lemma {:induction false} TotalUpdate(m: map<int, seq<Txn>>, c: int, s: seq<Txn>)
    ensures multiset(Proj(At(m, c))) <= TotalOver(m.Keys, m)
    ensures TotalOver(m[c := s].Keys, m[c := s])
         == TotalOver(m.Keys, m) - multiset(Proj(At(m, c))) + multiset(Proj(s))
  {
    var m' := m[c := s];
    var others := m.Keys - {c};
    assert m'.Keys - {c} == others;
    TotalSplit(m'.Keys, m', c);
    TotalFrame(others, m, m');
    if c in m {
      TotalSplit(m.Keys, m, c);
    } else {
      assert others == m.Keys;
    }
  }

  lemma {:induction false} TotalMember(cs: set<int>, m: map<int, seq<Txn>>, x: Sub)
    ensures x in TotalOver(cs, m) <==> exists c :: c in cs && x in Proj(At(m, c))
    decreases cs
  {
    if exists c :: c in cs {
      var low := Lowest(cs);
      TotalMember(cs - {low}, m, x);
      assert x in Proj(At(m, low)) <==> x in multiset(Proj(At(m, low)));
      forall c | c in cs && x in Proj(At(m, c)) ensures x in TotalOver(cs, m) {
        assert c == low || c in cs - {low};
      }
    }
  }

  lemma {:induction false} OnStackIffMember(e: Engine, c: int, x: Sub)
    ensures OnStack(e, c, x) <==> x in Proj(e.Stack(c))
  {
    var p := Proj(e.Stack(c));
    var k := TopMatch(p, x);
    if x in p {
      var i :| 0 <= i < |p| && p[i] == x;
      assert i <= k;
    }
  }

  // A sub-lock counted in the total is found by findTXN.
  lemma {:induction false} CountedIsFound(e: Engine, x: Sub, ctx: int)
    ensures x in Total(e) <==> OnStack(e, ReleaseCtx(e, x, ctx), x)
  {
    TotalMember(e.stacks.Keys, e.stacks, x);
    forall c ensures OnStack(e, c, x) <==> c in e.stacks && x in Proj(At(e.stacks, c)) {
      OnStackIffMember(e, c, x);
    }
    forall c | OnStack(e, c, x) ensures c in CtxsWith(e, x) {}
  }

  // ----- finishTXN refines "remove the topmost match" -----------------------------------------

  lemma {:induction false} RemoveTopCount(p: seq<Sub>, x: Sub)
    ensures multiset(RemoveTop(p, x)) == multiset(p) - multiset{x}
  {
    var k := TopMatch(p, x);
    if k >= 0 {
      assert p == p[..k] + [x] + p[k + 1..];
    } else {
      assert x !in multiset(p);
    }
  }

  lemma {:induction false} FinishedProj(s: seq<Txn>, x: Sub, ts: nat, ctx: int, next: nat)
    ensures Proj(FinishedStack(s, x, ts, false, ctx, next)) == RemoveTop(Proj(s), x)
  {
    var k := TopMatch(Proj(s), x);
    var r := FinishedStack(s, x, ts, false, ctx, next);
    assert |r| == |RemoveTop(Proj(s), x)|;
    forall i | 0 <= i < |r| ensures Proj(r)[i] == RemoveTop(Proj(s), x)[i] {}
  }

  lemma {:induction false} TypedStack(e: Engine, c: int)
    requires Typed(e)
    ensures WellKinded(e.locks, Proj(e.Stack(c)))
  {
  }

  // One stack of e is replaced.
  predicate NewStack(e: Engine, e': Engine, c: int) {
    e'.locks == e.locks && c in e'.stacks && e'.stacks == e.stacks[c := e'.stacks[c]]
  }

  // Replacing one stack by entries for the same locks keeps everything typed.
  lemma {:induction false} NewStackTyped(e: Engine, e': Engine, c: int)
    requires Typed(e) && NewStack(e, e', c)
    requires WellKinded(e.locks, Proj(e'.Stack(c)))
    ensures Typed(e')
  {
    forall d: int ensures WellKinded(e'.locks, Proj(e'.Stack(d))) {
      assert d != c ==> e'.Stack(d) == e.Stack(d);
      assert WellKinded(e.locks, Proj(e.Stack(d)));
    }
  }

  lemma {:induction false} NewStackTotal(e: Engine, e': Engine, c: int)
    requires NewStack(e, e', c)
    ensures multiset(Proj(e.Stack(c))) <= Total(e)
    ensures Total(e') == Total(e) - multiset(Proj(e.Stack(c))) + multiset(Proj(e'.Stack(c)))
  {
    TotalUpdate(e.stacks, c, e'.stacks[c]);
    assert At(e.stacks, c) == e.Stack(c);
  }

  lemma {:induction false} FinishProj(e: Engine, x: Sub, ts: nat, c: int, ctxOld: int)
    requires WellKinded(e.locks, Proj(e.Stack(c)))
    ensures NewStack(e, Finish(e, x, ts, false, c, ctxOld), c)
    ensures Proj(Finish(e, x, ts, false, c, ctxOld).Stack(c)) == RemoveTop(Proj(e.Stack(c)), x)
  {
    FinishedProj(e.Stack(c), x, ts, c, e.nextTxnId);
  }

  lemma {:induction false} RemoveTopKinded(locks: seq<LockState>, p: seq<Sub>, x: Sub)
    requires WellKinded(locks, p)
    ensures WellKinded(locks, RemoveTop(p, x))
  {
    hide TopMatch;
  }

  lemma {:induction false} FinishTyped(e: Engine, x: Sub, ts: nat, c: int, ctxOld: int)
    requires Typed(e)
    ensures Typed(Finish(e, x, ts, false, c, ctxOld))
  {
    hide Typed, Finish, Proj, RemoveTop;
    TypedStack(e, c);
    RemoveTopKinded(e.locks, Proj(e.Stack(c)), x);
    FinishProj(e, x, ts, c, ctxOld);
    NewStackTyped(e, Finish(e, x, ts, false, c, ctxOld), c);
  }

  lemma {:induction false} OneLess(t: multiset<Sub>, p: multiset<Sub>, x: Sub)
    requires p <= t
    ensures t - p + (p - multiset{x}) == if x in p then t - multiset{x} else t
  {
  }

  lemma {:induction false} FinishTotal(e: Engine, x: Sub, ts: nat, c: int, ctxOld: int)
    requires Typed(e)
    ensures Total(Finish(e, x, ts, false, c, ctxOld)) == if OnStack(e, c, x) then Total(e) - multiset{x} else Total(e)
  {
    hide Typed, Finish, Total, OnStack, RemoveTop;
    TypedStack(e, c);
    FinishProj(e, x, ts, c, ctxOld);
    NewStackTotal(e, Finish(e, x, ts, false, c, ctxOld), c);
    RemoveTopCount(Proj(e.Stack(c)), x);
    OnStackIffMember(e, c, x);
    OneLess(Total(e), multiset(Proj(e.Stack(c))), x);
  }

  lemma {:induction false} WithoutReadersCount(s: seq<Txn>, lock: nat)
    ensures multiset(Proj(WithoutReaders(s, lock))) == multiset(Proj(s))[Sub(lock, ReaderLock) := 0]
  {
    if s != [] {
      WithoutReadersCount(s[1..], lock);
      assert Proj(s) == [SubOf(s[0])] + Proj(s[1..]);
      if SubOf(s[0]) != Sub(lock, ReaderLock) {
        assert Proj([s[0]] + WithoutReaders(s[1..], lock)) == [SubOf(s[0])] + Proj(WithoutReaders(s[1..], lock));
      }
    }
  }

  // finishTXN with removeReader: below a match, every reader entry of its lock goes as well.
  function FlushedProj(s: seq<Txn>, x: Sub): seq<Sub> {
    var k := TopMatch(Proj(s), x);
    if k < 0 then Proj(s) else Proj(WithoutReaders(s[..k], x.lock)) + Proj(s)[k + 1..]
  }

  lemma {:induction false} FlushedStackProj(s: seq<Txn>, x: Sub, ts: nat, ctx: int, next: nat)
    ensures Proj(FinishedStack(s, x, ts, true, ctx, next)) == FlushedProj(s, x)
  {
    var k := TopMatch(Proj(s), x);
    if k < 0 {
      assert Proj(Restarted(s, ts, ctx, next)) == Proj(s);
    } else {
      var below := WithoutReaders(s[..k], x.lock);
      var above := Restarted(s[k + 1..], ts, ctx, next);
      assert Proj(below + above) == Proj(below) + Proj(above);
      assert Proj(above) == Proj(s)[k + 1..];
    }
  }

  lemma {:induction false} FlushProj(e: Engine, x: Sub, ts: nat, c: int)
    requires WellKinded(e.locks, Proj(e.Stack(c)))
    ensures NewStack(e, Finish(e, x, ts, true, c, c), c)
    ensures Proj(Finish(e, x, ts, true, c, c).Stack(c)) == FlushedProj(e.Stack(c), x)
  {
    FlushedStackProj(e.Stack(c), x, ts, c, e.nextTxnId);
  }

  lemma {:induction false} FlushedCount(s: seq<Txn>, x: Sub)
    ensures var p, q := multiset(Proj(s)), multiset(FlushedProj(s, x));
      && q <= p
      && (x !in Proj(s) ==> q == p)
      && (x in Proj(s) && x.subLock.ReaderLock? ==> q == p[x := 0])
      && (x in Proj(s) && Sub(x.lock, ReaderLock) !in Proj(s) ==> q == p - multiset{x})
  {
    hide WithoutReaders;
    var k := TopMatch(Proj(s), x);
    if k >= 0 {
      var a, b := Proj(s)[..k], Proj(s)[k + 1..];
      WithoutReadersCount(s[..k], x.lock);
      assert Proj(s[..k]) == a;
      assert Proj(s) == a + [x] + b;
      assert x !in b;
      FlushedMultisets(multiset(a), multiset(b), x);
    }
  }

  lemma {:induction false} FlushedMultisets(a: multiset<Sub>, b: multiset<Sub>, x: Sub)
    requires x !in b
    ensures var r := Sub(x.lock, ReaderLock);
      var p, q := a + multiset{x} + b, a[r := 0] + b;
      && q <= p
      && (x.subLock.ReaderLock? ==> q == p[x := 0])
      && (r !in p ==> q == p - multiset{x})
  {
  }

  lemma {:induction false} SubsetWellKinded(locks: seq<LockState>, p: seq<Sub>, q: seq<Sub>)
    requires WellKinded(locks, p) && multiset(q) <= multiset(p)
    ensures WellKinded(locks, q)
  {
    forall i | 0 <= i < |q| ensures q[i].lock < |locks| && locks[q[i].lock].Permits(q[i].subLock) {
      assert q[i] in multiset(q);
      assert q[i] in p;
    }
  }

  lemma {:induction false} FlushTyped(e: Engine, x: Sub, ts: nat, c: int)
    requires Typed(e)
    ensures Typed(Finish(e, x, ts, true, c, c))
  {
    FlushProj(e, x, ts, c);
    FlushedCount(e.Stack(c), x);
    SubsetWellKinded(e.locks, Proj(e.Stack(c)), FlushedProj(e.Stack(c), x));
    NewStackTyped(e, Finish(e, x, ts, true, c, c), c);
  }

  lemma {:induction false} FlushTotal(e: Engine, x: Sub, ts: nat, c: int)
    requires Typed(e)
    ensures Total(Finish(e, x, ts, true, c, c))
         == Total(e) - multiset(Proj(e.Stack(c))) + multiset(FlushedProj(e.Stack(c), x))
  {
    FlushProj(e, x, ts, c);
    NewStackTotal(e, Finish(e, x, ts, true, c, c), c);
  }

  lemma {:induction false} StartProj(e: Engine, x: Sub, ts: nat, ctx: int)
    ensures NewStack(e, Start(e, x, ts, ctx), ctx)
    ensures Proj(Start(e, x, ts, ctx).Stack(ctx)) == Proj(e.Stack(ctx)) + [x]
  {
    assert Proj(Start(e, x, ts, ctx).Stack(ctx)) == Proj(e.Stack(ctx)) + [x];
  }

  lemma {:induction false} StartTyped(e: Engine, x: Sub, ts: nat, ctx: int)
    requires Typed(e) && x.lock < |e.locks| && e.locks[x.lock].Permits(x.subLock)
    ensures Typed(Start(e, x, ts, ctx))
  {
    StartProj(e, x, ts, ctx);
    NewStackTyped(e, Start(e, x, ts, ctx), ctx);
  }

  lemma {:induction false} StartTotal(e: Engine, x: Sub, ts: nat, ctx: int)
    ensures Total(Start(e, x, ts, ctx)) == Total(e) + multiset{x}
  {
    StartProj(e, x, ts, ctx);
    NewStackTotal(e, Start(e, x, ts, ctx), ctx);
  }

  // ----- the invariants ----------------------------------------------------------------------

  predicate LockOk(lock: LockState, readerTxns: nat, writerTxns: nat) {
    && |lock.lastNPos| == readerTxns + writerTxns
    && lock.readers == readerTxns
    && lock.writers >= writerTxns
  }

  ghost predicate Accounted(e: Engine) {
    && Typed(e)
    && forall l :: 0 <= l < |e.locks| ==>
         LockOk(e.locks[l], Total(e)[Sub(l, ReaderLock)], Total(e)[Sub(l, WriterLock)])
  }

  // No lock is held on both sides: what "no side conflict" keeps.
  predicate OneSided(e: Engine) {
    forall l :: 0 <= l < |e.locks| ==> e.locks[l].readers == 0 || e.locks[l].writers == 0
  }

  // What a single context without recursive locks keeps.
  ghost predicate Exclusive(e: Engine) {
    forall l :: 0 <= l < |e.locks| ==>
      && Total(e)[Sub(l, WriterLock)] <= 1
      && (Total(e)[Sub(l, ReaderLock)] == 0 || Total(e)[Sub(l, WriterLock)] == 0)
  }

  // The acquisition does not find the other side of the lock held.
  predicate NoSideConflict(lock: LockState, op: LockOp) {
    && (op.PWrite? ==> lock.readers == 0)
    && (op.PRead? ==> lock.writers == 0)
  }

  // ----- every transition keeps them ----------------------------------------------------------

  // Only lock l has changed, together with the number of its entries.
  predicate OnlyLock(e: Engine, e': Engine, l: nat)
    requires l < |e.locks|
  {
    && |e'.locks| == |e.locks|
    && e'.locks[l].kind == e.locks[l].kind
    && forall m :: 0 <= m < |e.locks| && m != l ==> e'.locks[m] == e.locks[m]
  }

  lemma {:induction false} OneLockAccounted(e: Engine, e': Engine, l: nat)
    requires Accounted(e) && Typed(e') && l < |e.locks| && OnlyLock(e, e', l)
    requires forall y: Sub :: y.lock != l ==> Total(e')[y] == Total(e)[y]
    requires LockOk(e'.locks[l], Total(e')[Sub(l, ReaderLock)], Total(e')[Sub(l, WriterLock)])
    ensures Accounted(e')
  {
    forall m | 0 <= m < |e'.locks|
      ensures LockOk(e'.locks[m], Total(e')[Sub(m, ReaderLock)], Total(e')[Sub(m, WriterLock)])
    {
      assert m != l ==> LockOk(e.locks[m], Total(e)[Sub(m, ReaderLock)], Total(e)[Sub(m, WriterLock)]);
    }
  }

  lemma {:induction false} SetLockTyped(e: Engine, l: nat, lock: LockState)
    requires Typed(e) && l < |e.locks| && lock.kind == e.locks[l].kind
    ensures Typed(SetLock(e, l, lock))
  {
    KindsKeepTyped(e, SetLock(e, l, lock));
  }

  lemma {:induction false} SameStacksTotal(e: Engine, e': Engine)
    requires e'.stacks == e.stacks
    ensures Total(e') == Total(e)
  {
  }

  lemma {:induction false} FlagsAccounted(e: Engine, l: nat, recursive: bool)
    requires Accounted(e) && l < |e.locks|
    ensures Accounted(SetFlags(e, l, recursive))
  {
    SetLockTyped(e, l, e.locks[l].(recursive := recursive));
    assert LockOk(e.locks[l], Total(e)[Sub(l, ReaderLock)], Total(e)[Sub(l, WriterLock)]);
    OneLockAccounted(e, SetFlags(e, l, recursive), l);
  }

  // Forgetting the position of a finished TXN.
  lemma {:induction false} FinishAndPopLock(e: Engine, x: Sub, ts: nat, c: int, ctx: int)
    requires Typed(e) && x.lock < |e.locks| && e.locks[x.lock].lastNPos != []
    ensures var e' := FinishAndPop(e, x, ts, c, ctx);
      && OnlyLock(e, e', x.lock)
      && e'.locks[x.lock] ==
           if OnStack(e, c, x) then e.locks[x.lock].(lastNPos := Pop(e.locks[x.lock].lastNPos)) else e.locks[x.lock]
  {
  }

  lemma {:induction false} FinishAndPopStacks(e: Engine, x: Sub, ts: nat, c: int, ctx: int)
    requires Typed(e) && x.lock < |e.locks| && e.locks[x.lock].lastNPos != []
    ensures FinishAndPop(e, x, ts, c, ctx).stacks == Finish(e, x, ts, false, c, ctx).stacks
  {
  }

  lemma {:induction false} FinishAndPopTyped(e: Engine, x: Sub, ts: nat, c: int, ctx: int)
    requires Typed(e) && x.lock < |e.locks| && e.locks[x.lock].lastNPos != []
    ensures Typed(FinishAndPop(e, x, ts, c, ctx))
  {
    FinishTyped(e, x, ts, c, ctx);
    FinishAndPopStacks(e, x, ts, c, ctx);
    FinishAndPopLock(e, x, ts, c, ctx);
    KindsKeepTyped(Finish(e, x, ts, false, c, ctx), FinishAndPop(e, x, ts, c, ctx));
  }

  lemma {:induction false} FinishAndPopTotal(e: Engine, x: Sub, ts: nat, c: int, ctx: int)
    requires Typed(e) && x.lock < |e.locks| && e.locks[x.lock].lastNPos != []
    ensures Total(FinishAndPop(e, x, ts, c, ctx)) == if OnStack(e, c, x) then Total(e) - multiset{x} else Total(e)
  {
    FinishTotal(e, x, ts, c, ctx);
    FinishAndPopStacks(e, x, ts, c, ctx);
  }

  lemma {:induction false} OnStackCounted(e: Engine, c: int, x: Sub)
    requires OnStack(e, c, x)
    ensures Total(e)[x] > 0
  {
    OnStackIffMember(e, c, x);
    assert c in e.stacks && e.Stack(c) == At(e.stacks, c);
    TotalMember(e.stacks.Keys, e.stacks, x);
  }

  lemma {:induction false} ReacquireAccounted(e: Engine, l: nat, ts: nat, ctx: int)
    requires Accounted(e) && l < |e.locks|
    ensures var r := Reacquire(e, l, ts, ctx);
      && r.Done? && Accounted(r.value) && OnlyLock(e, r.value, l)
      && r.value.locks[l].readers == e.locks[l].readers
      && r.value.locks[l].writers == e.locks[l].writers
      && Total(r.value) == (if OnStack(e, ctx, Sub(l, WriterLock)) then Total(e) - multiset{Sub(l, WriterLock)} else Total(e))
  {
    var x := Sub(l, WriterLock);
    assert LockOk(e.locks[l], Total(e)[Sub(l, ReaderLock)], Total(e)[Sub(l, WriterLock)]);
    if OnStack(e, ctx, x) {
      OnStackCounted(e, ctx, x);
      FinishAndPopLock(e, x, ts, ctx, ctx);
      FinishAndPopTyped(e, x, ts, ctx, ctx);
      FinishAndPopTotal(e, x, ts, ctx, ctx);
      assert Reacquire(e, l, ts, ctx) == Done(FinishAndPop(e, x, ts, ctx, ctx));
      OneLockAccounted(e, FinishAndPop(e, x, ts, ctx, ctx), l);
    } else {
      FinishTyped(e, x, ts, ctx, ctx);
      FinishTotal(e, x, ts, ctx, ctx);
      OneLockAccounted(e, Finish(e, x, ts, false, ctx, ctx), l);
    }
  }

  lemma {:induction false} AfterAcquireAccounted(e: Engine, x: Sub, ts: nat, ctx: int)
    requires Accounted(e) && x.lock < |e.locks| && e.locks[x.lock].Permits(x.subLock)
    ensures var e' := AfterAcquire(e, x, ts, ctx);
      Accounted(e') && OnlyLock(e, e', x.lock) && Total(e') == Total(e) + multiset{x}
  {
    hide Typed, Total;
    var l := x.lock;
    assert LockOk(e.locks[l], Total(e)[Sub(l, ReaderLock)], Total(e)[Sub(l, WriterLock)]);
    var e1 := SetLock(e, l, CountUp(e.locks[l], x.subLock, ts));
    SetLockTyped(e, l, CountUp(e.locks[l], x.subLock, ts));
    StartTyped(e1, x, ts, ctx);
    StartTotal(e1, x, ts, ctx);
    SameStacksTotal(e, e1);
    assert Total(Start(e1, x, ts, ctx)) == Total(e) + multiset{x};
    match x.subLock { case ReaderLock => case WriterLock => }
    OneLockAccounted(e, Start(e1, x, ts, ctx), l);
  }

  // The last step of a V: the counter goes down, the stacks stay.
  lemma {:induction false} CountDownAccounted(e: Engine, e1: Engine, x: Sub)
    requires Accounted(e) && Typed(e1) && x.lock < |e.locks| && OnlyLock(e, e1, x.lock)
    requires Total(e1) == Total(e) - multiset{x}
    requires e1.locks[x.lock].readers == e.locks[x.lock].readers && e1.locks[x.lock].writers == e.locks[x.lock].writers
    requires |e1.locks[x.lock].lastNPos| == |e.locks[x.lock].lastNPos| - (if x in Total(e) then 1 else 0)
    ensures Accounted(SetLock(e1, x.lock, CountDown(e1.locks[x.lock], x.subLock)))
  {
    hide Typed, Total;
    var l := x.lock;
    var e' := SetLock(e1, l, CountDown(e1.locks[l], x.subLock));
    assert LockOk(e.locks[l], Total(e)[Sub(l, ReaderLock)], Total(e)[Sub(l, WriterLock)]);
    SetLockTyped(e1, l, CountDown(e1.locks[l], x.subLock));
    SameStacksTotal(e1, e');
    OneLockAccounted(e, e', l);
  }

  lemma {:induction false} OutstandingIsCounted(e: Engine, x: Sub)
    requires Accounted(e) && x.lock < |e.locks| && e.locks[x.lock].lastNPos == []
    ensures x !in Total(e)
  {
    hide Typed, Total;
    assert LockOk(e.locks[x.lock], Total(e)[Sub(x.lock, ReaderLock)], Total(e)[Sub(x.lock, WriterLock)]);
    match x.subLock { case ReaderLock => case WriterLock => }
  }

  // A V takes x off the stack of the context that has it, if any has.
  lemma {:induction false} ReleaseAccounted(e: Engine, x: Sub, ts: nat, ctx: int)
    requires Accounted(e) && x.lock < |e.locks|
    ensures Accounted(Release(e, x, ts, ctx))
    ensures Total(Release(e, x, ts, ctx)) == Total(e) - multiset{x}
    ensures OnlyLock(e, Release(e, x, ts, ctx), x.lock)
  {
    hide Typed, Total, WellKinded, ReleaseCtx, FinishAndPop;
    var l := x.lock;
    var e1 := e;
    if e.locks[l].lastNPos == [] {
      OutstandingIsCounted(e, x);
    } else {
      var c := ReleaseCtx(e, x, ctx);
      TypedStack(e, c);
      e1 := FinishAndPop(e, x, ts, c, ctx);
      CountedIsFound(e, x, ctx);
      FinishAndPopLock(e, x, ts, c, ctx);
      FinishAndPopTyped(e, x, ts, c, ctx);
      FinishAndPopTotal(e, x, ts, c, ctx);
    }
    assert Total(e1) == Total(e) - multiset{x};
    CountDownAccounted(e, e1, x);
    SameStacksTotal(e1, Release(e, x, ts, ctx));
  }
  lemma {:induction false} ReleaseCounts(e: Engine, x: Sub, ts: nat, ctx: int)
    requires Typed(e) && x.lock < |e.locks|
    ensures var lock, lock' := e.locks[x.lock], Release(e, x, ts, ctx).locks[x.lock];
      && lock'.readers == lock.readers - (if x.subLock.ReaderLock? && lock.readers > 0 then 1 else 0)
      && lock'.writers == lock.writers - (if x.subLock.WriterLock? && lock.writers > 0 then 1 else 0)
  {
    hide Typed, ReleaseCtx, FinishAndPop, WellKinded;
    if e.locks[x.lock].lastNPos != [] {
      TypedStack(e, ReleaseCtx(e, x, ctx));
      FinishAndPopLock(e, x, ts, ReleaseCtx(e, x, ctx), ctx);
    }
  }

  // ----- runs without side conflicts: any contexts, any recursion flags -------------------------

  lemma {:induction false} AcquireNoConflict(e: Engine, x: Sub, ts: nat, ctx: int)
    requires Accounted(e) && OneSided(e) && x.lock < |e.locks| && e.locks[x.lock].Permits(x.subLock)
    requires if x.subLock.ReaderLock? then e.locks[x.lock].writers == 0 else e.locks[x.lock].readers == 0
    ensures var r := Acquire(e, x, ts, ctx);
      r.Done? && Accounted(r.value) && OneSided(r.value) && OnlyLock(e, r.value, x.lock)
  {
    hide Typed, Total, WellKinded, Reacquire, AfterAcquire, FlushSide;
    TypedStack(e, ctx);
    var l := x.lock;
    var e1 := e;
    if x.subLock.WriterLock? && e.locks[l].writers > 0 && !e.locks[l].recursive {
      ReacquireAccounted(e, l, ts, ctx);
      e1 := Reacquire(e, l, ts, ctx).value;
    }
    assert BeforeAcquire(e, x, ts, ctx) == Done(e1);
    AfterAcquireAccounted(e1, x, ts, ctx);
    AfterAcquireCounts(e1, x, ts, ctx);
  }

  lemma {:induction false} AfterAcquireCounts(e: Engine, x: Sub, ts: nat, ctx: int)
    requires x.lock < |e.locks|
    ensures var lock, lock' := e.locks[x.lock], AfterAcquire(e, x, ts, ctx).locks[x.lock];
      && lock'.readers == lock.readers + (if x.subLock.ReaderLock? then 1 else 0)
      && lock'.writers == lock.writers + (if x.subLock.WriterLock? then 1 else 0)
  {
  }

  lemma {:induction false} ReleaseNoConflict(e: Engine, x: Sub, ts: nat, ctx: int)
    requires Accounted(e) && OneSided(e) && x.lock < |e.locks|
    ensures Accounted(Release(e, x, ts, ctx)) && OneSided(Release(e, x, ts, ctx))
  {
    hide Typed, Total, Release;
    ReleaseAccounted(e, x, ts, ctx);
    ReleaseCounts(e, x, ts, ctx);
    var e' := Release(e, x, ts, ctx);
    forall m | 0 <= m < |e'.locks| ensures e'.locks[m].readers == 0 || e'.locks[m].writers == 0 {
      assert e.locks[m].readers == 0 || e.locks[m].writers == 0;
    }
  }

  // Without a side conflict an operation the lock has succeeds, and both invariants are kept.
  lemma {:induction false} TransitionNoConflict(e: Engine, l: nat, op: LockOp, recursive: bool, ts: nat, ctx: int)
    requires Accounted(e) && OneSided(e) && l < |e.locks|
    requires e.locks[l].Permits(SideOf(op)) && NoSideConflict(e.locks[l], op)
    ensures var r := Transition(e, l, op, recursive, ts, ctx);
      r.Done? && Accounted(r.value) && OneSided(r.value)
  {
    hide Typed, Total, Release, Acquire;
    var e0 := SetFlags(e, l, recursive);
    var x := Sub(l, SideOf(op));
    FlagsAccounted(e, l, recursive);
    if IsAcquire(op) {
      AcquireNoConflict(e0, x, ts, ctx);
    } else {
      ReleaseNoConflict(e0, x, ts, ctx);
    }
  }

  // ----- one context, no recursive locks: any order of P and V ----------------------------------

  ghost predicate SingleCtx(e: Engine, ctx: int) {
    forall c :: c != ctx ==> e.Stack(c) == []
  }

  // The whole total is on the one stack.
  lemma {:induction false} SingleCtxTotal(e: Engine, ctx: int)
    requires SingleCtx(e, ctx)
    ensures Total(e) == multiset(Proj(e.Stack(ctx)))
  {
    var others := e.stacks.Keys - {ctx};
    assert forall c :: c in others ==> At(e.stacks, c) == e.Stack(c) == [];
    EmptyTotal(others, e.stacks);
    if ctx in e.stacks {
      TotalSplit(e.stacks.Keys, e.stacks, ctx);
    } else {
      assert others == e.stacks.Keys;
    }
  }

  lemma {:induction false} EmptyTotal(cs: set<int>, m: map<int, seq<Txn>>)
    requires forall c :: c in cs ==> At(m, c) == []
    ensures TotalOver(cs, m) == multiset{}
    decreases cs
  {
    if exists c :: c in cs {
      EmptyTotal(cs - {Lowest(cs)}, m);
    }
  }
  lemma {:induction false} CountedIsOnStack(e: Engine, ctx: int, x: Sub)
    requires SingleCtx(e, ctx)
    ensures OnStack(e, ctx, x) <==> Total(e)[x] > 0
  {
    hide Total, OnStack;
    SingleCtxTotal(e, ctx);
    OnStackIffMember(e, ctx, x);
    assert x in Proj(e.Stack(ctx)) <==> x in multiset(Proj(e.Stack(ctx)));
  }

  ghost predicate Untouched(t: multiset<Sub>, t': multiset<Sub>, l: nat) {
    forall y: Sub :: y.lock != l ==> t'[y] == t[y]
  }

  lemma {:induction false} FlushedTotal(e: Engine, x: Sub, ts: nat, ctx: int)
    requires Typed(e) && SingleCtx(e, ctx)
    requires x.subLock.WriterLock? ==> Total(e)[x] <= 1 && Total(e)[Sub(x.lock, ReaderLock)] == 0
    requires x.subLock.ReaderLock? ==> Total(e)[Sub(x.lock, WriterLock)] == 0
    ensures Total(Finish(e, x, ts, true, ctx, ctx)) == Total(e)[x := 0]
  {
    hide Typed, Total, Finish, FlushedProj, OnStack;
    FlushTotal(e, x, ts, ctx);
    FlushedCount(e.Stack(ctx), x);
    SingleCtxTotal(e, ctx);
    CountedIsOnStack(e, ctx, x);
    OnStackIffMember(e, ctx, x);
    assert Sub(x.lock, ReaderLock) in Proj(e.Stack(ctx)) ==> Sub(x.lock, ReaderLock) in multiset(Proj(e.Stack(ctx)));
  }

  lemma {:induction false} FlushSideEffect(e: Engine, x: Sub, ts: nat, ctx: int)
    requires Typed(e) && x.lock < |e.locks|
    ensures var e' := FlushSide(e, x, ts, ctx);
      && Total(e') == Total(Finish(e, x, ts, true, ctx, ctx))
      && Typed(e') && OnlyLock(e, e', x.lock)
      && e'.locks[x.lock] == (if !OnStack(e, ctx, x) then e.locks[x.lock]
                              else if x.subLock.ReaderLock? then e.locks[x.lock].(readers := 0, lastNPos := [])
                              else e.locks[x.lock].(writers := 0, lastNPos := []))
  {
    hide Typed, Total, OnStack, FinishedStack, TornTxnRows, TornHeldRows;
    TypedStack(e, ctx);
    var e1 := Finish(e, x, ts, true, ctx, ctx);
    var e' := FlushSide(e, x, ts, ctx);
    FlushTyped(e, x, ts, ctx);
    SameStacksTotal(e1, e');
    KindsKeepTyped(e1, e');
  }

  // A flush of one side leaves no TXN of the lock behind.
  lemma {:induction false} FlushSideSingleCtx(e: Engine, x: Sub, ts: nat, ctx: int)
    requires Accounted(e) && Exclusive(e) && SingleCtx(e, ctx) && x.lock < |e.locks|
    requires if x.subLock.ReaderLock? then e.locks[x.lock].writers == 0 && e.locks[x.lock].readers > 0
             else e.locks[x.lock].readers == 0 && e.locks[x.lock].writers > 0
    ensures var e' := FlushSide(e, x, ts, ctx);
      && Accounted(e') && OnlyLock(e, e', x.lock) && Total(e') == Total(e)[x := 0]
      && Total(e')[Sub(x.lock, ReaderLock)] == 0 && Total(e')[Sub(x.lock, WriterLock)] == 0
  {
    hide Typed, Total, OnStack, FlushSide, Finish;
    var l := x.lock;
    assert LockOk(e.locks[l], Total(e)[Sub(l, ReaderLock)], Total(e)[Sub(l, WriterLock)]);
    CountedIsOnStack(e, ctx, x);
    TypedStack(e, ctx);
    FlushedTotal(e, x, ts, ctx);
    FlushSideEffect(e, x, ts, ctx);
    OneLockAccounted(e, FlushSide(e, x, ts, ctx), l);
  }

  lemma {:induction false} ExclusiveAfter(e: Engine, e1: Engine, x: Sub, ts: nat, ctx: int)
    requires Exclusive(e) && Accounted(e1) && x.lock < |e.locks| && OnlyLock(e, e1, x.lock)
    requires e1.locks[x.lock].Permits(x.subLock)
    requires Untouched(Total(e), Total(e1), x.lock)
    requires Total(e1)[Sub(x.lock, WriterLock)] == 0
    requires x.subLock.WriterLock? ==> Total(e1)[Sub(x.lock, ReaderLock)] == 0
    ensures Accounted(AfterAcquire(e1, x, ts, ctx)) && Exclusive(AfterAcquire(e1, x, ts, ctx))
  {
    hide Typed, Total, AfterAcquire;
    AfterAcquireAccounted(e1, x, ts, ctx);
    var e' := AfterAcquire(e1, x, ts, ctx);
    forall m | 0 <= m < |e'.locks|
      ensures Total(e')[Sub(m, WriterLock)] <= 1
      ensures Total(e')[Sub(m, ReaderLock)] == 0 || Total(e')[Sub(m, WriterLock)] == 0
    {
      if m != x.lock {
        assert Total(e')[Sub(m, WriterLock)] == Total(e)[Sub(m, WriterLock)];
        assert Total(e')[Sub(m, ReaderLock)] == Total(e)[Sub(m, ReaderLock)];
      } else {
        match x.subLock { case ReaderLock => case WriterLock => }
      }
    }
  }

  // The P of a single context never runs into an empty position stack.
  lemma {:induction false} AcquireSingleCtx(e: Engine, x: Sub, ts: nat, ctx: int)
    requires Accounted(e) && Exclusive(e) && SingleCtx(e, ctx)
    requires x.lock < |e.locks| && e.locks[x.lock].Permits(x.subLock) && !e.locks[x.lock].recursive
    ensures var r := Acquire(e, x, ts, ctx);
      && (r.Thrown? <==> e.locks[x.lock].readers > 0 && e.locks[x.lock].writers > 0)
      && !r.Undefined?
      && (r.Done? ==> Accounted(r.value) && Exclusive(r.value))
  {
    hide Typed, Total, WellKinded, Reacquire, AfterAcquire, FlushSide, OnStack;
    var l, lock := x.lock, e.locks[x.lock];
    assert LockOk(lock, Total(e)[Sub(l, ReaderLock)], Total(e)[Sub(l, WriterLock)]);
    TypedStack(e, ctx);
    if lock.readers == 0 || lock.writers == 0 {
      var other := if x.subLock.WriterLock? then Sub(l, ReaderLock) else Sub(l, WriterLock);
      var e1 := e;
      if x.subLock.WriterLock? && lock.writers > 0 {
        ReacquireAccounted(e, l, ts, ctx);
        CountedIsOnStack(e, ctx, Sub(l, WriterLock));
        e1 := Reacquire(e, l, ts, ctx).value;
      } else if (x.subLock.WriterLock? && lock.readers > 0) || (x.subLock.ReaderLock? && lock.writers > 0) {
        FlushSideSingleCtx(e, other, ts, ctx);
        e1 := FlushSide(e, other, ts, ctx);
      }
      assert BeforeAcquire(e, x, ts, ctx) == Done(e1);
      ExclusiveAfter(e, e1, x, ts, ctx);
    }
  }
  lemma {:induction false} FinishElsewhere(e: Engine, x: Sub, ts: nat, removeReader: bool, ctx: int, d: int)
    requires WellKinded(e.locks, Proj(e.Stack(ctx))) && d != ctx
    ensures Finish(e, x, ts, removeReader, ctx, ctx).Stack(d) == e.Stack(d)
    ensures Finish(e, x, ts, removeReader, ctx, ctx).locks == e.locks
  {
    hide WellKinded, FinishedStack, TornTxnRows, TornHeldRows, TopMatch, Proj;
  }

  // A P works on its own context only.
  lemma {:induction false} AcquireElsewhere(e: Engine, x: Sub, ts: nat, ctx: int, d: int)
    requires Typed(e) && x.lock < |e.locks| && d != ctx && Acquire(e, x, ts, ctx).Done?
    ensures Acquire(e, x, ts, ctx).value.Stack(d) == e.Stack(d)
  {
    hide Typed, WellKinded, OnStack, Finish;
    TypedStack(e, ctx);
    FinishElsewhere(e, Sub(x.lock, ReaderLock), ts, true, ctx, d);
    FinishElsewhere(e, Sub(x.lock, WriterLock), ts, true, ctx, d);
    FinishElsewhere(e, Sub(x.lock, WriterLock), ts, false, ctx, d);
    assert BeforeAcquire(e, x, ts, ctx).value.Stack(d) == e.Stack(d);
  }

  lemma {:induction false} ReleaseSingleCtx(e: Engine, x: Sub, ts: nat, ctx: int)
    requires Accounted(e) && Exclusive(e) && SingleCtx(e, ctx) && x.lock < |e.locks|
    ensures Accounted(Release(e, x, ts, ctx)) && Exclusive(Release(e, x, ts, ctx))
  {
    hide Typed, Total, Release;
    ReleaseAccounted(e, x, ts, ctx);
    var e' := Release(e, x, ts, ctx);
    forall m | 0 <= m < |e'.locks|
      ensures Total(e')[Sub(m, WriterLock)] <= 1
      ensures Total(e')[Sub(m, ReaderLock)] == 0 || Total(e')[Sub(m, WriterLock)] == 0
    {
      assert Total(e)[Sub(m, WriterLock)] <= 1;
      assert Total(e')[Sub(m, WriterLock)] <= Total(e)[Sub(m, WriterLock)];
      assert Total(e')[Sub(m, ReaderLock)] <= Total(e)[Sub(m, ReaderLock)];
    }
  }

  lemma {:induction false} ReleaseElsewhere(e: Engine, x: Sub, ts: nat, ctx: int)
    requires Typed(e) && SingleCtx(e, ctx) && x.lock < |e.locks|
    ensures SingleCtx(Release(e, x, ts, ctx), ctx)
  {
    hide Typed, WellKinded, OnStack, Finish;
    assert ReleaseCtx(e, x, ctx) == ctx by {
      forall c | c in CtxsWith(e, x) ensures c == ctx {
        OnStackIffMember(e, c, x);
      }
    }
    TypedStack(e, ctx);
    if e.locks[x.lock].lastNPos != [] {
      FinishProj(e, x, ts, ctx, ctx);
      FinishAndPopStacks(e, x, ts, ctx, ctx);
    }
    forall d | d != ctx ensures Release(e, x, ts, ctx).Stack(d) == [] {
      assert e.Stack(d) == [];
    }
  }

  // In a single context without recursive locks every order of operations keeps the accounting; an
  // operation fails only where the source throws, and never pops an empty position stack.
  lemma {:induction false} TransitionSingleCtx(e: Engine, l: nat, op: LockOp, ts: nat, ctx: int)
    requires Accounted(e) && Exclusive(e) && SingleCtx(e, ctx) && l < |e.locks|
    ensures var r := Transition(e, l, op, false, ts, ctx);
      && !r.Undefined?
      && (r.Thrown? <==> !e.locks[l].Permits(SideOf(op))
                         || (IsAcquire(op) && e.locks[l].readers > 0 && e.locks[l].writers > 0))
      && (r.Done? ==> Accounted(r.value) && Exclusive(r.value) && SingleCtx(r.value, ctx))
  {
    hide Typed, Total, Release, Acquire, OnStack;
    var e0 := SetFlags(e, l, false);
    var x := Sub(l, SideOf(op));
    FlagsAccounted(e, l, false);
    SameStacksTotal(e, e0);
    TypedStack(e0, ctx);
    assert forall d :: d != ctx ==> e0.Stack(d) == e.Stack(d) == [];
    if e.locks[l].Permits(SideOf(op)) {
      if IsAcquire(op) {
        AcquireSingleCtx(e0, x, ts, ctx);
        if Acquire(e0, x, ts, ctx).Done? {
          forall d | d != ctx ensures Acquire(e0, x, ts, ctx).value.Stack(d) == [] {
            AcquireElsewhere(e0, x, ts, ctx, d);
          }
        }
      } else {
        ReleaseSingleCtx(e0, x, ts, ctx);
        ReleaseElsewhere(e0, x, ts, ctx);
      }
    }
  }

  // What keeps finishTXN off its "not held" and "stack underflow" branches.
  lemma {:induction false} EntriesAreHeld(e: Engine, c: int, i: nat)
    requires Accounted(e) && i < |e.Stack(c)|
    ensures var lock := e.locks[e.Stack(c)[i].lock]; lock.IsHeld() && lock.lastNPos != []
  {
    hide Typed, Total;
    TypedStack(e, c);
    var x := Proj(e.Stack(c))[i];
    assert x in Proj(e.Stack(c));
    OnStackIffMember(e, c, x);
    OnStackCounted(e, c, x);
    assert LockOk(e.locks[x.lock], Total(e)[Sub(x.lock, ReaderLock)], Total(e)[Sub(x.lock, WriterLock)]);
    match x.subLock { case ReaderLock => case WriterLock => }
  }
  // ----- in every run at all: entries stay on sides their locks have ---------------------------

  lemma {:induction false} BeforeAcquireTyped(e: Engine, x: Sub, ts: nat, ctx: int)
    requires Typed(e) && x.lock < |e.locks| && BeforeAcquire(e, x, ts, ctx).Done?
    ensures var e' := BeforeAcquire(e, x, ts, ctx).value; Typed(e') && OnlyLock(e, e', x.lock)
  {
    hide Typed, WellKinded, OnStack, FlushSide, FinishAndPop;
    TypedStack(e, ctx);
    var w := Sub(x.lock, WriterLock);
    FlushSideEffect(e, Sub(x.lock, ReaderLock), ts, ctx);
    FlushSideEffect(e, w, ts, ctx);
    FinishTyped(e, w, ts, ctx, ctx);
    if e.locks[x.lock].lastNPos != [] {
      FinishAndPopLock(e, w, ts, ctx, ctx);
      FinishAndPopTyped(e, w, ts, ctx, ctx);
    }
    ReacquireIs(e, x.lock, ts, ctx);
  }

  lemma {:induction false} ReacquireIs(e: Engine, l: nat, ts: nat, ctx: int)
    requires Typed(e) && l < |e.locks| && WellKinded(e.locks, Proj(e.Stack(ctx)))
    ensures var x := Sub(l, WriterLock);
      Reacquire(e, l, ts, ctx) ==
        if !OnStack(e, ctx, x) then Done(Finish(e, x, ts, false, ctx, ctx))
        else if e.locks[l].lastNPos == [] then Undefined
        else Done(FinishAndPop(e, x, ts, ctx, ctx))
    ensures Finish(e, Sub(l, WriterLock), ts, false, ctx, ctx).locks == e.locks
  {
    hide Typed, WellKinded, OnStack, FinishedStack, TornTxnRows, TornHeldRows;
  }

  lemma {:induction false} TransitionTyped(e: Engine, l: nat, op: LockOp, recursive: bool, ts: nat, ctx: int)
    requires Typed(e) && l < |e.locks| && Transition(e, l, op, recursive, ts, ctx).Done?
    ensures var e' := Transition(e, l, op, recursive, ts, ctx).value;
      Typed(e') && |e'.locks| == |e.locks|
  {
    hide Typed, WellKinded, OnStack, FinishAndPop, BeforeAcquire, ReleaseCtx;
    var e0, x := SetFlags(e, l, recursive), Sub(l, SideOf(op));
    KindsKeepTyped(e, e0);
    TypedStack(e0, ctx);
    if IsAcquire(op) {
      BeforeAcquireTyped(e0, x, ts, ctx);
      var e1 := BeforeAcquire(e0, x, ts, ctx).value;
      var e2 := SetLock(e1, l, CountUp(e1.locks[l], x.subLock, ts));
      SetLockTyped(e1, l, CountUp(e1.locks[l], x.subLock, ts));
      StartTyped(e2, x, ts, ctx);
    } else {
      var e1 := e0;
      if e0.locks[l].lastNPos != [] {
        var c := ReleaseCtx(e0, x, ctx);
        TypedStack(e0, c);
        e1 := FinishAndPop(e0, x, ts, c, ctx);
        FinishAndPopLock(e0, x, ts, c, ctx);
        FinishAndPopTyped(e0, x, ts, c, ctx);
      }
      SetLockTyped(e1, l, CountDown(e1.locks[l], x.subLock));
    }
  }
  // No lock changes its identity.
  predicate SameIdentity(e: Engine, e': Engine) {
    && |e'.locks| == |e.locks| && e'.byAddress == e.byAddress && e'.nextLockId == e.nextLockId
    && forall l :: 0 <= l < |e.locks| ==>
         && e'.locks[l].kind == e.locks[l].kind
         && e'.locks[l].readId == e.locks[l].readId
         && e'.locks[l].writeId == e.locks[l].writeId
  }

  lemma {:induction false} FinishIdentity(e: Engine, x: Sub, ts: nat, removeReader: bool, c: int, ctxOld: int)
    requires WellKinded(e.locks, Proj(e.Stack(c)))
    ensures SameIdentity(e, Finish(e, x, ts, removeReader, c, ctxOld))
    ensures Finish(e, x, ts, removeReader, c, ctxOld).locks == e.locks
  {
    hide FinishedStack, TornTxnRows, TornHeldRows, WellKinded;
  }

  lemma {:induction false} AcquireIdentity(e: Engine, x: Sub, ts: nat, ctx: int)
    requires Typed(e) && x.lock < |e.locks| && Acquire(e, x, ts, ctx).Done?
    ensures SameIdentity(e, Acquire(e, x, ts, ctx).value)
  {
    hide Typed, WellKinded, OnStack, Finish;
    TypedStack(e, ctx);
    FinishIdentity(e, Sub(x.lock, ReaderLock), ts, true, ctx, ctx);
    FinishIdentity(e, Sub(x.lock, WriterLock), ts, true, ctx, ctx);
    FinishIdentity(e, Sub(x.lock, WriterLock), ts, false, ctx, ctx);
    assert SameIdentity(e, BeforeAcquire(e, x, ts, ctx).value);
  }

  lemma {:induction false} ReleaseIdentity(e: Engine, x: Sub, ts: nat, ctx: int)
    requires Typed(e) && x.lock < |e.locks|
    ensures SameIdentity(e, Release(e, x, ts, ctx))
  {
    hide Typed, WellKinded, OnStack, Finish, ReleaseCtx;
    var c := ReleaseCtx(e, x, ctx);
    TypedStack(e, c);
    FinishIdentity(e, x, ts, false, c, ctx);
  }

  lemma {:induction false} TransitionIdentity(e: Engine, l: nat, op: LockOp, recursive: bool, ts: nat, ctx: int)
    requires Typed(e) && l < |e.locks| && Transition(e, l, op, recursive, ts, ctx).Done?
    ensures SameIdentity(e, Transition(e, l, op, recursive, ts, ctx).value)
  {
    hide Typed, Acquire, Release, WellKinded;
    var e0 := SetFlags(e, l, recursive);
    KindsKeepTyped(e, e0);
    TypedStack(e0, ctx);
    if IsAcquire(op) {
      AcquireIdentity(e0, Sub(l, SideOf(op)), ts, ctx);
    } else {
      ReleaseIdentity(e0, Sub(l, SideOf(op)), ts, ctx);
    }
  }
  // ----- closeAllTXNs -----------------------------------------------------------------------------

  lemma {:induction false} FinishTop(e: Engine, c: int, ts: nat)
    requires Typed(e) && e.Stack(c) != []
    ensures var s := e.Stack(c);
      WellKinded(e.locks, Proj(s)) && Finish(e, SubOf(s[|s| - 1]), ts, false, c, c).Stack(c) == s[..|s| - 1]
  {
    hide TornTxnRows, TornHeldRows, Typed, WellKinded;
    TypedStack(e, c);
    var s := e.Stack(c);
    assert Proj(s)[|s| - 1] == SubOf(s[|s| - 1]);
    assert s[|s| - 1 + 1..] == [];
  }

  ghost function CloseCtx(e: Engine, c: int, ts: nat): (e': Engine)
    requires Typed(e)
    ensures Typed(e')
    decreases |e.Stack(c)|
  {
    var s := e.Stack(c);
    if s == [] then e
    else
      var x := SubOf(s[|s| - 1]);
      FinishTop(e, c, ts);
      FinishTyped(e, x, ts, c, c);
      CloseCtx(Finish(e, x, ts, false, c, c), c, ts)
  }

  ghost function CloseCtxs(e: Engine, cs: set<int>, ts: nat): Engine
    requires Typed(e)
    decreases cs
  {
    if exists c :: c in cs then CloseCtxs(CloseCtx(e, Lowest(cs), ts), cs - {Lowest(cs)}, ts) else e
  }

  ghost function CloseAll(e: Engine, ts: nat): Engine
    requires Typed(e)
  {
    CloseCtxs(e, e.stacks.Keys, ts)
  }
}
