// The converter's lock objects and its lock manager as they change in place: rwlock.cc, rlock.h,
// wlock.h and lockmanager.cc.  A pointer to a lock is its number in the manager's arena, which is
// only ever appended to, so a TXN keeps its lock after the lock's address has been forgotten.

module LockManagement {
  import opened TxnEngine
  import opened Wrappers
  import opened TxnAccounting
  import opened TxnAttribution
  import opened Unsigned

  class RWLock {
    const kind: LockKind
    const lockAddress: nat
    var readId: int
    var writeId: int
    var recursive: bool
    var readerCount: int
    var writerCount: int
    var lastNPos: seq<LockPos>

    predicate Valid()
      reads this
    {
      readerCount >= 0 && writerCount >= 0
    }

    function State(): LockState
      requires Valid()
      reads this
    {
      LockState(kind, readId, writeId, lockAddress, recursive, readerCount, writerCount, lastNPos)
    }

    predicate IsHeld()
      reads this
    {
      match kind
      case ReadWrite => readerCount > 0 || writerCount > 0
      case WriteOnly => writerCount > 0
      case ReadOnly => readerCount > 0
    }

    // A side the lock does not have makes getID() throw.
    function GetId(subLock: SubLock): int
      requires Valid() && State().Permits(subLock)
      reads this
    {
      if subLock.ReaderLock? then readId else writeId
    }

    constructor (kind: LockKind, lockAddress: nat, recursive: bool)
      ensures Valid() && State() == LockState(kind, 0, 0, lockAddress, recursive, 0, 0, [])
    {
      this.kind, this.lockAddress, this.recursive := kind, lockAddress, recursive;
      readId, writeId, readerCount, writerCount, lastNPos := 0, 0, 0, 0, [];
    }

    // Assign each sub lock the lock has a new id.
    method InitIds(id: nat) returns (next: nat)
      requires Valid()
      modifies this`readId, this`writeId
      ensures Valid()
      ensures State() == old(State()).(readId := NewLock(kind, 0, false, id).readId,
                                                            writeId := NewLock(kind, 0, false, id).writeId)
      ensures next == id + (if kind.ReadWrite? then 2 else 1)
      ensures kind.ReadWrite? ==> readId == id && writeId == id + 1
      ensures kind.WriteOnly? ==> readId == U64 - 1 && writeId == id
      ensures kind.ReadOnly? ==> readId == id && writeId == U64 - 1
    {
      next := id;
      match kind {
        case ReadWrite =>
          readId := next;
          writeId := next + 1;
          next := next + 2;
        case WriteOnly =>
          readId := NO_ID;
          writeId := next;
          next := next + 1;
        case ReadOnly =>
          readId := next;
          writeId := NO_ID;
          next := next + 1;
      }
    }

    // The number under which the manager knows this lock.
    ghost predicate Known(m: LockManager, number: nat)
      reads m`arena, this
    {
      number < |m.arena| && m.arena[number] == this
    }

    // The stack of positions is taken apart; a counter that does not end at zero is put there.
    method ForgetReaders()
      modifies this`readerCount, this`lastNPos
      ensures readerCount == 0 && lastNPos == []
    {
      while lastNPos != []
        decreases |lastNPos|
      {
        readerCount := readerCount - 1;
        lastNPos := Pop(lastNPos);
      }
      if readerCount != 0 {
        readerCount := 0;
      }
    }

    method ForgetWriters()
      modifies this`writerCount, this`lastNPos
      ensures writerCount == 0 && lastNPos == []
    {
      while lastNPos != []
        decreases |lastNPos|
      {
        writerCount := writerCount - 1;
        lastNPos := Pop(lastNPos);
      }
      if writerCount != 0 {
        writerCount := 0;
      }
    }

    // A P found the other side held: flush it in this context, and with it all known positions.
    method FlushSide(m: LockManager, number: nat, side: SubLock, ts: nat, ctx: int)
      requires m.Valid() && Known(m, number)
      modifies this`readerCount, this`writerCount, this`lastNPos
      modifies m`activeTxns, m`nextTxnId, m`txnsOut, m`locksHeldOut
      ensures m.Valid() && Known(m, number)
      ensures m.Abs() == TxnEngine.FlushSide(old(m.Abs()), Sub(number, side), ts, ctx)
    {
      hide TxnsTold, KeepOf, Typed, Finish, WellKinded, OnStack;
      ghost var e := m.Abs();
      TypedStack(e, ctx);
      FinishIdentity(e, Sub(number, side), ts, true, ctx, ctx);
      var found := m.FinishTxn(Sub(number, side), ts, true, ctx, ctx);
      label Finished:
      if found {
        if side.ReaderLock? {
          ForgetReaders();
        } else {
          ForgetWriters();
        }
        KindsKeepTyped(old@Finished(m.Abs()), m.Abs());
      }
    }

    // A repeated P on the write side: the V may have been missed.  The result is false when the
    // source pops an empty stack.
    method Reacquire(m: LockManager, number: nat, ts: nat, ctx: int) returns (ok: bool)
      requires m.Valid() && Known(m, number)
      modifies this`lastNPos
      modifies m`activeTxns, m`nextTxnId, m`txnsOut, m`locksHeldOut
      ensures WellKinded(old(m.Abs()).locks, Proj(old(m.Abs()).Stack(ctx)))
      ensures var t := TxnEngine.Reacquire(old(m.Abs()), number, ts, ctx);
        && ok == t.Done? && (t.Done? || t.Undefined?)
        && (t.Done? ==> m.Valid() && Known(m, number) && m.Abs() == t.value)
    {
      hide Typed, Finish, WellKinded, OnStack;
      ghost var e := m.Abs();
      TypedStack(e, ctx);
      FinishIdentity(e, Sub(number, WriterLock), ts, false, ctx, ctx);
      var found := m.FinishTxn(Sub(number, WriterLock), ts, false, ctx, ctx);
      label Finished:
      if found {
        if lastNPos == [] {
          return false;
        }
        lastNPos := Pop(lastNPos);
        KindsKeepTyped(old@Finished(m.Abs()), m.Abs());
      }
      return true;
    }

    // The common end of a P: count it, remember its position, and start a TXN.
    method Granted(m: LockManager, number: nat, side: SubLock, ts: nat, ctx: int)
      requires m.Valid() && Known(m, number) && State().Permits(side)
      modifies this`readerCount, this`writerCount, this`lastNPos, m`activeTxns, m`nextTxnId
      ensures m.Valid() && Known(m, number)
      ensures m.Abs() == AfterAcquire(old(m.Abs()), Sub(number, side), ts, ctx)
    {
      hide Typed, WellKinded, Start;
      ghost var e := m.Abs();
      if side.ReaderLock? {
        readerCount := readerCount + 1;
      } else {
        writerCount := writerCount + 1;
      }
      lastNPos := lastNPos + [LockPos(side, ts)];
      assert m.Locks() == e.locks[number := CountUp(e.locks[number], side, ts)];
      KindsKeepTyped(e, m.Abs());
      m.StartTxn(Sub(number, side), ts, ctx);
    }

    method Lower(m: LockManager, number: nat, side: SubLock)
      requires m.Valid() && Known(m, number)
      modifies this`readerCount, this`writerCount
      ensures m.Valid() && Known(m, number)
      ensures m.Abs() == SetLock(old(m.Abs()), number, CountDown(old(m.Abs()).locks[number], side))
    {
      hide Typed;
      ghost var e := m.Abs();
      if side.ReaderLock? && readerCount != 0 {
        readerCount := readerCount - 1;
      }
      if side.WriterLock? && writerCount != 0 {
        writerCount := writerCount - 1;
      }
      assert m.Locks() == e.locks[number := CountDown(e.locks[number], side)];
      KindsKeepTyped(e, m.Abs());
    }

    // A V on one side: finish the TXN, here or in the context that has it, and count down.
    method Released(m: LockManager, number: nat, side: SubLock, ts: nat, ctx: int)
      requires m.Valid() && Known(m, number)
      modifies this`readerCount, this`writerCount, this`lastNPos
      modifies m`activeTxns, m`nextTxnId, m`txnsOut, m`locksHeldOut
      ensures m.Valid() && Known(m, number)
      ensures m.Abs() == Release(old(m.Abs()), Sub(number, side), ts, ctx)
    {
      hide Typed, FinishAndPop, WellKinded, OnStack, FindCtx, ReleaseCtx;
      if lastNPos != [] {
        FinishForV(m, number, side, ts, ctx);
      }
      Lower(m, number, side);
    }

    method FinishForV(m: LockManager, number: nat, side: SubLock, ts: nat, ctx: int)
      requires m.Valid() && Known(m, number) && lastNPos != []
      modifies this`lastNPos
      modifies m`activeTxns, m`nextTxnId, m`txnsOut, m`locksHeldOut
      ensures m.Valid() && Known(m, number)
      ensures var e, x := old(m.Abs()), Sub(number, side);
        m.Abs() == FinishAndPop(e, x, ts, ReleaseCtx(e, x, ctx), ctx)
    {
      hide Typed, Finish, WellKinded, OnStack, FindCtx, Proj, TopMatch, LockManager.Valid, LockManager.Locks;
      TypedAbs(m);
      ghost var e := m.Abs();
      var c := ctx;
      var on := m.IsOnTxnStack(ctx, Sub(number, side));
      if !on {
        c := m.FindTxn(Sub(number, side), ctx);
      }
      TypedStack(e, c);
      FinishIdentity(e, Sub(number, side), ts, false, c, ctx);
      var found := m.FinishTxn(Sub(number, side), ts, false, c, ctx);
      if found {
        PopPosition(m, number);
      }
    }

    lemma {:induction false} TypedAbs(m: LockManager)
      requires m.Valid()
      ensures m.Objects() && Typed(m.Abs()) && Addressed(m.Abs())
    {
    }

    method PopPosition(m: LockManager, number: nat)
      requires m.Valid() && Known(m, number) && lastNPos != []
      modifies this`lastNPos
      ensures m.Valid() && Known(m, number)
      ensures var e := old(m.Abs()); m.Abs() == SetLock(e, number, e.locks[number].(lastNPos := Pop(e.locks[number].lastNPos)))
    {
      hide Typed;
      ghost var e := m.Abs();
      lastNPos := Pop(lastNPos);
      assert m.Locks() == e.locks[number := e.locks[number].(lastNPos := Pop(e.locks[number].lastNPos))];
      KindsKeepTyped(e, m.Abs());
    }

    method UpdateFlags(m: LockManager, number: nat, flags: bool)
      requires m.Valid() && Known(m, number)
      modifies this`recursive
      ensures m.Valid() && Known(m, number)
      ensures m.Abs() == SetFlags(old(m.Abs()), number, flags)
    {
      hide Typed;
      ghost var e := m.Abs();
      recursive := flags;
      assert m.Locks() == e.locks[number := e.locks[number].(recursive := flags)];
      KindsKeepTyped(e, m.Abs());
    }

    // P on the write side.
    method AcquireWrite(m: LockManager, number: nat, ts: nat, ctx: int) returns (r: Outcome<()>)
      requires m.Valid() && Known(m, number) && State().Permits(WriterLock)
      modifies this`readerCount, this`writerCount, this`lastNPos
      modifies m`activeTxns, m`nextTxnId, m`txnsOut, m`locksHeldOut
      ensures WellKinded(old(m.Abs()).locks, Proj(old(m.Abs()).Stack(ctx)))
      ensures IsResult(m, r, Acquire(old(m.Abs()), Sub(number, WriterLock), ts, ctx))
    {
      hide Typed, WellKinded, TxnEngine.FlushSide, TxnEngine.Reacquire, AfterAcquire;
      TypedStack(m.Abs(), ctx);
      if writerCount == 0 && readerCount > 0 {
        FlushSide(m, number, ReaderLock, ts, ctx);
      } else if writerCount > 0 && readerCount == 0 {
        if !recursive {
          var ok := Reacquire(m, number, ts, ctx);
          if !ok {
            return Undefined;
          }
        }
      } else if writerCount > 0 && readerCount > 0 {
        return Thrown;
      }
      Granted(m, number, WriterLock, ts, ctx);
      return Done(());
    }

    // P on the read side.
    method AcquireRead(m: LockManager, number: nat, ts: nat, ctx: int) returns (r: Outcome<()>)
      requires m.Valid() && Known(m, number) && State().Permits(ReaderLock)
      modifies this`readerCount, this`writerCount, this`lastNPos
      modifies m`activeTxns, m`nextTxnId, m`txnsOut, m`locksHeldOut
      ensures WellKinded(old(m.Abs()).locks, Proj(old(m.Abs()).Stack(ctx)))
      ensures IsResult(m, r, Acquire(old(m.Abs()), Sub(number, ReaderLock), ts, ctx))
    {
      hide Typed, WellKinded, TxnEngine.FlushSide, TxnEngine.Reacquire, AfterAcquire;
      TypedStack(m.Abs(), ctx);
      if writerCount > 0 && readerCount == 0 {
        FlushSide(m, number, WriterLock, ts, ctx);
      } else if writerCount > 0 && readerCount > 0 {
        return Thrown;
      }
      Granted(m, number, ReaderLock, ts, ctx);
      return Done(());
    }

    // The whole outcome of an operation: a failure's kind, or the manager's new state.
    ghost predicate IsResult(m: LockManager, r: Outcome<()>, t: Outcome<Engine>)
      reads m, m.arena
    {
      && r.Done? == t.Done? && r.Thrown? == t.Thrown? && r.Undefined? == t.Undefined?
      && (t.Done? ==> m.Valid() && m.Abs() == t.value)
    }

    // Any operation, on the side the lock's class hands it to.
    method Transition(m: LockManager, number: nat, op: LockOp, flags: bool, ts: nat, ctx: int) returns (r: Outcome<()>)
      requires m.Valid() && Known(m, number)
      modifies this`recursive, this`readerCount, this`writerCount, this`lastNPos
      modifies m`activeTxns, m`nextTxnId, m`txnsOut, m`locksHeldOut
      ensures IsResult(m, r, TxnEngine.Transition(old(m.Abs()), number, op, flags, ts, ctx))
    {
      hide Typed, WellKinded, Acquire, Release;
      UpdateFlags(m, number, flags);
      TypedStack(m.Abs(), ctx);
      match op {
        case PWrite =>
          if kind.ReadOnly? {
            return Thrown;
          }
          r := AcquireWrite(m, number, ts, ctx);
        case VWrite =>
          if kind.ReadOnly? {
            return Thrown;
          }
          Released(m, number, WriterLock, ts, ctx);
          r := Done(());
        case PRead =>
          if kind.WriteOnly? {
            return Thrown;
          }
          r := AcquireRead(m, number, ts, ctx);
        case VRead =>
          if kind.WriteOnly? {
            return Thrown;
          }
          Released(m, number, ReaderLock, ts, ctx);
          r := Done(());
      }
    }
  }

  class LockManager {
    var activeTxns: map<int, seq<Txn>>
    var nextTxnId: nat
    var nextLockId: nat
    var locks: map<nat, nat>
    var arena: seq<RWLock>
    var txnsOut: seq<TxnRow>
    var locksHeldOut: seq<HeldRow>

    ghost predicate Objects()
      reads this`arena, arena
    {
      && (forall i :: 0 <= i < |arena| ==> arena[i].Valid())
      && (forall i, j :: 0 <= i < j < |arena| ==> arena[i] != arena[j])
    }

    ghost function Locks(): (s: seq<LockState>)
      requires Objects()
      reads this`arena, arena
      ensures |s| == |arena| && forall i :: 0 <= i < |s| ==> s[i] == arena[i].State()
    {
      var a := arena;
      seq(|a|, i requires 0 <= i < |a| && a[i].Valid() reads a => a[i].State())
    }

    // The value the specification speaks about.
    ghost function Abs(): Engine
      requires Objects()
      reads this, arena
    {
      Engine(Locks(), locks, activeTxns, nextTxnId, nextLockId, txnsOut, locksHeldOut)
    }

    ghost predicate Valid()
      reads this, arena
    {
      Objects() && Typed(Abs()) && Addressed(Abs())
    }

    constructor ()
      ensures Valid() && arena == []
      ensures Abs() == Engine([], map[], map[], 1, 1, [], [])
    {
      activeTxns, nextTxnId, nextLockId, locks, arena := map[], 1, 1, map[], [];
      txnsOut, locksHeldOut := [], [];
    }

    function Stack(ctx: int): seq<Txn>
      reads this`activeTxns
    {
      if ctx in activeTxns then activeTxns[ctx] else []
    }

    predicate HasActiveTxn(ctx: int)
      reads this`activeTxns
    {
      Stack(ctx) != []
    }

    function ActiveTxn(ctx: int): Txn
      requires HasActiveTxn(ctx)
      reads this`activeTxns
    {
      Stack(ctx)[|Stack(ctx)| - 1]
    }

    method IsOnTxnStack(ctx: int, x: Sub) returns (found: bool)
      requires Valid()
      ensures found == OnStack(Abs(), ctx, x)
    {
      found := false;
      var s := Stack(ctx);
      for i := 0 to |s|
        invariant found <==> exists j :: 0 <= j < i && SubOf(s[j]) == x
      {
        if SubOf(s[i]) == x {
          found := true;
        }
      }
      assert s == Abs().Stack(ctx);
      OnStackIffMember(Abs(), ctx, x);
      assert forall j :: 0 <= j < |s| ==> Proj(s)[j] == SubOf(s[j]);
    }

    // The stacks are walked in ascending order of their contexts.
    method FindTxn(x: Sub, ctx: int) returns (c: int)
      requires Valid()
      ensures c == FindCtx(Abs(), x, ctx)
      ensures LowestHolder(Abs(), x, ctx, c)
    {
      hide LowestHolder, OnStack, Typed, Total;
      ghost var with := CtxsWith(Abs(), x);
      var rest := activeTxns.Keys;
      while rest != {}
        invariant rest <= activeTxns.Keys
        invariant with <= rest
        invariant forall d, f :: d in activeTxns && d !in rest && f in rest ==> d < f
      {
        var low := LowestKey(rest);
        var found := IsOnTxnStack(low, x);
        if found {
          assert low in with;
          FindIsLowest(Abs(), x, ctx);
          return low;
        }
        rest := rest - {low};
      }
      assert with == {};
      FindIsLowest(Abs(), x, ctx);
      return ctx;
    }

    lemma {:induction false} ObjectAt(i: nat)
      requires Objects() && i < |Locks()|
      ensures i < |arena| && arena[i].Valid() && arena[i].State() == Locks()[i]
    {
    }

    // locks_held rows for a TXN whose stack is s, each lock id once.
    method HeldRows(s: seq<Txn>, txn: nat) returns (rows: seq<HeldRow>)
      requires Objects() && WellKinded(Locks(), Proj(s))
      ensures rows == HeldRowsOf(Locks(), s, txn, {}) && HeldTold(Locks(), s, txn, {}, rows)
    {
      hide HeldRowsOf, WellKinded, Locks, Proj, Objects, Collected, HeldTold;
      ghost var ls := Locks();
      rows := [];
      var locksSeen: set<int> := {};
      CollectedStarts(ls, s, txn);
      for i := 0 to |s|
        invariant Collected(ls, s, txn, i, rows, locksSeen)
      {
        CollectedOn(ls, s, txn, i, rows, locksSeen);
        ObjectAt(s[i].lock);
        var tempLock := arena[s[i].lock];
        if tempLock.IsHeld() && tempLock.lastNPos != [] {
          var lockId := tempLock.GetId(s[i].subLock);
          if lockId !in locksSeen {
            locksSeen := locksSeen + {lockId};
            rows := rows + [HeldRow(txn, lockId, tempLock.lastNPos[|tempLock.lastNPos| - 1].start)];
          }
        }
      }
      CollectedEnds(ls, s, txn, rows, locksSeen);
      HeldRowsTell(ls, s, txn, {});
    }

    // Note the TXN on top of stack s, unless it is empty.
    method WriteTopTxn(s: seq<Txn>, ts: nat, ctxOld: int)
      requires Objects() && s != [] && WellKinded(Locks(), Proj(s))
      modifies this`txnsOut, this`locksHeldOut
      ensures txnsOut == old(txnsOut) + ClosingTxnRow(s, ts, ctxOld)
      ensures var top := s[|s| - 1];
        txnsOut == if top.memAccessCounter == 0 then old(txnsOut)
                   else old(txnsOut) + [TxnRow(top.id, top.startTs, top.startCtx, ts, ctxOld)]
      ensures locksHeldOut == old(locksHeldOut) + ClosingHeldRows(Locks(), s)
    {
      hide WellKinded, HeldRowsOf, Locks;
      var top := s[|s| - 1];
      if top.memAccessCounter > 0 {
        txnsOut := txnsOut + [TxnRow(top.id, top.startTs, top.startCtx, ts, ctxOld)];
        var rows := HeldRows(s, top.id);
        locksHeldOut := locksHeldOut + rows;
      }
    }

    // The removeReader clean-up: every reader entry of the lock goes, anything else stays.
    method EraseReaders(s: seq<Txn>, lock: nat) returns (kept: seq<Txn>)
      ensures kept == WithoutReaders(s, lock)
    {
      kept := [];
      assert s[0..] == s;
      for i := 0 to |s|
        invariant kept + WithoutReaders(s[i..], lock) == WithoutReaders(s, lock)
      {
        assert s[i..][0] == s[i] && s[i..][1..] == s[i + 1..];
        if SubOf(s[i]) != Sub(lock, ReaderLock) {
          kept := kept + [s[i]];
        }
      }
      assert s[|s|..] == [] && kept + [] == kept;
    }

    // Takes TXNs off stack s, writing their rows, until the topmost one for x is off.  The others are
    // handed back renewed, in their old layering order.
    method TearDown(s: seq<Txn>, x: Sub, ts: nat, ctx: int, ctxOld: int)
        returns (found: bool, stack: seq<Txn>, restart: seq<Txn>)
      requires Objects() && WellKinded(Locks(), Proj(s))
      modifies this`nextTxnId, this`txnsOut, this`locksHeldOut
      ensures found == (TopMatch(Proj(s), x) >= 0)
      ensures stack == s[..KeepOf(s, x)] && restart == Restarted(Above(s, x), ts, ctx, old(nextTxnId))
      ensures nextTxnId == old(nextTxnId) + |restart|
      ensures txnsOut == old(txnsOut) + TornTxnRows(s, KeepOf(s, x), ts, ctxOld)
      ensures TxnsTold(old(txnsOut), txnsOut, s, KeepOf(s, x), ts, ctxOld)
      ensures locksHeldOut == old(locksHeldOut) + TornHeldRows(Locks(), s, KeepOf(s, x))
    {
      hide WellKinded, TornTxnRows, TornHeldRows, Locks, ClosingHeldRows, ClosingTxnRow, Renewals, RowsLeft, Proj, TopMatch,
        Above, Restarted, TxnsTold;
      ghost var ls, next, txns0, held0 := Locks(), nextTxnId, txnsOut, locksHeldOut;
      ghost var k := TopMatch(Proj(s), x);
      ghost var down := KeepOf(s, x);
      found, stack, restart := false, s, [];
      assert s[..|s|] == s;
      StartTearing(ls, s, down, ts, ctx, ctxOld, next, txns0, held0);
      while stack != []
        invariant |stack| <= |s| && k < |stack| && stack == s[..|stack|]
        invariant nextTxnId == next + |restart| && Renewals(s, |stack|, restart, ts, ctx, next)
        invariant RowsLeft(ls, s, |stack|, down, ts, ctxOld, txns0, held0, txnsOut, locksHeldOut)
        decreases |stack|
      {
        var top := stack[|stack| - 1];
        MatchStep(s, x, |stack|, k);
        RowsStep(ls, s, |stack|, down, ts, ctxOld, txns0, held0, txnsOut, locksHeldOut);
        RenewalsStep(s, |stack|, restart, ts, ctx, next);
        WriteTopTxn(stack, ts, ctxOld);
        stack := stack[..|stack| - 1];
        if top.lock == x.lock && top.subLock == x.subLock {
          RenewalsDone(s, x, |stack| + 1, restart, ts, ctx, next);
          found := true;
          break;
        }
        restart := [top.(id := nextTxnId, startTs := ts, startCtx := ctx, memAccessCounter := 0)] + restart;
        nextTxnId := nextTxnId + 1;
      }
      if !found {
        RenewalsDone(s, x, 0, restart, ts, ctx, next);
      }
      RowsDone(ls, s, down, ts, ctxOld, txns0, held0, txnsOut, locksHeldOut);
      TornTxnsTold(txns0, s, down, ts, ctxOld);
    }

    // Releases a sub-lock in context ctx and finishes the TXN it started; ctxOld is where the V was seen.
    method FinishTxn(x: Sub, ts: nat, removeReader: bool, ctx: int, ctxOld: int) returns (found: bool)
      requires Valid()
      modifies this`activeTxns, this`nextTxnId, this`txnsOut, this`locksHeldOut
      ensures Valid()
      ensures Abs() == Finish(old(Abs()), x, ts, removeReader, ctx, ctxOld)
      ensures found == OnStack(old(Abs()), ctx, x)
      ensures TxnsTold(old(txnsOut), txnsOut, old(Stack(ctx)), KeepOf(old(Stack(ctx)), x), ts, ctxOld)
    {
      hide TxnsTold, Typed, WellKinded, TornTxnRows, TornHeldRows, WithoutReaders, TopMatch, Proj, Finish, OnStack, Addressed, Locks,
        Above, Restarted;
      ghost var e := Abs();
      TypedStack(e, ctx);
      var stack, restart;
      found, stack, restart := TearDown(Stack(ctx), x, ts, ctx, ctxOld);
      if found && removeReader {
        stack := EraseReaders(stack, x.lock);
      }
      activeTxns := activeTxns[ctx := stack + restart];
      Assembled(e, Abs(), x, ts, removeReader, ctx, ctxOld, stack, restart);
    }

    method StartTxn(x: Sub, ts: nat, ctx: int)
      requires Valid() && x.lock < |arena| && Locks()[x.lock].Permits(x.subLock)
      modifies this`activeTxns, this`nextTxnId
      ensures Valid()
      ensures Abs() == Start(old(Abs()), x, ts, ctx)
    {
      hide Typed;
      activeTxns := activeTxns[ctx := Stack(ctx) + [Txn(nextTxnId, ts, ctx, 0, x.lock, x.subLock)]];
      nextTxnId := nextTxnId + 1;
      assert old(Abs()).Stack(ctx) == old(Stack(ctx));
      StartTyped(old(Abs()), x, ts, ctx);
    }

    // The final V()s nobody has seen: every TXN still open is flushed, topmost first.
    method CloseContext(ctx: int, ts: nat)
      requires Valid()
      modifies this`activeTxns, this`nextTxnId, this`txnsOut, this`locksHeldOut
      ensures Valid()
      ensures Abs() == CloseCtx(old(Abs()), ctx, ts)
      ensures Stack(ctx) == []
    {
      hide Typed, Finish, Addressed;
      ghost var e := Abs();
      while HasActiveTxn(ctx)
        invariant Valid()
        invariant CloseCtx(Abs(), ctx, ts) == CloseCtx(e, ctx, ts)
        decreases |Stack(ctx)|
      {
        ghost var before := Abs();
        assert before.Stack(ctx) == Stack(ctx);
        FinishTop(before, ctx, ts);
        FinishTyped(before, SubOf(ActiveTxn(ctx)), ts, ctx, ctx);
        var found := FinishTxn(SubOf(ActiveTxn(ctx)), ts, false, ctx, ctx);
        assert Abs().Stack(ctx) == Stack(ctx);
      }
      assert Abs().Stack(ctx) == Stack(ctx);
    }

    method CloseAllTxns(ts: nat)
      requires Valid()
      modifies this`activeTxns, this`nextTxnId, this`txnsOut, this`locksHeldOut
      ensures Valid()
      ensures Abs() == CloseAll(old(Abs()), ts)
    {
      hide Typed, CloseCtx, Addressed;
      ghost var e := Abs();
      var rest := activeTxns.Keys;
      while rest != {}
        invariant Valid()
        invariant CloseCtxs(Abs(), rest, ts) == CloseAll(e, ts)
      {
        SomeKey(rest);
        var ctx := LowestKey(rest);
        LowestIs(rest, ctx);
        CloseContext(ctx, ts);
        rest := rest - {ctx};
      }
    }

    method FindLock(address: nat) returns (lock: Option<nat>)
      ensures lock == if address in locks then Some(locks[address]) else None
    {
      if address in locks {
        return Some(locks[address]);
      }
      return None;
    }

    // Any lock that lived in a freed area is forgotten; TXNs keep theirs.
    method DeleteLockByArea(address: nat, size: nat)
      requires Valid()
      modifies this`locks
      ensures Valid()
      ensures Abs() == DeleteLocks(old(Abs()), address, size)
      ensures address + size < U64 ==> forall a ::
        (a in locks <==> a in old(locks) && !(address <= a < address + size)) && (a in locks ==> locks[a] == old(locks)[a])
    {
      hide Typed;
      ghost var e := Abs();
      var todo := locks.Keys;
      while todo != {}
        invariant todo <= e.byAddress.Keys
        invariant locks == map a | a in e.byAddress && (a in todo || !(address <= a < Add64(address, size))) :: e.byAddress[a]
      {
        SomeAddress(todo);
        var a :| a in todo;
        todo := todo - {a};
        if address <= a < Add64(address, size) {
          locks := locks - {a};
        }
      }
      KindsKeepTyped(e, Abs());
    }

    method AllocLock(kind: LockKind, address: nat, recursive: bool) returns (number: nat)
      requires Valid() && address !in locks
      modifies this`arena, this`locks, this`nextLockId
      ensures Valid() && number == |old(arena)| && |arena| == number + 1
      ensures arena[..number] == old(arena) && fresh(arena[number])
      ensures Abs() == TxnEngine.AllocLock(old(Abs()), kind, address, recursive)
    {
      hide Typed;
      ghost var e := Abs();
      var lock := new RWLock(kind, address, recursive);
      var next := lock.InitIds(nextLockId);
      nextLockId := next;
      number := |arena|;
      arena := arena + [lock];
      locks := locks[address := number];
      assert Locks() == e.locks + [lock.State()];
      KindsKeepTyped(e, Abs());
    }
  }

  lemma {:induction false} Assembled(e: Engine, e': Engine, x: Sub, ts: nat, removeReader: bool, ctx: int, ctxOld: int,
                  stack: seq<Txn>, restart: seq<Txn>)
    requires Typed(e) && Addressed(e) && WellKinded(e.locks, Proj(e.Stack(ctx)))
    requires var s := e.Stack(ctx);
      && stack == Kept(s, x, removeReader) && restart == Restarted(Above(s, x), ts, ctx, e.nextTxnId)
      && e' == e.(stacks := e.stacks[ctx := stack + restart], nextTxnId := e.nextTxnId + |restart|,
                  txnRows := e.txnRows + TornTxnRows(s, KeepOf(s, x), ts, ctxOld),
                  heldRows := e.heldRows + TornHeldRows(e.locks, s, KeepOf(s, x)))
    ensures e' == Finish(e, x, ts, removeReader, ctx, ctxOld)
    ensures Typed(e') && Addressed(e')
    ensures OnStack(e, ctx, x) <==> TopMatch(Proj(e.Stack(ctx)), x) >= 0
  {
    hide Typed, WellKinded, TornTxnRows, TornHeldRows, TopMatch, Proj, Kept, FinishedStack;
    FinishedParts(e.Stack(ctx), x, ts, removeReader, ctx, e.nextTxnId);
    FinishAnyTyped(e, x, ts, removeReader, ctx, ctxOld);
    FinishIdentity(e, x, ts, removeReader, ctx, ctxOld);
  }

  lemma {:induction false} FinishAnyTyped(e: Engine, x: Sub, ts: nat, removeReader: bool, c: int, ctxOld: int)
    requires Typed(e)
    ensures Typed(Finish(e, x, ts, removeReader, c, ctxOld))
  {
    hide Typed, TornTxnRows, TornHeldRows, FinishedStack;
    TypedStack(e, c);
    if removeReader {
      FlushTyped(e, x, ts, c);
      KindsKeepTyped(Finish(e, x, ts, true, c, c), Finish(e, x, ts, true, c, ctxOld));
    } else {
      FinishTyped(e, x, ts, c, ctxOld);
    }
  }

  // The TXNs from position n on have been renewed.
  ghost predicate Renewals(s: seq<Txn>, n: nat, restart: seq<Txn>, ts: nat, ctx: int, next: nat) {
    n + |restart| == |s| &&
    forall i :: 0 <= i < |restart| ==>
      (restart[i] == s[n + i].(id := next + (|restart| - 1 - i), startTs := ts, startCtx := ctx, memAccessCounter := 0))
  }

  lemma {:induction false} RenewalsStep(s: seq<Txn>, n: nat, restart: seq<Txn>, ts: nat, ctx: int, next: nat)
    requires n > 0 && Renewals(s, n, restart, ts, ctx, next)
    ensures Renewals(s, n - 1, [s[n - 1].(id := next + |restart|, startTs := ts, startCtx := ctx, memAccessCounter := 0)]
                               + restart, ts, ctx, next)
  {
  }

  lemma {:induction false} RenewalsDone(s: seq<Txn>, x: Sub, n: nat, restart: seq<Txn>, ts: nat, ctx: int, next: nat)
    requires Renewals(s, n, restart, ts, ctx, next) && n == TopMatch(Proj(s), x) + 1
    ensures restart == Restarted(Above(s, x), ts, ctx, next)
  {
    hide TopMatch, Proj;
  }

  lemma {:induction false} MatchStep(s: seq<Txn>, x: Sub, n: nat, k: int)
    requires 0 < n <= |s| && k == TopMatch(Proj(s), x) && k < n
    ensures SubOf(s[n - 1]) == x ==> k == n - 1
    ensures SubOf(s[n - 1]) != x ==> k < n - 1
  {
    assert Proj(s)[n - 1] == SubOf(s[n - 1]);
  }

  // With the rows written so far, those of the lowest n TXNs are left to be written.
  // The lowest context that holds x, or ctx if none does.
  ghost predicate LowestHolder(e: Engine, x: Sub, ctx: int, c: int) {
    if exists d :: OnStack(e, d, x) then OnStack(e, c, x) && forall d :: d < c ==> !OnStack(e, d, x) else c == ctx
  }

  lemma {:induction false} FindIsLowest(e: Engine, x: Sub, ctx: int)
    ensures LowestHolder(e, x, ctx, FindCtx(e, x, ctx))
  {
    forall d ensures d in CtxsWith(e, x) <==> OnStack(e, d, x) {}
    if d :| OnStack(e, d, x) {
      assert d in CtxsWith(e, x);
    }
  }

  ghost predicate RowsLeft(ls: seq<LockState>, s: seq<Txn>, n: nat, down: nat, ts: nat, ctxOld: int,
                           txns0: seq<TxnRow>, held0: seq<HeldRow>, txns: seq<TxnRow>, held: seq<HeldRow>) {
    && down <= n <= |s|
    && WellKinded(ls, Proj(s)) && WellKinded(ls, Proj(s[..n]))
    && txns + TornTxnRows(s[..n], down, ts, ctxOld) == txns0 + TornTxnRows(s, down, ts, ctxOld)
    && held + TornHeldRows(ls, s[..n], down) == held0 + TornHeldRows(ls, s, down)
  }

  lemma {:induction false} StartTearing(ls: seq<LockState>, s: seq<Txn>, down: nat, ts: nat, ctx: int, ctxOld: int,
      next: nat,
                     txns: seq<TxnRow>, held: seq<HeldRow>)
    requires down <= |s| && WellKinded(ls, Proj(s))
    ensures RowsLeft(ls, s, |s|, down, ts, ctxOld, txns, held, txns, held) && Renewals(s, |s|, [], ts, ctx, next)
  {
    assert s[..|s|] == s;
  }

  lemma {:induction false} RowsStep(ls: seq<LockState>, s: seq<Txn>, n: nat, down: nat, ts: nat, ctxOld: int,
                 txns0: seq<TxnRow>, held0: seq<HeldRow>, txns: seq<TxnRow>, held: seq<HeldRow>)
    requires RowsLeft(ls, s, n, down, ts, ctxOld, txns0, held0, txns, held) && down < n
    ensures WellKinded(ls, Proj(s[..n]))
    ensures RowsLeft(ls, s, n - 1, down, ts, ctxOld, txns0, held0,
                     txns + ClosingTxnRow(s[..n], ts, ctxOld), held + ClosingHeldRows(ls, s[..n]))
  {
    hide TornTxnRows, TornHeldRows, ClosingTxnRow, ClosingHeldRows;
    TornStep(ls, s[..n], down, ts, ctxOld);
    assert s[..n][..n - 1] == s[..n - 1];
  }

  lemma {:induction false} RowsDone(ls: seq<LockState>, s: seq<Txn>, down: nat, ts: nat, ctxOld: int,
                 txns0: seq<TxnRow>, held0: seq<HeldRow>, txns: seq<TxnRow>, held: seq<HeldRow>)
    requires RowsLeft(ls, s, down, down, ts, ctxOld, txns0, held0, txns, held)
    ensures txns == txns0 + TornTxnRows(s, down, ts, ctxOld)
    ensures held == held0 + TornHeldRows(ls, s, down)
  {
    TornNothing(ls, s[..down], ts, ctxOld);
  }

  lemma {:induction false} TornNothing(ls: seq<LockState>, s: seq<Txn>, ts: nat, ctxOld: int)
    requires WellKinded(ls, Proj(s))
    ensures TornTxnRows(s, |s|, ts, ctxOld) == [] && TornHeldRows(ls, s, |s|) == []
  {
  }

  lemma {:induction false} TornStep(ls: seq<LockState>, s: seq<Txn>, down: nat, ts: nat, ctxOld: int)
    requires down < |s| && WellKinded(ls, Proj(s))
    ensures WellKinded(ls, Proj(s[..|s| - 1]))
    ensures TornTxnRows(s, down, ts, ctxOld) == ClosingTxnRow(s, ts, ctxOld) + TornTxnRows(s[..|s| - 1], down, ts, ctxOld)
    ensures TornHeldRows(ls, s, down) == ClosingHeldRows(ls, s) + TornHeldRows(ls, s[..|s| - 1], down)
  {
    assert Proj(s[..|s| - 1]) == Proj(s)[..|s| - 1];
  }

  lemma {:induction false} HeldRowsStep(ls: seq<LockState>, s: seq<Txn>, txn: nat, seen: set<int>)
    requires s != [] && WellKinded(ls, Proj(s))
    ensures WellKinded(ls, Proj(s[1..])) && s[0].lock < |ls| && ls[s[0].lock].Permits(s[0].subLock)
    ensures var lock := ls[s[0].lock]; var lockId := lock.GetId(s[0].subLock);
      HeldRowsOf(ls, s, txn, seen) ==
        if lock.IsHeld() && lock.lastNPos != [] && lockId !in seen
        then [HeldRow(txn, lockId, lock.lastNPos[|lock.lastNPos| - 1].start)] + HeldRowsOf(ls, s[1..], txn, seen + {lockId})
        else HeldRowsOf(ls, s[1..], txn, seen)
  {
    assert Proj(s)[0] == SubOf(s[0]);
    assert Proj(s[1..]) == Proj(s)[1..];
  }

  // The rows for the first i entries of s are there, and those for the others will be.
  ghost predicate Collected(ls: seq<LockState>, s: seq<Txn>, txn: nat, i: nat, rows: seq<HeldRow>, seen: set<int>)
    requires WellKinded(ls, Proj(s))
  {
    i <= |s| && WellKinded(ls, Proj(s[i..])) && rows + HeldRowsOf(ls, s[i..], txn, seen) == HeldRowsOf(ls, s, txn, {})
  }

  lemma {:induction false} CollectedStarts(ls: seq<LockState>, s: seq<Txn>, txn: nat)
    requires WellKinded(ls, Proj(s))
    ensures Collected(ls, s, txn, 0, [], {})
  {
    hide HeldRowsOf, WellKinded;
    assert s[0..] == s;
  }

  lemma {:induction false} CollectedOn(ls: seq<LockState>, s: seq<Txn>, txn: nat, i: nat, rows: seq<HeldRow>, seen: set<int>)
    requires WellKinded(ls, Proj(s)) && Collected(ls, s, txn, i, rows, seen) && i < |s|
    ensures s[i].lock < |ls| && ls[s[i].lock].Permits(s[i].subLock)
    ensures var lock := ls[s[i].lock]; var lockId := lock.GetId(s[i].subLock);
      if lock.IsHeld() && lock.lastNPos != [] && lockId !in seen
      then Collected(ls, s, txn, i + 1, rows + [HeldRow(txn, lockId, lock.lastNPos[|lock.lastNPos| - 1].start)], seen + {lockId})
      else Collected(ls, s, txn, i + 1, rows, seen)
  {
    hide HeldRowsOf, WellKinded;
    assert s[i..][0] == s[i] && s[i..][1..] == s[i + 1..];
    HeldRowsStep(ls, s[i..], txn, seen);
    var lock := ls[s[i].lock];
    var lockId := lock.GetId(s[i].subLock);
    if lock.IsHeld() && lock.lastNPos != [] && lockId !in seen {
      var row := HeldRow(txn, lockId, lock.lastNPos[|lock.lastNPos| - 1].start);
      var rest := HeldRowsOf(ls, s[i + 1..], txn, seen + {lockId});
      assert rows + ([row] + rest) == rows + [row] + rest;
    }
  }

  lemma {:induction false} CollectedEnds(ls: seq<LockState>, s: seq<Txn>, txn: nat, rows: seq<HeldRow>, seen: set<int>)
    requires WellKinded(ls, Proj(s)) && Collected(ls, s, txn, |s|, rows, seen)
    ensures rows == HeldRowsOf(ls, s, txn, {})
  {
    assert s[|s|..] == [];
    HeldRowsNil(ls, txn, seen);
  }

  lemma {:induction false} HeldRowsNil(ls: seq<LockState>, txn: nat, seen: set<int>)
    ensures HeldRowsOf(ls, [], txn, seen) == []
  {
  }

  lemma {:induction false} SomeKey(s: set<int>)
    ensures s == {} || exists c :: c in s
  {
    if !exists c :: c in s {
      assert s == {};
    }
  }

  lemma {:induction false} SomeAddress(s: set<nat>)
    ensures s == {} || exists a :: a in s
  {
    if !exists a :: a in s {
      assert s == {};
    }
  }

  lemma {:induction false} LowestIs(s: set<int>, c: int)
    requires c in s && forall d :: d in s ==> c <= d
    ensures Lowest(s) == c
  {
  }

  method LowestKey(s: set<int>) returns (low: int)
    requires s != {}
    ensures low in s && forall c :: c in s ==> low <= c
  {
    var rest := s;
    SomeKey(rest);
    low :| low in rest;
    rest := rest - {low};
    while rest != {}
      invariant rest <= s && low in s
      invariant forall c :: c in s && c !in rest ==> low <= c
    {
      SomeKey(rest);
      var c :| c in rest;
      if c < low {
        low := c;
      }
      rest := rest - {c};
    }
  }
}
