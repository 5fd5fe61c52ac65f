// What one lock operation of the trace converter does to its transactions, as functions on values
// (convert/main/lockmanager.cc and rwlock.cc).  A lock is named by its creation number, so a lock
// object stays distinct from the address it once lived at.

module TxnEngine {
  import opened Unsigned

  const NO_ID := U64 - 1               // (unsigned long long) -1: the id of a side a lock does not have

  datatype SubLock = ReaderLock | WriterLock

  datatype LockOp = PRead | PWrite | VRead | VWrite

  // RWLock itself and its two subclasses, which use one side only.
  datatype LockKind = ReadWrite | WriteOnly | ReadOnly

  datatype LockPos = LockPos(subLock: SubLock, start: nat)

  datatype LockState = LockState(kind: LockKind, readId: int, writeId: int, address: nat,
                                 recursive: bool, readers: nat, writers: nat, lastNPos: seq<LockPos>)
  {
    predicate Permits(subLock: SubLock) {
      match kind
      case ReadWrite => true
      case WriteOnly => subLock.WriterLock?
      case ReadOnly => subLock.ReaderLock?
    }

    predicate IsHeld() {
      match kind
      case ReadWrite => readers > 0 || writers > 0
      case WriteOnly => writers > 0
      case ReadOnly => readers > 0
    }

    function GetId(subLock: SubLock): int
      requires Permits(subLock)
    {
      if subLock.ReaderLock? then readId else writeId
    }
  }

  datatype Txn = Txn(id: nat, startTs: nat, startCtx: int, memAccessCounter: nat, lock: nat, subLock: SubLock)

  datatype TxnRow = TxnRow(id: nat, startTs: nat, startCtx: int, endTs: nat, endCtx: int)

  datatype HeldRow = HeldRow(txn: nat, lockId: int, start: nat)

  datatype Engine = Engine(locks: seq<LockState>, byAddress: map<nat, nat>, stacks: map<int, seq<Txn>>,
                           nextTxnId: nat, nextLockId: nat, txnRows: seq<TxnRow>, heldRows: seq<HeldRow>)
  {
    function Stack(ctx: int): seq<Txn> {
      if ctx in stacks then stacks[ctx] else []
    }
  }

  // Thrown: an uncaught logic_error.  Undefined: pop() on an empty std::stack.  Exit: exit() or a
  // failure status from main().
  datatype Outcome<+T> = Done(value: T) | Thrown | Undefined | Exit {
    predicate IsFailure() { !Done? }
    function PropagateFailure<U>(): Outcome<U> requires !Done? {
      if Thrown? then Thrown else if Undefined? then Undefined else Exit
    }
    function Extract(): T requires Done? { value }
  }

  // A sub-lock as the reference model sees it: the list of these is what a context holds.
  datatype Sub = Sub(lock: nat, subLock: SubLock)

  function SubOf(t: Txn): Sub { Sub(t.lock, t.subLock) }

  function Proj(s: seq<Txn>): (p: seq<Sub>)
    ensures |p| == |s| && forall i :: 0 <= i < |s| ==> p[i] == SubOf(s[i])
  {
    seq(|s|, i requires 0 <= i < |s| => SubOf(s[i]))
  }

  // Every entry names a known lock, on a side that lock has.
  predicate WellKinded(locks: seq<LockState>, s: seq<Sub>) {
    forall i :: 0 <= i < |s| ==> s[i].lock < |locks| && locks[s[i].lock].Permits(s[i].subLock)
  }

  // ----- finishTXN -------------------------------------------------------------------------

  // Index of the topmost entry for x, or -1.
  function TopMatch(s: seq<Sub>, x: Sub): (k: int)
    ensures -1 <= k < |s|
    ensures k >= 0 ==> s[k] == x
    ensures forall i :: k < i < |s| ==> s[i] != x
  {
    if s == [] then -1
    else if s[|s| - 1] == x then |s| - 1
    else TopMatch(s[..|s| - 1], x)
  }

  // The simple form finishTXN refines.
  function RemoveTop(s: seq<Sub>, x: Sub): seq<Sub> {
    var k := TopMatch(s, x);
    if k < 0 then s else s[..k] + s[k + 1..]
  }

  // The TXNs torn down on the way, set up again in the same layering order: the one that was on
  // top was restarted first and so has the lowest new id.
  function Restarted(s: seq<Txn>, ts: nat, ctx: int, next: nat): (r: seq<Txn>)
    ensures |r| == |s|
    ensures forall i :: 0 <= i < |s| ==>
      r[i] == s[i].(id := next + (|s| - 1 - i), startTs := ts, startCtx := ctx, memAccessCounter := 0)
  {
    seq(|s|, i requires 0 <= i < |s| =>
      s[i].(id := next + (|s| - 1 - i), startTs := ts, startCtx := ctx, memAccessCounter := 0))
  }

  // The locks_held rows for a TXN whose stack, from its bottom, is s: one row per lock id.
  function HeldRowsOf(locks: seq<LockState>, s: seq<Txn>, txn: nat, seen: set<int>): seq<HeldRow>
    requires WellKinded(locks, Proj(s))
    decreases |s|
  {
    if s == [] then [] else
      assert Proj(s[1..]) == Proj(s)[1..];
      assert Proj(s)[0] == SubOf(s[0]);
      var lock := locks[s[0].lock];
      var lockId := lock.GetId(s[0].subLock);
      if lock.IsHeld() && lock.lastNPos != [] && lockId !in seen then
        [HeldRow(txn, lockId, lock.lastNPos[|lock.lastNPos| - 1].start)]
          + HeldRowsOf(locks, s[1..], txn, seen + {lockId})
      else
        HeldRowsOf(locks, s[1..], txn, seen)
  }

  // Rows written when the TXN on top of s is closed; empty TXNs are suppressed.
  function ClosingTxnRow(s: seq<Txn>, ts: nat, ctxOld: int): seq<TxnRow>
    requires s != []
  {
    var top := s[|s| - 1];
    if top.memAccessCounter > 0 then [TxnRow(top.id, top.startTs, top.startCtx, ts, ctxOld)] else []
  }

  function ClosingHeldRows(locks: seq<LockState>, s: seq<Txn>): seq<HeldRow>
    requires s != [] && WellKinded(locks, Proj(s))
  {
    var top := s[|s| - 1];
    if top.memAccessCounter > 0 then HeldRowsOf(locks, s, top.id, {}) else []
  }

  // Rows written while s is torn down until k entries are left.
  function TornTxnRows(s: seq<Txn>, k: nat, ts: nat, ctxOld: int): seq<TxnRow>
    requires k <= |s|
  {
    if |s| == k then [] else ClosingTxnRow(s, ts, ctxOld) + TornTxnRows(s[..|s| - 1], k, ts, ctxOld)
  }

  function TornHeldRows(locks: seq<LockState>, s: seq<Txn>, k: nat): seq<HeldRow>
    requires k <= |s| && WellKinded(locks, Proj(s))
  {
    if |s| == k then [] else
      assert Proj(s[..|s| - 1]) == Proj(s)[..|s| - 1];
      ClosingHeldRows(locks, s) + TornHeldRows(locks, s[..|s| - 1], k)
  }

  // What the removeReader clean-up leaves of the entries below the match.
  function WithoutReaders(s: seq<Txn>, lock: nat): seq<Txn> {
    if s == [] then []
    else if SubOf(s[0]) == Sub(lock, ReaderLock) then WithoutReaders(s[1..], lock)
    else [s[0]] + WithoutReaders(s[1..], lock)
  }

  function FinishedStack(s: seq<Txn>, x: Sub, ts: nat, removeReader: bool, ctx: int, next: nat): seq<Txn> {
    var k := TopMatch(Proj(s), x);
    if k < 0 then Restarted(s, ts, ctx, next)
    else
      (if removeReader then WithoutReaders(s[..k], x.lock) else s[..k]) + Restarted(s[k + 1..], ts, ctx, next)
  }

  function Finish(e: Engine, x: Sub, ts: nat, removeReader: bool, ctx: int, ctxOld: int): (e': Engine)
    requires WellKinded(e.locks, Proj(e.Stack(ctx)))
  {
    var s := e.Stack(ctx);
    var k := TopMatch(Proj(s), x);
    var down := if k < 0 then 0 else k;
    e.(stacks := e.stacks[ctx := FinishedStack(s, x, ts, removeReader, ctx, e.nextTxnId)],
       nextTxnId := e.nextTxnId + |s| - (k + 1),
       txnRows := e.txnRows + TornTxnRows(s, down, ts, ctxOld),
       heldRows := e.heldRows + TornHeldRows(e.locks, s, down))
  }

  predicate OnStack(e: Engine, ctx: int, x: Sub) {
    TopMatch(Proj(e.Stack(ctx)), x) >= 0
  }

  function Start(e: Engine, x: Sub, ts: nat, ctx: int): Engine {
    e.(stacks := e.stacks[ctx := e.Stack(ctx) + [Txn(e.nextTxnId, ts, ctx, 0, x.lock, x.subLock)]],
       nextTxnId := e.nextTxnId + 1)
  }

  // ----- transition --------------------------------------------------------------------------

  ghost predicate Typed(e: Engine) {
    forall c: int :: WellKinded(e.locks, Proj(e.Stack(c)))
  }

  lemma {:induction false} LowestOf(s: set<int>) returns (c: int)
    requires exists c :: c in s
    ensures c in s && forall d :: d in s ==> c <= d
  {
    c :| c in s;
    var rest := s - {c};
    if exists d :: d in rest {
      var m := LowestOf(rest);
      c := if m < c then m else c;
    }
    forall d | d in s ensures c <= d { assert d in rest || d !in rest; }
  }

  lemma {:induction false} LowestExists(s: set<int>)
    requires exists c :: c in s
    ensures exists c :: c in s && forall d :: d in s ==> c <= d
  {
    var c := LowestOf(s);
  }

  ghost function Lowest(s: set<int>): (c: int)
    requires exists c :: c in s
    ensures c in s && forall d :: d in s ==> c <= d
  {
    LowestExists(s);
    var c :| c in s && forall d :: d in s ==> c <= d;
    c
  }

  function CtxsWith(e: Engine, x: Sub): set<int> {
    set c | c in e.stacks && OnStack(e, c, x)
  }

  // findTXN: the lowest context whose stack has x, or ctx when there is none.
  ghost function FindCtx(e: Engine, x: Sub, ctx: int): int {
    if exists c :: c in CtxsWith(e, x) then Lowest(CtxsWith(e, x)) else ctx
  }

  function SetLock(e: Engine, l: nat, lock: LockState): Engine
    requires l < |e.locks|
  {
    e.(locks := e.locks[l := lock])
  }

  // What the current locks are made of is all that Typed depends on.
  lemma {:induction false} KindsKeepTyped(e: Engine, e': Engine)
    requires Typed(e) && e'.stacks == e.stacks && |e'.locks| >= |e.locks|
    requires forall l :: 0 <= l < |e.locks| ==> e'.locks[l].kind == e.locks[l].kind
    ensures Typed(e')
  {
    forall c: int ensures WellKinded(e'.locks, Proj(e'.Stack(c))) {
      assert e'.Stack(c) == e.Stack(c);
      assert WellKinded(e.locks, Proj(e.Stack(c)));
    }
  }

  function Pop<T>(s: seq<T>): seq<T>
    requires s != []
  {
    s[..|s| - 1]
  }

  // A P on one side finds the other side held: flush that side in this context.
  function FlushSide(e: Engine, x: Sub, ts: nat, ctx: int): (e': Engine)
    requires x.lock < |e.locks| && WellKinded(e.locks, Proj(e.Stack(ctx)))
  {
    var e1 := Finish(e, x, ts, true, ctx, ctx);
    if !OnStack(e, ctx, x) then e1
    else if x.subLock.ReaderLock? then SetLock(e1, x.lock, e1.locks[x.lock].(readers := 0, lastNPos := []))
    else SetLock(e1, x.lock, e1.locks[x.lock].(writers := 0, lastNPos := []))
  }

  // A repeated P on the write side of a lock without the recursive flag: the V() was missed.
  function Reacquire(e: Engine, l: nat, ts: nat, ctx: int): Outcome<Engine>
    requires l < |e.locks| && WellKinded(e.locks, Proj(e.Stack(ctx)))
  {
    var x := Sub(l, WriterLock);
    var e1 := Finish(e, x, ts, false, ctx, ctx);
    if !OnStack(e, ctx, x) then Done(e1)
    else if e1.locks[l].lastNPos == [] then Undefined
    else Done(SetLock(e1, l, e1.locks[l].(lastNPos := Pop(e1.locks[l].lastNPos))))
  }

  // The switch at the head of the P cases.
  function BeforeAcquire(e: Engine, x: Sub, ts: nat, ctx: int): Outcome<Engine>
    requires x.lock < |e.locks| && WellKinded(e.locks, Proj(e.Stack(ctx)))
  {
    var lock := e.locks[x.lock];
    if lock.writers > 0 && lock.readers > 0 then Thrown
    else if lock.writers == 0 && lock.readers == 0 then Done(e)
    else if x.subLock.WriterLock? then
      if lock.readers > 0 then Done(FlushSide(e, Sub(x.lock, ReaderLock), ts, ctx))
      else if lock.recursive then Done(e)
      else Reacquire(e, x.lock, ts, ctx)
    else
      if lock.readers > 0 then Done(e)
      else Done(FlushSide(e, Sub(x.lock, WriterLock), ts, ctx))
  }

  function CountUp(lock: LockState, subLock: SubLock, ts: nat): LockState {
    var pushed := lock.(lastNPos := lock.lastNPos + [LockPos(subLock, ts)]);
    if subLock.ReaderLock? then pushed.(readers := lock.readers + 1) else pushed.(writers := lock.writers + 1)
  }

  function CountDown(lock: LockState, subLock: SubLock): LockState {
    if subLock.ReaderLock? then
      if lock.readers == 0 then lock else lock.(readers := lock.readers - 1)
    else
      if lock.writers == 0 then lock else lock.(writers := lock.writers - 1)
  }

  function AfterAcquire(e: Engine, x: Sub, ts: nat, ctx: int): Engine
    requires x.lock < |e.locks|
  {
    Start(SetLock(e, x.lock, CountUp(e.locks[x.lock], x.subLock, ts)), x, ts, ctx)
  }

  function Acquire(e: Engine, x: Sub, ts: nat, ctx: int): Outcome<Engine>
    requires x.lock < |e.locks| && WellKinded(e.locks, Proj(e.Stack(ctx)))
  {
    var e1 :- BeforeAcquire(e, x, ts, ctx);
    Done(AfterAcquire(e1, x, ts, ctx))
  }

  // finishTXN in context c for a V() seen in context ctx, forgetting the last position if it succeeds.
  function FinishAndPop(e: Engine, x: Sub, ts: nat, c: int, ctx: int): Engine
    requires x.lock < |e.locks| && e.locks[x.lock].lastNPos != [] && WellKinded(e.locks, Proj(e.Stack(c)))
  {
    var e1 := Finish(e, x, ts, false, c, ctx);
    if OnStack(e, c, x)
    then SetLock(e1, x.lock, e1.locks[x.lock].(lastNPos := Pop(e1.locks[x.lock].lastNPos)))
    else e1
  }

  ghost function ReleaseCtx(e: Engine, x: Sub, ctx: int): int {
    if OnStack(e, ctx, x) then ctx else FindCtx(e, x, ctx)
  }

  ghost function Release(e: Engine, x: Sub, ts: nat, ctx: int): Engine
    requires x.lock < |e.locks| && Typed(e)
  {
    var e1 :=
      if e.locks[x.lock].lastNPos == [] then e
      else FinishAndPop(e, x, ts, ReleaseCtx(e, x, ctx), ctx);
    SetLock(e1, x.lock, CountDown(e1.locks[x.lock], x.subLock))
  }

  function SideOf(op: LockOp): SubLock {
    if op.PRead? || op.VRead? then ReaderLock else WriterLock
  }

  function IsAcquire(op: LockOp): bool {
    op.PRead? || op.PWrite?
  }

  function SetFlags(e: Engine, l: nat, recursive: bool): Engine
    requires l < |e.locks|
  {
    SetLock(e, l, e.locks[l].(recursive := recursive))
  }

  // WLock and RLock hand every operation to their only side, which throws on the other one's.
  ghost function Transition(e: Engine, l: nat, op: LockOp, recursive: bool, ts: nat, ctx: int): Outcome<Engine>
    requires l < |e.locks| && Typed(e)
  {
    var x := Sub(l, SideOf(op));
    var e0 := SetFlags(e, l, recursive);
    KindsKeepTyped(e, e0);
    if !e.locks[l].Permits(x.subLock) then Thrown
    else if IsAcquire(op) then Acquire(e0, x, ts, ctx)
    else Done(Release(e0, x, ts, ctx))
  }

  // ----- allocLock, deleteLockByArea ---------------------------------------------------------------

  function NewLock(kind: LockKind, address: nat, recursive: bool, next: nat): LockState {
    LockState(kind, if kind.WriteOnly? then NO_ID else next,
              match kind case ReadWrite => next + 1 case WriteOnly => next case ReadOnly => NO_ID,
              address, recursive, 0, 0, [])
  }

  function AllocLock(e: Engine, kind: LockKind, address: nat, recursive: bool): Engine {
    e.(locks := e.locks + [NewLock(kind, address, recursive, e.nextLockId)],
       byAddress := e.byAddress[address := |e.locks|],
       nextLockId := e.nextLockId + (if kind.ReadWrite? then 2 else 1))
  }

  function DeleteLocks(e: Engine, address: nat, size: nat): Engine {
    e.(byAddress := map a | a in e.byAddress && !(address <= a < Add64(address, size)) :: e.byAddress[a])
  }

  ghost predicate Addressed(e: Engine) {
    forall a :: a in e.byAddress ==> e.byAddress[a] < |e.locks|
  }
}
