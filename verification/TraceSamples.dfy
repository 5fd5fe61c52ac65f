// Two runs in which the start of a locks_held row misleads.

module TraceSamples {
  import opened TxnEngine
  import opened Wrappers
  import opened TxnAccounting
  import opened TxnAttribution
  import opened TxnReference
  import opened TraceRun
  import opened TraceTheorems
  import opened TraceSteps
  import opened TraceStarts
  import opened TraceLoss

  function ReadEvent(ts: nat, address: nat, op: LockOp, ctx: int): Event {
    LockEvent(ts, address, op, Some(ReadWrite), false, true, ctx)
  }

  // A lock with its ids, and the timestamps of its positions, all on the read side.
  function ReadLock(id: int, address: nat, stamps: seq<nat>): LockState {
    LockState(ReadWrite, id, id + 1, address, false, |stamps|, 0,
              seq(|stamps|, i requires 0 <= i < |stamps| => LockPos(ReaderLock, stamps[i])))
  }

  lemma {:induction false} ReadLockMore(id: int, address: nat, stamps: seq<nat>, ts: nat)
    ensures var lock := ReadLock(id, address, stamps);
      lock.(readers := lock.readers + 1, lastNPos := lock.lastNPos + [LockPos(ReaderLock, ts)])
        == ReadLock(id, address, stamps + [ts])
  {
  }

  lemma {:induction false} ReadLockFrom(id: int, address: nat)
    ensures LockState(ReadWrite, id, id + 1, address, false, 0, 0, []) == ReadLock(id, address, [])
  {
  }

  // A P_READ of a known lock, or of a new one.
  lemma {:induction false} ReadKnown(cfg: Config, c: Conv, ts: nat, address: nat, ctx: int, id: int, stamps: seq<nat>)
    requires Typed(c.engine) && Addressed(c.engine)
    requires address in c.engine.byAddress && c.engine.locks[c.engine.byAddress[address]] == ReadLock(id, address, stamps)
    ensures var e, l, k := c.engine, c.engine.byAddress[address], cfg.Ctx(ctx);
      HandlePV(cfg, c, ReadEvent(ts, address, PRead, ctx)) == Done(c.(engine := e.(
        locks := e.locks[l := ReadLock(id, address, stamps + [ts])],
        stacks := e.stacks[k := e.Stack(k) + [Txn(e.nextTxnId, ts, k, 0, l, ReaderLock)]],
        nextTxnId := e.nextTxnId + 1)))
  {
    hide Typed, Transition;
    var e := c.engine;
    ReadStep(e, e.byAddress[address], ts, cfg.Ctx(ctx));
    ReadLockMore(id, address, stamps, ts);
  }

  lemma {:induction false} ReadNew(cfg: Config, c: Conv, ts: nat, address: nat, ctx: int)
    requires Typed(c.engine) && Addressed(c.engine) && address !in c.engine.byAddress
    ensures var e, l, k := c.engine, |c.engine.locks|, cfg.Ctx(ctx);
      HandlePV(cfg, c, ReadEvent(ts, address, PRead, ctx)) == Done(c.(engine := e.(
        locks := e.locks + [ReadLock(e.nextLockId, address, [ts])],
        byAddress := e.byAddress[address := l],
        stacks := e.stacks[k := e.Stack(k) + [Txn(e.nextTxnId, ts, k, 0, l, ReaderLock)]],
        nextTxnId := e.nextTxnId + 1, nextLockId := e.nextLockId + 2)))
  {
    hide Typed, Transition;
    var ev := ReadEvent(ts, address, PRead, ctx);
    var e, l := EngineFor(cfg, c, ev), |c.engine.locks|;
    AllocTyped(cfg, c, ev);
    ReadLockFrom(c.engine.nextLockId, address);
    ReadStep(e, l, ts, cfg.Ctx(ctx));
    ReadLockMore(c.engine.nextLockId, address, [], ts);
    assert [] + [ts] == [ts];
    assert e.locks[l := ReadLock(c.engine.nextLockId, address, [ts])]
        == c.engine.locks + [ReadLock(c.engine.nextLockId, address, [ts])];
  }

  // ----- a lock taken first starts last ----------------------------------------------------------------

  const A := 0x10
  const B := 0x20

  // Lock A, lock B, lock A again, and an access.
  function AgainEvents(): seq<Event> {
    [AllocEvent(0x1000, 0x100, true),
     ReadEvent(1, A, PRead, 0), ReadEvent(2, B, PRead, 0), ReadEvent(3, A, PRead, 0),
     AccessEvent(4, false, 0x1000, 8, 0x1000, 0)]
  }

  function AgainStack(n: nat): seq<Txn> {
    [Txn(1, 1, 0, 0, 0, ReaderLock), Txn(2, 2, 0, 0, 1, ReaderLock), Txn(3, 3, 0, n, 0, ReaderLock)]
  }

  function AgainEngine(n: nat): Engine {
    Engine([ReadLock(1, A, [1, 3]), ReadLock(3, B, [2])], map[A := 0, B := 1], map[0 := AgainStack(n)], 4, 5, [], [])
  }

  // The rows of the TXN on top of a stack, when it is closed.
  lemma {:induction false} TopRows(e: Engine, ctx: int, ts: nat, rows: seq<HeldRow>)
    requires Typed(e) && e.Stack(ctx) != [] && WellKinded(e.locks, Proj(e.Stack(ctx)))
    requires ClosingHeldRows(e.locks, e.Stack(ctx)) == rows
    ensures var s := e.Stack(ctx); var e' := Finish(e, SubOf(s[|s| - 1]), ts, false, ctx, ctx);
      e'.heldRows == e.heldRows + rows && Typed(e')
  {
    hide Typed, WellKinded, Proj, ClosingHeldRows, FinishedStack, TornTxnRows, Restarted;
    var s := e.Stack(ctx);
    var x := SubOf(s[|s| - 1]);
    TopIsMatch(s);
    FinishTyped(e, x, ts, ctx, ctx);
    assert TornHeldRows(e.locks, s, |s| - 1) == rows by {
      KindedInit(e.locks, s);
      assert rows + [] == rows;
    }
  }

  lemma {:induction false} TopIsMatch(s: seq<Txn>)
    requires s != []
    ensures TopMatch(Proj(s), SubOf(s[|s| - 1])) == |s| - 1
  {
  }

  lemma {:induction false} AgainRows(e: Engine)
    requires e == AgainEngine(1)
    ensures WellKinded(e.locks, Proj(e.Stack(0)))
    ensures ClosingHeldRows(e.locks, e.Stack(0)) == [HeldRow(3, 1, 3), HeldRow(3, 3, 2)]
  {
    var s := AgainStack(1);
    var s1 := [s[1], s[2]];
    var s2 := [s[2]];
    assert s[1..] == s1 && s1[1..] == s2 && s2[1..] == [];
    assert Proj(s)[0] == SubOf(s[0]) && Proj(s1)[0] == SubOf(s1[0]) && Proj(s2)[0] == SubOf(s2[0]);
    assert {} + {1} == {1};
    assert HeldRowsOf(e.locks, s2, 3, {1} + {3}) == [];
    assert HeldRowsOf(e.locks, s1, 3, {1}) == [HeldRow(3, 3, 2)];
    assert HeldRowsOf(e.locks, s, 3, {}) == [HeldRow(3, 1, 3)] + HeldRowsOf(e.locks, s1, 3, {} + {1});
  }

  // Where only one context has TXNs, its topmost is closed first, and those rows stay.
  lemma {:induction false} ClosedFirst(e: Engine, cs: set<int>, c: int, ts: nat, rows: seq<HeldRow>)
    requires Typed(e) && c in cs && e.Stack(c) != [] && e.heldRows == []
    requires forall d :: d in cs && d != c ==> e.Stack(d) == []
    requires WellKinded(e.locks, Proj(e.Stack(c))) && ClosingHeldRows(e.locks, e.Stack(c)) == rows
    ensures rows <= CloseCtxs(e, cs, ts).heldRows
    decreases cs
  {
    hide Typed, WellKinded, ClosingHeldRows, Finish, NewRowsTop, Proj;
    var low := Lowest(cs);
    if low == c {
      var e1 := CloseCtx(e, c, ts);
      TopRows(e, c, ts, rows);
      var s := e.Stack(c);
      FinishTop(e, c, ts);
      CloseCtxRowsTop(Finish(e, SubOf(s[|s| - 1]), ts, false, c, c), c, ts);
      PrefixStays(Finish(e, SubOf(s[|s| - 1]), ts, false, c, c), e1, rows);
      CloseCtxsRowsTop(e1, cs - {low}, ts);
      PrefixStays(e1, CloseCtxs(e, cs, ts), rows);
    } else {
      assert CloseCtx(e, low, ts) == e;
      ClosedFirst(e, cs - {low}, c, ts, rows);
    }
  }

  lemma {:induction false} PrefixStays(e: Engine, e': Engine, rows: seq<HeldRow>)
    requires NewRowsTop(e, e') && (rows <= e.heldRows || [] + rows <= e.heldRows)
    ensures rows <= e'.heldRows
  {
    hide RowTop;
    assert [] + rows == rows;
    assert rows == e.heldRows[..|rows|] == e'.heldRows[..|e.heldRows|][..|rows|] == e'.heldRows[..|rows|];
  }

  function AgainOnce(): Conv {
    Allocated().(engine := Engine([ReadLock(1, A, [1])], map[A := 0], map[0 := AgainStack(0)[..1]], 2, 3, [], []))
  }

  function AgainTwice(): Conv {
    Allocated().(engine := Engine([ReadLock(1, A, [1]), ReadLock(3, B, [2])], map[A := 0, B := 1],
                                  map[0 := AgainStack(0)[..2]], 3, 5, [], []))
  }

  function AgainThrice(): Conv {
    Allocated().(engine := AgainEngine(0))
  }

  lemma {:induction false} AgainFirst(cfg: Config, c: Conv)
    requires c == Allocated()
    ensures Typed(c.engine) && Addressed(c.engine) ==> After(cfg, c, AgainEvents()[1]) == Done(AgainOnce())
  {
    hide Typed, HandlePV, ReadLock;
    if Typed(c.engine) && Addressed(c.engine) {
      ReadNew(cfg, c, 1, A, 0);
      var s := AgainStack(0)[..1];
      assert [] + [ReadLock(1, A, [1])] == [ReadLock(1, A, [1])] && [] + [AgainStack(0)[0]] == s;
      assert c.engine.stacks[0 := s] == map[0 := s] && c.engine.byAddress[A := 0] == map[A := 0];
    }
  }

  lemma {:induction false} AgainSecond(cfg: Config, c: Conv)
    requires c == AgainOnce()
    ensures Typed(c.engine) && Addressed(c.engine) ==> After(cfg, c, AgainEvents()[2]) == Done(AgainTwice())
  {
    hide Typed, HandlePV, ReadLock;
    if Typed(c.engine) && Addressed(c.engine) {
      ReadNew(cfg, c, 2, B, 0);
      var s := AgainStack(0)[..2];
      assert AgainStack(0)[..1] + [AgainStack(0)[1]] == s;
      assert [ReadLock(1, A, [1])] + [ReadLock(3, B, [2])] == [ReadLock(1, A, [1]), ReadLock(3, B, [2])];
      assert c.engine.stacks[0 := s] == map[0 := s] && c.engine.byAddress[B := 1] == map[A := 0, B := 1];
    }
  }

  lemma {:induction false} AgainThird(cfg: Config, c: Conv)
    requires c == AgainTwice()
    ensures Typed(c.engine) && Addressed(c.engine) ==> After(cfg, c, AgainEvents()[3]) == Done(AgainThrice())
  {
    hide Typed, HandlePV, ReadLock;
    if Typed(c.engine) && Addressed(c.engine) {
      ReadKnown(cfg, c, 3, A, 0, 1, [1]);
      var s, e := AgainStack(0), c.engine;
      assert s[..2] + [s[2]] == s && [1] + [3] == [1, 3];
      assert e.locks[0 := ReadLock(1, A, [1, 3])] == AgainEngine(0).locks;
      assert e.stacks[0 := s] == map[0 := s];
    }
  }

  function AgainAccess(): MemAccess { MemAccess(1, 4, 1, false, 8, 0x1000, 0) }

  function AgainBuffered(): Conv {
    AgainThrice().(buffer := [AgainAccess()], nextAccessId := 2)
  }

  lemma {:induction false} AgainEnds(cfg: Config)
    ensures var c := Initial().conv;
      Typed(c.engine) && Addressed(c.engine) ==> After(cfg, c, AgainEvents()[0]) == Done(Allocated())
    ensures var c := AgainThrice();
      Typed(c.engine) && Addressed(c.engine) ==> After(cfg, c, AgainEvents()[4]) == Done(AgainBuffered())
  {
    hide Typed, HandlePV, AgainEngine;
    assert Initial().conv.allocs[0x1000 := Alloc(1, 0x100)] == map[0x1000 := Alloc(1, 0x100)];
    assert [] + [AgainAccess()] == [AgainAccess()];
  }

  // One waiting access is written when the input ends.
  lemma {:induction false} OneWritten(cfg: Config, c: Conv)
    requires |c.buffer| == 1
    ensures WriteMemAccesses(cfg, c, true, 0).engine == CountAccess(c.engine, cfg.Ctx(c.buffer[0].ctx))
  {
    hide CountAccess, ActiveTxn;
    var e := CountAccess(c.engine, cfg.Ctx(c.buffer[0].ctx));
    var rows := c.rows + [AccessRow(c.buffer[0], ActiveTxn(c.engine, cfg.Ctx(c.buffer[0].ctx)))];
    assert c.buffer[..1] == c.buffer && c.buffer[1..] == [];
    assert FlushBuffer(cfg, e, rows, []) == (e, rows);
  }

  lemma {:induction false} AgainCounted()
    ensures CountAccess(AgainEngine(0), 0) == AgainEngine(1)
  {
    var s := AgainStack(0);
    assert s[2 := s[2].(memAccessCounter := 1)] == AgainStack(1);
    assert AgainEngine(0).stacks[0 := AgainStack(1)] == map[0 := AgainStack(1)];
  }

  lemma {:induction false} AgainRun(cfg: Config) returns (w: World)
    ensures Runnable(Initial()) && Runnable(w) && w.conv == AgainBuffered()
    ensures Run(cfg, Initial(), AgainEvents()) == Done(w)
  {
    hide Typed, HandlePV, WriteMemAccesses, AgainOnce, AgainTwice, AgainEngine, IdsUnique, Run;
    var evs := AgainEvents();
    InitialIds();
    NothingToWrite(cfg, Initial().conv);
    NothingToWrite(cfg, Allocated());
    NothingToWrite(cfg, AgainOnce()) by { assert AgainOnce().buffer == [] by { NothingWaits(); } }
    NothingToWrite(cfg, AgainTwice()) by { assert AgainTwice().buffer == [] by { NothingWaits(); } }
    AgainEnds(cfg);
    AgainFirst(cfg, Allocated());
    AgainSecond(cfg, AgainOnce());
    AgainThird(cfg, AgainTwice());
    assert evs == [evs[0]] + ([evs[1]] + ([evs[2]] + ([evs[3]] + ([evs[4]] + []))));
    var w1 := OneStep(cfg, Initial(), evs[0], [evs[1]] + ([evs[2]] + ([evs[3]] + ([evs[4]] + []))), Allocated());
    var w2 := OneStep(cfg, w1, evs[1], [evs[2]] + ([evs[3]] + ([evs[4]] + [])), AgainOnce());
    var w3 := OneStep(cfg, w2, evs[2], [evs[3]] + ([evs[4]] + []), AgainTwice());
    var w4 := OneStep(cfg, w3, evs[3], [evs[4]] + [], AgainThrice());
    w := OneStep(cfg, w4, evs[4], [], AgainBuffered());
    NoMoreEvents(cfg, w);
  }

  lemma {:induction false} NothingWaits()
    ensures AgainOnce().buffer == AgainTwice().buffer == []
  {
  }

  lemma {:induction false} NoMoreEvents(cfg: Config, w: World)
    requires Runnable(w)
    ensures Run(cfg, w, []) == Done(w)
  {
    hide Runnable;
  }

  lemma {:induction false} FinalIs(cfg: Config, w: World, ts: nat)
    requires Runnable(w)
    ensures var e := WriteMemAccesses(cfg, w.conv, true, 0).engine;
      Typed(e) && Final(cfg, w, ts).conv.engine == CloseCtxs(e, e.stacks.Keys, ts)
  {
    hide Typed, FlushBuffer, CloseCtxs;
    WriteKeepsTyped(cfg, w.conv, true, 0);
  }

  // In that run the TXN of the access is linked to lock A, which was taken first, with start 3, and to
  // lock B, which was taken after it, with start 2.
  lemma {:induction false} FirstTakenStartsLast(cfg: Config, ts: nat)
    ensures Runnable(Initial()) && Run(cfg, Initial(), AgainEvents()).Done?
    ensures var rows := Final(cfg, Run(cfg, Initial(), AgainEvents()).value, ts).conv.engine.heldRows;
      |rows| >= 2 && rows[0] == HeldRow(3, 1, 3) && rows[1] == HeldRow(3, 3, 2)
  {
    hide Runnable, Run, Typed, WriteMemAccesses, CloseCtxs, AgainEvents, Initial, CountAccess, ClosingHeldRows, WellKinded, Proj;
    var w := AgainRun(cfg);
    var e, rows := AgainEngine(1), [HeldRow(3, 1, 3), HeldRow(3, 3, 2)];
    OneWritten(cfg, w.conv);
    AgainCounted();
    FinalIs(cfg, w, ts);
    AgainRows(e);
    ClosedFirst(e, e.stacks.Keys, 0, ts, rows);
    var all := Final(cfg, w, ts).conv.engine.heldRows;
    assert rows == all[..2] && rows[0] == all[0] && rows[1] == all[1];
  }

  // ----- a start that belongs to a P that is over ---------------------------------------------------------

  // Two contexts read one lock, the first lets go, and the second makes an access.
  function SharedEvents(): seq<Event> {
    [AllocEvent(0x1000, 0x100, true),
     ReadEvent(1, A, PRead, 1), ReadEvent(2, A, PRead, 2), ReadEvent(3, A, VRead, 1),
     AccessEvent(4, false, 0x1000, 8, 0x1000, 2)]
  }

  const FIRST_READER := Txn(1, 1, 1, 0, 0, ReaderLock)

  function SecondReader(n: nat): Txn { Txn(2, 2, 2, n, 0, ReaderLock) }

  // What is left when the first reader has let go: its own position, not the second reader's.
  function SharedEngine(n: nat): Engine {
    Engine([ReadLock(1, A, [1])], map[A := 0], map[1 := [], 2 := [SecondReader(n)]], 3, 3, [], [])
  }

  function SharedOnce(): Conv {
    Allocated().(engine := Engine([ReadLock(1, A, [1])], map[A := 0], map[1 := [FIRST_READER]], 2, 3, [], []))
  }

  function SharedTwice(): Conv {
    Allocated().(engine := Engine([ReadLock(1, A, [1, 2])], map[A := 0],
                                  map[1 := [FIRST_READER], 2 := [SecondReader(0)]], 3, 3, [], []))
  }

  function SharedLeft(): Conv {
    Allocated().(engine := SharedEngine(0))
  }

  function SharedAccess(): MemAccess { MemAccess(1, 4, 1, false, 8, 0x1000, 2) }

  function SharedBuffered(): Conv {
    SharedLeft().(buffer := [SharedAccess()], nextAccessId := 2)
  }

  // The V_READ of a context that holds nothing else and has recorded nothing.
  lemma {:induction false} OnlyReadEnds(e: Engine, l: nat, ts: nat, ctx: int, t: Txn)
    requires l < |e.locks| && e.locks[l].kind.ReadWrite? && !e.locks[l].recursive && Typed(e)
    requires e.locks[l].readers > 0 && e.locks[l].lastNPos != []
    requires e.Stack(ctx) == [t] && SubOf(t) == Sub(l, ReaderLock) && t.memAccessCounter == 0
    ensures var lock := e.locks[l];
      Transition(e, l, VRead, false, ts, ctx) == Done(e.(
        locks := e.locks[l := lock.(readers := lock.readers - 1, lastNPos := Pop(lock.lastNPos))],
        stacks := e.stacks[ctx := []]))
  {
    hide Typed, Acquire, FindCtx;
    var x, lock, s := Sub(l, ReaderLock), e.locks[l], e.Stack(ctx);
    TypedStack(e, ctx);
    assert e.locks[l := lock] == e.locks;
    assert SetFlags(e, l, false) == e;
    assert TopMatch(Proj(s), x) == 0;
    assert s[1..] == [] && s[..0] == [] && [t][..0] == [];
    assert FinishedStack(s, x, ts, false, ctx, e.nextTxnId) == [];
    assert TornTxnRows(s, 0, ts, ctx) == [];
    assert TornHeldRows(e.locks, s, 0) == [];
    assert Finish(e, x, ts, false, ctx, ctx) == e.(stacks := e.stacks[ctx := []]);
    var popped := lock.(lastNPos := Pop(lock.lastNPos));
    assert FinishAndPop(e, x, ts, ctx, ctx) == e.(stacks := e.stacks[ctx := []], locks := e.locks[l := popped]);
    assert e.locks[l := popped][l := CountDown(popped, ReaderLock)] == e.locks[l := CountDown(popped, ReaderLock)];
  }

  lemma {:induction false} ReadLockLess(id: int, address: nat)
    ensures var lock := ReadLock(id, address, [1, 2]);
      lock.(readers := lock.readers - 1, lastNPos := Pop(lock.lastNPos)) == ReadLock(id, address, [1])
  {
  }

  lemma {:induction false} SharedFirst(cfg: Config, c: Conv)
    requires cfg.ctxTracing && c == Allocated()
    ensures Typed(c.engine) && Addressed(c.engine) ==> After(cfg, c, SharedEvents()[1]) == Done(SharedOnce())
  {
    hide Typed, HandlePV, ReadLock;
    if Typed(c.engine) && Addressed(c.engine) {
      ReadNew(cfg, c, 1, A, 1);
      assert [] + [ReadLock(1, A, [1])] == [ReadLock(1, A, [1])] && [] + [FIRST_READER] == [FIRST_READER];
      assert c.engine.stacks[1 := [FIRST_READER]] == map[1 := [FIRST_READER]];
      assert c.engine.byAddress[A := 0] == map[A := 0];
    }
  }

  lemma {:induction false} SharedSecond(cfg: Config, c: Conv)
    requires cfg.ctxTracing && c == SharedOnce()
    ensures Typed(c.engine) && Addressed(c.engine) ==> After(cfg, c, SharedEvents()[2]) == Done(SharedTwice())
  {
    hide Typed, HandlePV, ReadLock;
    if Typed(c.engine) && Addressed(c.engine) {
      ReadKnown(cfg, c, 2, A, 2, 1, [1]);
      assert [1] + [2] == [1, 2] && [] + [SecondReader(0)] == [SecondReader(0)];
      assert c.engine.locks[0 := ReadLock(1, A, [1, 2])] == SharedTwice().engine.locks;
      assert c.engine.stacks[2 := [SecondReader(0)]] == SharedTwice().engine.stacks;
    }
  }

  lemma {:induction false} SharedThird(cfg: Config, c: Conv)
    requires cfg.ctxTracing && c == SharedTwice()
    ensures Typed(c.engine) && Addressed(c.engine) ==> After(cfg, c, SharedEvents()[3]) == Done(SharedLeft())
  {
    hide Typed, Transition;
    var e := c.engine;
    if Typed(e) && Addressed(e) {
      OnlyReadEnds(e, 0, 3, 1, FIRST_READER);
      ReadLockLess(1, A);
      assert e.locks[0 := ReadLock(1, A, [1])] == SharedEngine(0).locks;
      assert e.stacks[1 := []] == SharedEngine(0).stacks;
    }
  }

  lemma {:induction false} SharedEnds(cfg: Config)
    ensures var c := Initial().conv;
      Typed(c.engine) && Addressed(c.engine) ==> After(cfg, c, SharedEvents()[0]) == Done(Allocated())
    ensures var c := SharedLeft();
      Typed(c.engine) && Addressed(c.engine) ==> After(cfg, c, SharedEvents()[4]) == Done(SharedBuffered())
  {
    hide Typed, HandlePV, SharedEngine;
    assert Initial().conv.allocs[0x1000 := Alloc(1, 0x100)] == map[0x1000 := Alloc(1, 0x100)];
    assert [] + [SharedAccess()] == [SharedAccess()];
  }

  lemma {:induction false} SharedCounted()
    ensures CountAccess(SharedEngine(0), 2) == SharedEngine(1)
  {
    assert [SecondReader(0)][0 := SecondReader(0).(memAccessCounter := 1)] == [SecondReader(1)];
    assert SharedEngine(0).stacks[2 := [SecondReader(1)]] == SharedEngine(1).stacks;
  }

  lemma {:induction false} SharedRows(e: Engine)
    requires e == SharedEngine(1)
    ensures WellKinded(e.locks, Proj(e.Stack(2)))
    ensures ClosingHeldRows(e.locks, e.Stack(2)) == [HeldRow(2, 1, 1)]
  {
    var s := [SecondReader(1)];
    assert s[1..] == [];
    assert Proj(s)[0] == SubOf(s[0]);
    assert HeldRowsOf(e.locks, s, 2, {}) == [HeldRow(2, 1, 1)] + HeldRowsOf(e.locks, [], 2, {} + {1});
  }

  lemma {:induction false} SharedNothingWaits()
    ensures SharedOnce().buffer == SharedTwice().buffer == SharedLeft().buffer == []
  {
  }

  lemma {:induction false} SharedRun(cfg: Config) returns (w: World)
    requires cfg.ctxTracing
    ensures Runnable(Initial()) && Runnable(w) && w.conv == SharedBuffered()
    ensures Run(cfg, Initial(), SharedEvents()) == Done(w)
  {
    hide Typed, HandlePV, WriteMemAccesses, SharedOnce, SharedTwice, SharedEngine, IdsUnique, Run;
    var evs := SharedEvents();
    InitialIds();
    NothingToWrite(cfg, Initial().conv);
    NothingToWrite(cfg, Allocated());
    NothingToWrite(cfg, SharedOnce()) by { assert SharedOnce().buffer == [] by { SharedNothingWaits(); } }
    NothingToWrite(cfg, SharedTwice()) by { assert SharedTwice().buffer == [] by { SharedNothingWaits(); } }
    SharedEnds(cfg);
    SharedFirst(cfg, Allocated());
    SharedSecond(cfg, SharedOnce());
    SharedThird(cfg, SharedTwice());
    assert evs == [evs[0]] + ([evs[1]] + ([evs[2]] + ([evs[3]] + ([evs[4]] + []))));
    var w1 := OneStep(cfg, Initial(), evs[0], [evs[1]] + ([evs[2]] + ([evs[3]] + ([evs[4]] + []))), Allocated());
    var w2 := OneStep(cfg, w1, evs[1], [evs[2]] + ([evs[3]] + ([evs[4]] + [])), SharedOnce());
    var w3 := OneStep(cfg, w2, evs[2], [evs[3]] + ([evs[4]] + []), SharedTwice());
    var w4 := OneStep(cfg, w3, evs[3], [evs[4]] + [], SharedLeft());
    w := OneStep(cfg, w4, evs[4], [], SharedBuffered());
    NoMoreEvents(cfg, w);
  }

  // In that run the one P on lock A that is outstanding at the access came at 2, and the row says 1: the
  // V of the first context took the last position, which was the second's.
  lemma {:induction false} StartOfAnEndedP(cfg: Config, ts: nat)
    requires cfg.ctxTracing
    ensures Runnable(Initial()) && Run(cfg, Initial(), SharedEvents()).Done?
    ensures var rows := Final(cfg, Run(cfg, Initial(), SharedEvents()).value, ts).conv.engine.heldRows;
      |rows| >= 1 && rows[0] == HeldRow(2, 1, 1)
  {
    hide Runnable, Run, Typed, WriteMemAccesses, CloseCtxs, SharedEvents, Initial, CountAccess, ClosingHeldRows, WellKinded, Proj;
    var w := SharedRun(cfg);
    var e, rows := SharedEngine(1), [HeldRow(2, 1, 1)];
    OneWritten(cfg, w.conv);
    SharedCounted();
    FinalIs(cfg, w, ts);
    SharedRows(e);
    ClosedFirst(e, e.stacks.Keys, 2, ts, rows);
    var all := Final(cfg, w, ts).conv.engine.heldRows;
    assert rows == all[..1] && rows[0] == all[0];
  }
}
