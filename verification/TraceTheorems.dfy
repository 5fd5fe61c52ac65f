// Whole runs of the converter: every event stream, every context, every recursion flag.

module TraceTheorems {
  import opened TxnEngine
  import opened Wrappers
  import opened TxnAccounting
  import opened TxnAttribution
  import opened TxnConflict
  import opened TxnReference
  import opened TraceRun

  // The converter, the reference model beside it, what was noted at each recorded access, and the
  // accesses the look-behind heuristic has thrown away.
  datatype World = World(conv: Conv, held: Held, seen: seq<Seen>, dropped: set<nat>)

  function Initial(): World {
    World(Conv(Engine([], map[], map[], 1, 1, [], []), map[], 1, [], 1, []), map[], [], {})
  }

  function DroppedIds(buffer: seq<MemAccess>, n: nat): set<nat>
    requires n <= |buffer|
  {
    set i | |buffer| - n <= i < |buffer| :: buffer[i].id
  }

  // The address and the kind of action writeMemAccesses is told for an event.
  function FlushArgs(ev: Event): (bool, nat) {
    match ev case OtherEvent(actionPV) => (actionPV, DEFAULT_ADDRESS) case _ => (false, DEFAULT_ADDRESS)
  }

  ghost predicate Runnable(w: World) {
    Typed(w.conv.engine) && Addressed(w.conv.engine)
  }

  function Flushed(cfg: Config, w: World, actionPV: bool, address: nat): World {
    w.(conv := WriteMemAccesses(cfg, w.conv, actionPV, address),
       dropped := w.dropped + DroppedIds(w.conv.buffer, Dropped(w.conv.buffer, actionPV, address)))
  }

  function Prepared(cfg: Config, w: World, ev: Event): World {
    if ev.AccessEvent? then w else Flushed(cfg, w, FlushArgs(ev).0, FlushArgs(ev).1)
  }

  ghost function NextHeld(cfg: Config, w: World, ev: Event): Held {
    if ev.LockEvent? && LockFor(cfg, w.conv, ev).Some?
    then RefStep(w.held, LockFor(cfg, w.conv, ev).value, ev.op, ev.recursive, cfg.Ctx(ev.ctx))
    else w.held
  }

  function NextSeen(cfg: Config, w: World, ev: Event): seq<Seen> {
    if ev.AccessEvent? && ev.base in w.conv.allocs
    then w.seen + [Seen(NewAccess(w.conv, ev), HeldIn(w.held, cfg.Ctx(ev.ctx)), ActiveTxn(w.conv.engine, cfg.Ctx(ev.ctx)))]
    else w.seen
  }

  ghost function Step(cfg: Config, w: World, ev: Event): (r: Outcome<World>)
    requires Runnable(w)
    ensures r.Done? ==> Runnable(r.value)
  {
    var p := Prepared(cfg, w, ev);
    PreparedRunnable(cfg, w, ev);
    AfterRunnable(cfg, p.conv, ev);
    var c :- After(cfg, p.conv, ev);
    Done(World(c, NextHeld(cfg, p, ev), NextSeen(cfg, p, ev), p.dropped))
  }

  lemma {:induction false} PreparedRunnable(cfg: Config, w: World, ev: Event)
    requires Runnable(w)
    ensures Runnable(Prepared(cfg, w, ev))
  {
    hide Typed, FlushBuffer;
    if !ev.AccessEvent? {
      WriteKeepsTyped(cfg, w.conv, FlushArgs(ev).0, FlushArgs(ev).1);
    }
  }

  // ----- the invariant ------------------------------------------------------------------------------

  // A lock id names one side of one lock.
  predicate IdsInjective(e: Engine) {
    && 1 <= e.nextLockId
    && (forall l, s :: 0 <= l < |e.locks| && e.locks[l].Permits(s) ==> 1 <= e.locks[l].GetId(s) < e.nextLockId)
    && (forall l, s, m, t ::
          (0 <= l < |e.locks| && 0 <= m < |e.locks| && e.locks[l].Permits(s) && e.locks[m].Permits(t)
           && e.locks[l].GetId(s) == e.locks[m].GetId(t)) ==> l == m && s == t)
  }

  // A buffered access still finds its context as it was when the access was recorded.
  ghost predicate BufferOk(cfg: Config, w: World) {
    forall i :: 0 <= i < |w.conv.buffer| ==> Pending(cfg, w.conv.engine, w.held, w.seen, w.conv.buffer[i])
  }

  ghost predicate Pending(cfg: Config, e: Engine, h: Held, seen: seq<Seen>, a: MemAccess) {
    1 <= a.id <= |seen| && seen[a.id - 1] == Seen(a, HeldIn(h, cfg.Ctx(a.ctx)), ActiveTxn(e, cfg.Ctx(a.ctx)))
  }

  // Buffered attribution is that of attributing each access at once.
  predicate AtOnce(rows: seq<AccessRow>, seen: seq<Seen>) {
    forall i :: 0 <= i < |rows| ==> 1 <= rows[i].access.id <= |seen| && rows[i].txn == seen[rows[i].access.id - 1].txn
  }

  // The accesses written or waiting, in order.
  function Accesses(c: Conv): seq<MemAccess> {
    RowAccesses(c.rows) + c.buffer
  }

  function RowAccesses(rows: seq<AccessRow>): (r: seq<MemAccess>)
    ensures |r| == |rows| && forall i :: 0 <= i < |rows| ==> r[i] == rows[i].access
  {
    seq(|rows|, i requires 0 <= i < |rows| => rows[i].access)
  }

  predicate HasId(p: seq<MemAccess>, id: nat) {
    exists i :: 0 <= i < |p| && p[i].id == id
  }

  // Every access noted is in p once, unless it was dropped.
  ghost predicate Complete(p: seq<MemAccess>, seen: seq<Seen>, dropped: set<nat>) {
    && (forall i, j :: 0 <= i < j < |p| ==> p[i].id < p[j].id)
    && (forall i :: 0 <= i < |p| ==> 1 <= p[i].id <= |seen| && seen[p[i].id - 1].access == p[i])
    && (forall id :: id in dropped ==>
          1 <= id <= |seen| && !HasId(p, id) && seen[id - 1].access.address in {0, DEFAULT_ADDRESS})
    && (forall id: nat :: 1 <= id <= |seen| && id !in dropped ==> HasId(p, id))
  }

  ghost predicate Inv(cfg: Config, w: World) {
    && Follows(w.conv.engine, w.held, w.conv.rows, w.seen)
    && Addressed(w.conv.engine) && IdsInjective(w.conv.engine)
    && BufferOk(cfg, w) && AtOnce(w.conv.rows, w.seen)
    && Complete(Accesses(w.conv), w.seen, w.dropped) && w.conv.nextAccessId == |w.seen| + 1
  }
  // ----- writeMemAccesses -----------------------------------------------------------------------------

  lemma {:induction false} CountKeepsFollows(e: Engine, h: Held, ctx: int, a: MemAccess, rows: seq<AccessRow>,
      seen: seq<Seen>)
    requires Follows(e, h, rows, seen)
    requires 1 <= a.id <= |seen| && seen[a.id - 1].access == a && seen[a.id - 1].held == HeldIn(h, ctx)
    ensures Follows(CountAccess(e, ctx), h, rows + [AccessRow(a, ActiveTxn(e, ctx))], seen)
  {
    hide Attributed, Typed, Total, CountAccess, ActiveTxn;
    var e' := CountAccess(e, ctx);
    assert Proj(e.Stack(ctx)) == HeldIn(h, ctx);
    RecordKeepsAttribution(e, ctx, a, rows, seen);
    CountFrame(e, ctx);
    CountKeepsTotal(e, ctx);
    forall c: int ensures Proj(e'.Stack(c)) == HeldIn(h, c) {
      CountKeepsProj(e, ctx, c);
    }
  }

  lemma {:induction false} CountKeepsTotal(e: Engine, ctx: int)
    requires Typed(e)
    ensures Typed(CountAccess(e, ctx)) && Total(CountAccess(e, ctx)) == Total(e)
  {
    hide Typed, Total;
    var e' := CountAccess(e, ctx);
    if e.Stack(ctx) != [] {
      TypedStack(e, ctx);
      CountKeepsProj(e, ctx, ctx);
      NewStackTyped(e, e', ctx);
      NewStackTotal(e, e', ctx);
    }
  }

  lemma {:induction false} CountKeepsActive(e: Engine, ctx: int, c: int)
    ensures ActiveTxn(CountAccess(e, ctx), c) == ActiveTxn(e, c)
  {
  }

  // What flushing leaves alone.
  predicate FlushFrame(e: Engine, e': Engine) {
    e'.locks == e.locks && e'.byAddress == e.byAddress && e'.nextLockId == e.nextLockId
  }

  lemma {:induction false} FlushKeeps(cfg: Config, e: Engine, h: Held, rows: seq<AccessRow>, seen: seq<Seen>,
                                      buffer: seq<MemAccess>)
    requires Follows(e, h, rows, seen) && AtOnce(rows, seen)
    requires forall i :: 0 <= i < |buffer| ==> Pending(cfg, e, h, seen, buffer[i])
    ensures var (e', rows') := FlushBuffer(cfg, e, rows, buffer);
      && Follows(e', h, rows', seen) && AtOnce(rows', seen) && FlushFrame(e, e')
      && RowAccesses(rows') == RowAccesses(rows) + buffer
      && forall c: int :: ActiveTxn(e', c) == ActiveTxn(e, c)
    decreases |buffer|
  {
    hide Follows, ActiveTxn, CountAccess;
    if buffer != [] {
      var a := buffer[0];
      var ctx := cfg.Ctx(a.ctx);
      var e1, rows1 := CountAccess(e, ctx), rows + [AccessRow(a, ActiveTxn(e, ctx))];
      assert Pending(cfg, e, h, seen, a);
      CountKeepsFollows(e, h, ctx, a, rows, seen);
      CountFrame(e, ctx);
      forall c: int ensures ActiveTxn(e1, c) == ActiveTxn(e, c) {
        CountKeepsActive(e, ctx, c);
      }
      forall i | 0 <= i < |buffer[1..]| ensures Pending(cfg, e1, h, seen, buffer[1..][i]) {
        assert Pending(cfg, e, h, seen, buffer[i + 1]);
      }
      FlushKeeps(cfg, e1, h, rows1, seen, buffer[1..]);
      assert RowAccesses(rows1) + buffer[1..] == RowAccesses(rows) + buffer;
    }
  }

  lemma {:induction false} DropKeepsComplete(p: seq<MemAccess>, n: nat, seen: seq<Seen>, dropped: set<nat>)
    requires Complete(p, seen, dropped) && n <= |p|
    requires forall i :: |p| - n <= i < |p| ==> p[i].address in {0, DEFAULT_ADDRESS}
    ensures Complete(p[..|p| - n], seen, dropped + DroppedIds(p, n))
  {
    var p' := p[..|p| - n];
    forall id | HasId(p, id) && id !in DroppedIds(p, n) ensures HasId(p', id) {
      var i :| 0 <= i < |p| && p[i].id == id;
      assert p'[i].id == id;
    }
    forall id | HasId(p', id) ensures HasId(p, id) && id !in DroppedIds(p, n) {
      var i :| 0 <= i < |p'| && p'[i].id == id;
      assert p[i].id == id;
    }
  }

  lemma {:induction false} FlushedKeeps(cfg: Config, w: World, actionPV: bool, address: nat)
    requires Inv(cfg, w) && address in {0, DEFAULT_ADDRESS}
    ensures Inv(cfg, Flushed(cfg, w, actionPV, address))
    ensures Flushed(cfg, w, actionPV, address).conv.buffer == []
    ensures FlushFrame(w.conv.engine, Flushed(cfg, w, actionPV, address).conv.engine)
  {
    hide Follows, Complete, AtOnce, IdsInjective, FlushBuffer, Pending;
    var c, w' := w.conv, Flushed(cfg, w, actionPV, address);
    var n := Dropped(c.buffer, actionPV, address);
    var kept := c.buffer[..|c.buffer| - n];
    forall i | 0 <= i < |kept| ensures Pending(cfg, c.engine, w.held, w.seen, kept[i]) {
      assert kept[i] == c.buffer[i];
    }
    FlushKeeps(cfg, c.engine, w.held, c.rows, w.seen, kept);
    var p := Accesses(c);
    assert Accesses(w'.conv) == p[..|p| - n];
    assert DroppedIds(p, n) == DroppedIds(c.buffer, n) by { DroppedTail(RowAccesses(c.rows), c.buffer, n); }
    DropKeepsComplete(p, n, w.seen, w.dropped);
    SameIdsInjective(c.engine, w'.conv.engine);
  }

  lemma {:induction false} DroppedTail(a: seq<MemAccess>, b: seq<MemAccess>, n: nat)
    requires n <= |b|
    ensures DroppedIds(a + b, n) == DroppedIds(b, n)
  {
    forall id | id in DroppedIds(b, n) ensures id in DroppedIds(a + b, n) {
      var i :| |b| - n <= i < |b| && b[i].id == id;
      assert (a + b)[|a| + i] == b[i];
    }
  }

  lemma {:induction false} SameIdsInjective(e: Engine, e': Engine)
    requires IdsInjective(e) && e'.locks == e.locks && e'.nextLockId == e.nextLockId
    ensures IdsInjective(e')
  {
  }
  // ----- lock operations ------------------------------------------------------------------------------

  lemma {:induction false} IdentityKeepsIds(e: Engine, e': Engine)
    requires IdsInjective(e) && SameIdentity(e, e')
    ensures IdsInjective(e')
  {
    forall l, s | 0 <= l < |e'.locks| && e'.locks[l].Permits(s)
      ensures e.locks[l].Permits(s) && e'.locks[l].GetId(s) == e.locks[l].GetId(s) {}
  }

  // A new lock is on no stack.
  lemma {:induction false} NewLockUncounted(e: Engine, x: Sub)
    requires Typed(e) && x.lock >= |e.locks|
    ensures Total(e)[x] == 0
  {
    hide TotalOver, Typed, WellKinded;
    TotalMember(e.stacks.Keys, e.stacks, x);
    forall c | c in e.stacks ensures x !in Proj(At(e.stacks, c)) {
      TypedStack(e, c);
      StackKnown(e, c, x);
    }
  }

  lemma {:induction false} StackKnown(e: Engine, c: int, x: Sub)
    requires WellKinded(e.locks, Proj(e.Stack(c))) && x.lock >= |e.locks|
    ensures x !in Proj(e.Stack(c))
  {
  }

  lemma {:induction false} AllocFollows(e: Engine, h: Held, kind: LockKind, address: nat, recursive: bool,
                     rows: seq<AccessRow>, seen: seq<Seen>)
    requires Follows(e, h, rows, seen)
    ensures Follows(AllocLock(e, kind, address, recursive), h, rows, seen)
  {
    hide Typed, Total, Attributed;
    var e' := AllocLock(e, kind, address, recursive);
    KindsKeepTyped(e, e');
    SameStacksTotal(e, e');
    LocksKeepAttribution(e, e', rows, seen);
    NewLockUncounted(e, Sub(|e.locks|, ReaderLock));
    NewLockUncounted(e, Sub(|e.locks|, WriterLock));
    forall l | 0 <= l < |e'.locks|
      ensures LockOk(e'.locks[l], Total(e')[Sub(l, ReaderLock)], Total(e')[Sub(l, WriterLock)])
    {
      assert l < |e.locks| ==> LockOk(e.locks[l], Total(e)[Sub(l, ReaderLock)], Total(e)[Sub(l, WriterLock)]);
    }
    assert forall c: int :: e'.Stack(c) == e.Stack(c);
  }

  lemma {:induction false} AllocKeepsIds(e: Engine, kind: LockKind, address: nat, recursive: bool)
    requires IdsInjective(e)
    ensures IdsInjective(AllocLock(e, kind, address, recursive))
  {
    var e' := AllocLock(e, kind, address, recursive);
    forall l, s | 0 <= l < |e.locks| && e.locks[l].Permits(s)
      ensures e'.locks[l].GetId(s) == e.locks[l].GetId(s) < e.nextLockId {}
    forall s | e'.locks[|e.locks|].Permits(s)
      ensures e.nextLockId <= e'.locks[|e.locks|].GetId(s) < e'.nextLockId {}
    forall l, s, m, t | 0 <= l < |e'.locks| && 0 <= m < |e'.locks| && e'.locks[l].Permits(s) && e'.locks[m].Permits(t)
          && e'.locks[l].GetId(s) == e'.locks[m].GetId(t)
      ensures l == m && s == t
    {
      assert l < |e.locks| ==> e.locks[l].Permits(s);
      assert m < |e.locks| ==> e.locks[m].Permits(t);
    }
  }

  // Nothing but the address map has changed.
  lemma {:induction false} DeleteFollows(e: Engine, h: Held, address: nat, size: nat, rows: seq<AccessRow>, seen: seq<Seen>)
    requires Follows(e, h, rows, seen)
    ensures Follows(DeleteLocks(e, address, size), h, rows, seen)
  {
    hide Total, Attributed, WellKinded;
    var e' := DeleteLocks(e, address, size);
    SameStacksTotal(e, e');
    LocksKeepAttribution(e, e', rows, seen);
    KindsKeepTyped(e, e');
    assert forall c: int :: e'.Stack(c) == e.Stack(c);
  }
  // ----- one event ---------------------------------------------------------------------------------

  // No P finds the other side of its lock held.
  ghost predicate EventOk(cfg: Config, c: Conv, ev: Event)
  {
    ev.LockEvent? && TargetOf(cfg, c, ev).Known? && TargetOf(cfg, c, ev).lock < |c.engine.locks| ==>
      NoSideConflict(c.engine.locks[TargetOf(cfg, c, ev).lock], ev.op)
  }

  // The lock the event is about does not have the side it asks for: logic_error in the source.
  predicate WrongSide(cfg: Config, c: Conv, ev: Event) {
    && ev.LockEvent?
    && match TargetOf(cfg, c, ev)
       case Known(l) => l < |c.engine.locks| && !c.engine.locks[l].Permits(SideOf(ev.op))
       case Created(kind) => !NewLock(kind, ev.address, ev.recursive, 0).Permits(SideOf(ev.op))
       case _ => false
  }

  predicate ExitsOn(cfg: Config, c: Conv, ev: Event) {
    match ev
    case LockEvent(_, _, _, _, _, _, _) => TargetOf(cfg, c, ev).Fatal?
    case AccessEvent(_, _, _, _, base, _) => base in c.allocs && !InBounds(ev, c.allocs[base].size)
    case _ => false
  }

  // The lock an event is about, before the operation.
  lemma {:induction false} TargetFollows(cfg: Config, w: World, ev: Event)
    requires ev.LockEvent? && Inv(cfg, w) && LockFor(cfg, w.conv, ev).Some?
    ensures var c, e, l := w.conv, EngineFor(cfg, w.conv, ev), LockFor(cfg, w.conv, ev).value;
      && Follows(e, w.held, c.rows, w.seen) && IdsInjective(e) && l < |e.locks| && Addressed(e)
      && (OneSided(c.engine) ==> OneSided(e))
      && (!e.locks[l].Permits(SideOf(ev.op)) <==> WrongSide(cfg, c, ev))
  {
    hide Typed, Total, Attributed, Complete, AtOnce, Matches, IdsInjective;
    var c, t := w.conv, TargetOf(cfg, w.conv, ev);
    if t.Created? {
      AllocFollows(c.engine, w.held, t.kind, ev.address, ev.recursive, c.rows, w.seen);
      AllocKeepsIds(c.engine, t.kind, ev.address, ev.recursive);
    }
  }

  // ... and what the invariant needs of its result.
  lemma {:induction false} ResultKeepsInv(cfg: Config, w: World, ev: Event, e': Engine)
    requires ev.LockEvent? && Inv(cfg, w) && w.conv.buffer == [] && LockFor(cfg, w.conv, ev).Some?
    requires IdsInjective(EngineFor(cfg, w.conv, ev)) && Addressed(EngineFor(cfg, w.conv, ev))
    requires SameIdentity(EngineFor(cfg, w.conv, ev), e')
    requires Follows(e', NextHeld(cfg, w, ev), w.conv.rows, w.seen)
    ensures Inv(cfg, World(w.conv.(engine := e'), NextHeld(cfg, w, ev), NextSeen(cfg, w, ev), w.dropped))
  {
    hide Follows, Complete, AtOnce, IdsInjective, NextHeld, Pending, EngineFor;
    IdentityKeepsIds(EngineFor(cfg, w.conv, ev), e');
  }

  lemma {:induction false} LockEventKeeps(cfg: Config, w: World, ev: Event)
    requires ev.LockEvent? && Inv(cfg, w) && OneSided(w.conv.engine) && w.conv.buffer == [] && EventOk(cfg, w.conv, ev)
    ensures var r := After(cfg, w.conv, ev);
      && (r.Thrown? <==> WrongSide(cfg, w.conv, ev)) && (r.Exit? <==> ExitsOn(cfg, w.conv, ev)) && !r.Undefined?
      && (r.Done? ==> Inv(cfg, World(r.value, NextHeld(cfg, w, ev), NextSeen(cfg, w, ev), w.dropped))
                      && OneSided(r.value.engine))
  {
    hide Typed, Total, Attributed, Complete, AtOnce, RefStep, Matches, IdsInjective, Transition, OneSided;
    var c := w.conv;
    if LockFor(cfg, c, ev).Some? {
      var e, l, ctx := EngineFor(cfg, c, ev), LockFor(cfg, c, ev).value, cfg.Ctx(ev.ctx);
      TargetFollows(cfg, w, ev);
      if !e.locks[l].Permits(SideOf(ev.op)) {
        TransitionThrows(e, l, ev.op, ev.recursive, ev.ts, ctx);
      } else {
        TransitionFollows(e, w.held, l, ev.op, ev.recursive, ev.ts, ctx, c.rows, w.seen);
        TransitionIdentity(e, l, ev.op, ev.recursive, ev.ts, ctx);
        ResultKeepsInv(cfg, w, ev, Transition(e, l, ev.op, ev.recursive, ev.ts, ctx).value);
      }
    }
  }

  lemma {:induction false} TransitionThrows(e: Engine, l: nat, op: LockOp, recursive: bool, ts: nat, ctx: int)
    requires Typed(e) && l < |e.locks| && !e.locks[l].Permits(SideOf(op))
    ensures Transition(e, l, op, recursive, ts, ctx).Thrown?
  {
    hide Typed;
  }

  lemma {:induction false} MorePending(cfg: Config, e: Engine, h: Held, seen: seq<Seen>, s: Seen, buffer: seq<MemAccess>)
    requires forall i :: 0 <= i < |buffer| ==> Pending(cfg, e, h, seen, buffer[i])
    ensures forall i :: 0 <= i < |buffer| ==> Pending(cfg, e, h, seen + [s], buffer[i])
  {
    hide ActiveTxn;
    forall i | 0 <= i < |buffer| ensures Pending(cfg, e, h, seen + [s], buffer[i]) {
      assert Pending(cfg, e, h, seen, buffer[i]);
    }
  }

  lemma {:induction false} MoreComplete(p: seq<MemAccess>, seen: seq<Seen>, dropped: set<nat>, s: Seen)
    requires Complete(p, seen, dropped) && s.access.id == |seen| + 1
    ensures Complete(p + [s.access], seen + [s], dropped)
  {
    var p' := p + [s.access];
    assert p'[|p|] == s.access;
    forall id | HasId(p, id) ensures HasId(p', id) {
      var i :| 0 <= i < |p| && p[i].id == id;
      assert p'[i].id == id;
    }
    forall id: nat | HasId(p', id) && id <= |seen| ensures HasId(p, id) {}
  }

  lemma {:induction false} AccessEventKeeps(cfg: Config, w: World, ev: Event)
    requires ev.AccessEvent? && Inv(cfg, w)
    ensures var r := After(cfg, w.conv, ev);
      && !r.Thrown? && (r.Exit? <==> ExitsOn(cfg, w.conv, ev)) && !r.Undefined?
      && (r.Done? ==> Inv(cfg, World(r.value, NextHeld(cfg, w, ev), NextSeen(cfg, w, ev), w.dropped)))
  {
    hide Typed, Total, Attributed, Complete, Matches, IdsInjective, ActiveTxn;
    var c := w.conv;
    if ev.base in c.allocs && InBounds(ev, c.allocs[ev.base].size) {
      var a, ctx := NewAccess(c, ev), cfg.Ctx(ev.ctx);
      var s := Seen(a, HeldIn(w.held, ctx), ActiveTxn(c.engine, ctx));
      MoreSeen(c.engine, c.rows, w.seen, s);
      MorePending(cfg, c.engine, w.held, w.seen, s, c.buffer);
      MoreComplete(Accesses(c), w.seen, w.dropped, s);
      var c' := After(cfg, c, ev).value;
      assert Accesses(c') == Accesses(c) + [a];
      assert Pending(cfg, c.engine, w.held, w.seen + [s], a);
    }
  }

  // An event that is not about a lock.
  lemma {:induction false} PlainEventKeeps(cfg: Config, w: World, ev: Event)
    requires Inv(cfg, w) && Runnable(w) && !ev.LockEvent?
    ensures var r, c := Step(cfg, w, ev), Prepared(cfg, w, ev).conv;
      && !r.Thrown? && (r.Exit? <==> ExitsOn(cfg, c, ev)) && !r.Undefined?
      && (r.Done? ==> Inv(cfg, r.value) && r.value.conv.engine.locks == w.conv.engine.locks)
  {
    hide Attributed, Complete, AtOnce, IdsInjective, Typed, Total, Flushed, WriteMemAccesses, BufferOk, HandlePV;
    if ev.AccessEvent? {
      AccessEventKeeps(cfg, w, ev);
    } else {
      FlushedKeeps(cfg, w, FlushArgs(ev).0, FlushArgs(ev).1);
      var p := Prepared(cfg, w, ev);
      if ev.FreeEvent? && ev.base in p.conv.allocs {
        DeleteFollows(p.conv.engine, p.held, ev.base, p.conv.allocs[ev.base].size, p.conv.rows, p.seen);
        DeleteKeepsInv(cfg, p, ev);
      } else {
        AllocKeepsInv(cfg, p, ev);
      }
    }
  }

  // One event: it fails only where the source throws or exits, and otherwise keeps the invariant.
  lemma {:induction false} StepKeeps(cfg: Config, w: World, ev: Event)
    requires Inv(cfg, w) && OneSided(w.conv.engine) && Runnable(w) && EventOk(cfg, Prepared(cfg, w, ev).conv, ev)
    ensures var r, c := Step(cfg, w, ev), Prepared(cfg, w, ev).conv;
      && (r.Thrown? <==> WrongSide(cfg, c, ev)) && (r.Exit? <==> ExitsOn(cfg, c, ev)) && !r.Undefined?
      && (r.Done? ==> Inv(cfg, r.value) && OneSided(r.value.conv.engine))
  {
    hide Inv, Typed, Flushed, HandlePV, EventOk, Transition;
    if ev.LockEvent? {
      FlushedKeeps(cfg, w, FlushArgs(ev).0, FlushArgs(ev).1);
      LockEventKeeps(cfg, Prepared(cfg, w, ev), ev);
    } else {
      PlainEventKeeps(cfg, w, ev);
    }
  }

  lemma {:induction false} DeleteKeepsInv(cfg: Config, w: World, ev: Event)
    requires Inv(cfg, w) && ev.FreeEvent? && ev.base in w.conv.allocs && w.conv.buffer == []
    requires Follows(DeleteLocks(w.conv.engine, ev.base, w.conv.allocs[ev.base].size), w.held, w.conv.rows, w.seen)
    ensures Inv(cfg, World(After(cfg, w.conv, ev).value, w.held, w.seen, w.dropped))
  {
    hide Follows, Complete, AtOnce, Pending;
    SameIdsInjective(w.conv.engine, DeleteLocks(w.conv.engine, ev.base, w.conv.allocs[ev.base].size));
  }

  lemma {:induction false} AllocKeepsInv(cfg: Config, w: World, ev: Event)
    requires Inv(cfg, w) && (ev.AllocEvent? || ev.OtherEvent? || (ev.FreeEvent? && ev.base !in w.conv.allocs))
    ensures After(cfg, w.conv, ev).Done? && Inv(cfg, World(After(cfg, w.conv, ev).value, w.held, w.seen, w.dropped))
  {
    hide Follows, Complete, AtOnce, Pending, IdsInjective;
  }
  // ----- whole runs -----------------------------------------------------------------------------------

  ghost function Run(cfg: Config, w: World, events: seq<Event>): (r: Outcome<World>)
    requires Runnable(w)
    ensures r.Done? ==> Runnable(r.value)
    decreases |events|
  {
    if events == [] then Done(w)
    else
      var w1 :- Step(cfg, w, events[0]);
      Run(cfg, w1, events[1..])
  }

  ghost predicate NoConflicts(cfg: Config, w: World, events: seq<Event>)
    requires Runnable(w)
    decreases |events|
  {
    events != [] ==>
      && EventOk(cfg, Prepared(cfg, w, events[0]).conv, events[0])
      && (Step(cfg, w, events[0]).Done? ==> NoConflicts(cfg, Step(cfg, w, events[0]).value, events[1..]))
  }

  lemma {:induction false} RunKeeps(cfg: Config, w: World, events: seq<Event>)
    requires Inv(cfg, w) && OneSided(w.conv.engine) && Runnable(w) && NoConflicts(cfg, w, events)
    ensures var r := Run(cfg, w, events); !r.Undefined? && (r.Done? ==> Inv(cfg, r.value))
    decreases |events|
  {
    hide Inv, Step, Prepared, Runnable, EventOk, OneSided;
    if events != [] {
      StepKeeps(cfg, w, events[0]);
      if Step(cfg, w, events[0]).Done? {
        RunKeeps(cfg, Step(cfg, w, events[0]).value, events[1..]);
      }
    }
  }

  lemma {:induction false} InitialOk(cfg: Config)
    ensures Inv(cfg, Initial()) && Runnable(Initial()) && OneSided(Initial().conv.engine)
  {
    hide TotalOver, Follows, IdsInjective, Typed;
    InitialFollows();
  }

  lemma {:induction false} InitialFollows()
    ensures Follows(Initial().conv.engine, map[], [], []) && Typed(Initial().conv.engine) && IdsInjective(Initial().conv.engine)
  {
    hide TotalOver, Attributed;
    var e := Initial().conv.engine;
    InitialAttributed();
    assert forall c: int :: Proj(e.Stack(c)) == [];
  }

  lemma {:induction false} InitialAttributed()
    ensures Attributed(Initial().conv.engine, [], [])
  {
    var e := Initial().conv.engine;
    assert forall txn, c, k :: !ActiveAt(e, txn, c, k);
  }

  // What is left of the invariant while closeAllTXNs() runs: the counters no longer go down.
  ghost predicate Closable(e: Engine) {
    Typed(e) && forall c: int :: WellKinded(e.locks, Proj(e.Stack(c))) && AllHeld(e.locks, e.Stack(c))
  }

  lemma {:induction false} CloseCtxKeeps(e: Engine, c: int, ts: nat, rows: seq<AccessRow>, seen: seq<Seen>)
    requires Closable(e) && Attributed(e, rows, seen)
    ensures var e' := CloseCtx(e, c, ts);
      && Closable(e') && Attributed(e', rows, seen) && e'.locks == e.locks && e'.nextLockId == e.nextLockId
      && forall d: int :: e'.Stack(d) == if d == c then [] else e.Stack(d)
    decreases |e.Stack(c)|
  {
    hide Typed, Attributed, AllHeld, Finish, Proj, WellKinded;
    var s := e.Stack(c);
    if s != [] {
      var x := SubOf(s[|s| - 1]);
      var e1 := Finish(e, x, ts, false, c, c);
      FinishTop(e, c, ts);
      FinishTyped(e, x, ts, c, c);
      FinishIdentity(e, x, ts, false, c, c);
      FinishProj(e, x, ts, c, c);
      FinishKeepsAttribution(e, x, ts, c, c, rows, seen);
      assert forall d: int :: d != c ==> e1.Stack(d) == e.Stack(d);
      forall d: int ensures WellKinded(e1.locks, Proj(e1.Stack(d))) && AllHeld(e1.locks, e1.Stack(d)) {
        if d == c { AllHeldInit(e.locks, s, |s| - 1); }
      }
      CloseCtxKeeps(e1, c, ts, rows, seen);
    }
  }

  lemma {:induction false} CloseCtxsKeeps(e: Engine, cs: set<int>, ts: nat, rows: seq<AccessRow>, seen: seq<Seen>)
    requires Closable(e) && Attributed(e, rows, seen)
    ensures var e' := CloseCtxs(e, cs, ts);
      && Attributed(e', rows, seen) && e'.locks == e.locks && e'.nextLockId == e.nextLockId
      && forall d: int :: e'.Stack(d) == if d in cs then [] else e.Stack(d)
    decreases cs
  {
    hide Typed, AllHeld, Attributed, CloseCtx;
    if exists c :: c in cs {
      var c := Lowest(cs);
      CloseCtxKeeps(e, c, ts, rows, seen);
      CloseCtxsKeeps(CloseCtx(e, c, ts), cs - {c}, ts, rows, seen);
    }
  }

  // After the last event: flush as for a final V at address 0, then close every TXN.
  ghost function Final(cfg: Config, w: World, ts: nat): World
    requires Runnable(w)
  {
    WriteKeepsTyped(cfg, w.conv, true, 0);
    var f := Flushed(cfg, w, true, 0);
    f.(conv := f.conv.(engine := CloseAll(f.conv.engine, ts)))
  }

  // The row's access is linked to exactly the sub-locks its context held when the access happened,
  // through exactly one TXN row; it is linked to no TXN iff nothing was held.
  ghost predicate LinkedExactly(e: Engine, row: AccessRow, s: Seen) {
    && s.access == row.access && s.txn == row.txn
    && (row.txn == None <==> s.held == [])
    && match row.txn
       case None => true
       case Some(txn) =>
         && (exists i :: 0 <= i < |e.txnRows| && e.txnRows[i].id == txn)
         && WellKinded(e.locks, s.held)
         && forall y: Sub :: y.lock < |e.locks| && e.locks[y.lock].Permits(y.subLock) ==>
              (y in s.held <==> e.locks[y.lock].GetId(y.subLock) in HeldIds(e.heldRows, txn))
  }

  lemma {:induction false} IdsNameHeld(e: Engine, held: seq<Sub>, y: Sub)
    requires IdsInjective(e) && WellKinded(e.locks, held)
    requires y.lock < |e.locks| && e.locks[y.lock].Permits(y.subLock)
    ensures y in held <==> e.locks[y.lock].GetId(y.subLock) in IdsOf(e.locks, held)
  {
    if e.locks[y.lock].GetId(y.subLock) in IdsOf(e.locks, held) {
      var i :| 0 <= i < |held| && e.locks[held[i].lock].GetId(held[i].subLock) == e.locks[y.lock].GetId(y.subLock);
      assert held[i].lock == y.lock && held[i].subLock == y.subLock;
      assert held[i] == y;
    }
  }

  lemma {:induction false} RowLinked(e: Engine, row: AccessRow, s: Seen)
    requires IdsInjective(e) && RowOk(e, row, s.held) && s.access == row.access && s.txn == row.txn
    requires forall c: int :: e.Stack(c) == []
    ensures LinkedExactly(e, row, s)
  {
    hide IdsInjective;
    if row.txn.Some? {
      assert Closed(e, row.txn.value);
      forall y: Sub | y.lock < |e.locks| && e.locks[y.lock].Permits(y.subLock)
        ensures y in s.held <==> e.locks[y.lock].GetId(y.subLock) in HeldIds(e.heldRows, row.txn.value)
      {
        IdsNameHeld(e, s.held, y);
      }
    }
  }

  lemma {:induction false} FinalKeeps(cfg: Config, w: World, ts: nat)
    requires Inv(cfg, w) && Runnable(w)
    ensures var f := Final(cfg, w, ts);
      && Attributed(f.conv.engine, f.conv.rows, f.seen) && IdsInjective(f.conv.engine)
      && AtOnce(f.conv.rows, f.seen) && f.conv.buffer == []
      && Complete(RowAccesses(f.conv.rows), f.seen, f.dropped)
      && forall c: int :: f.conv.engine.Stack(c) == []
  {
    hide Attributed, AtOnce, Complete, IdsInjective, Typed, Total, Flushed;
    FlushedKeeps(cfg, w, true, 0);
    var f := Flushed(cfg, w, true, 0);
    assert Accesses(f.conv) == RowAccesses(f.conv.rows);
    forall c: int ensures WellKinded(f.conv.engine.locks, Proj(f.conv.engine.Stack(c)))
                          && AllHeld(f.conv.engine.locks, f.conv.engine.Stack(c)) {
      StackAllHeld(f.conv.engine, c);
    }
    CloseCtxsKeeps(f.conv.engine, f.conv.engine.stacks.Keys, ts, f.conv.rows, f.seen);
    SameIdsInjective(f.conv.engine, CloseAll(f.conv.engine, ts));
  }

  // All rows that are written in the end link their accesses to exactly the sub-locks held.
  ghost predicate AllLinked(f: World) {
    forall i :: 0 <= i < |f.conv.rows| ==>
      && 1 <= f.conv.rows[i].access.id <= |f.seen|
      && LinkedExactly(f.conv.engine, f.conv.rows[i], f.seen[f.conv.rows[i].access.id - 1])
  }

  lemma {:induction false} FinalLinked(cfg: Config, w: World, ts: nat)
    requires Inv(cfg, w) && Runnable(w)
    ensures AllLinked(Final(cfg, w, ts))
  {
    hide Inv, Final, IdsInjective, RowOk, LinkedExactly, Runnable, Complete;
    FinalKeeps(cfg, w, ts);
    var f := Final(cfg, w, ts);
    forall i | 0 <= i < |f.conv.rows|
      ensures LinkedExactly(f.conv.engine, f.conv.rows[i], f.seen[f.conv.rows[i].access.id - 1])
    {
      RowLinked(f.conv.engine, f.conv.rows[i], f.seen[f.conv.rows[i].access.id - 1]);
    }
  }

  // The tool's claim.  In every run in which no P finds the other side of its lock held, the rows
  // link every access to exactly the sub-locks held when it happened.
  lemma {:induction false} AccessesAreLinkedToHeldLocks(cfg: Config, events: seq<Event>, ts: nat)
    requires Runnable(Initial()) && NoConflicts(cfg, Initial(), events) && Run(cfg, Initial(), events).Done?
    ensures AllLinked(Final(cfg, Run(cfg, Initial(), events).value, ts))
  {
    hide Inv, Final, AllLinked, Run, NoConflicts, Runnable, OneSided;
    InitialOk(cfg);
    RunKeeps(cfg, Initial(), events);
    FinalLinked(cfg, Run(cfg, Initial(), events).value, ts);
  }

  // ----- one context, no recursive locks: malformed orders of P and V included ---------------------------

  ghost predicate OneContext(cfg: Config, ctx: int, events: seq<Event>) {
    forall i :: 0 <= i < |events| && events[i].LockEvent? ==> !events[i].recursive && cfg.Ctx(events[i].ctx) == ctx
  }

  ghost predicate InStep(e: Engine, ctx: int) {
    Accounted(e) && Exclusive(e) && SingleCtx(e, ctx)
  }

  lemma {:induction false} SameStacksInStep(e: Engine, e': Engine, ctx: int)
    requires InStep(e, ctx) && e'.stacks == e.stacks && e'.locks == e.locks
    ensures InStep(e', ctx)
  {
    hide Typed, Total;
    SameStacksTotal(e, e');
    KindsKeepTyped(e, e');
    assert forall c: int :: e'.Stack(c) == e.Stack(c);
  }

  lemma {:induction false} CountInStep(e: Engine, c: int, ctx: int)
    requires InStep(e, ctx)
    ensures InStep(CountAccess(e, c), ctx)
  {
    hide Typed, Total, CountAccess;
    var e' := CountAccess(e, c);
    CountKeepsTotal(e, c);
    CountFrame(e, c);
    forall d | d != ctx ensures e'.Stack(d) == [] {
      CountKeepsProj(e, c, d);
      assert e.Stack(d) == [];
      assert |Proj(e'.Stack(d))| == 0;
    }
  }

  lemma {:induction false} FlushInStep(cfg: Config, e: Engine, rows: seq<AccessRow>, buffer: seq<MemAccess>, ctx: int)
    requires InStep(e, ctx)
    ensures InStep(FlushBuffer(cfg, e, rows, buffer).0, ctx)
    decreases |buffer|
  {
    hide InStep, CountAccess, ActiveTxn;
    if buffer != [] {
      var c := cfg.Ctx(buffer[0].ctx);
      CountInStep(e, c, ctx);
      FlushInStep(cfg, CountAccess(e, c), rows + [AccessRow(buffer[0], ActiveTxn(e, c))], buffer[1..], ctx);
    }
  }

  lemma {:induction false} AllocInStep(e: Engine, kind: LockKind, address: nat, recursive: bool, ctx: int)
    requires InStep(e, ctx)
    ensures InStep(AllocLock(e, kind, address, recursive), ctx)
  {
    hide Typed, Total;
    var e' := AllocLock(e, kind, address, recursive);
    KindsKeepTyped(e, e');
    SameStacksTotal(e, e');
    NewLockUncounted(e, Sub(|e.locks|, ReaderLock));
    NewLockUncounted(e, Sub(|e.locks|, WriterLock));
    forall l | 0 <= l < |e'.locks|
      ensures LockOk(e'.locks[l], Total(e')[Sub(l, ReaderLock)], Total(e')[Sub(l, WriterLock)])
      ensures Total(e')[Sub(l, WriterLock)] <= 1
      ensures Total(e')[Sub(l, ReaderLock)] == 0 || Total(e')[Sub(l, WriterLock)] == 0
    {
      if l < |e.locks| {
        assert LockOk(e.locks[l], Total(e)[Sub(l, ReaderLock)], Total(e)[Sub(l, WriterLock)]);
      }
    }
    assert forall c: int :: e'.Stack(c) == e.Stack(c);
  }

  lemma {:induction false} PreparedInStep(cfg: Config, w: World, ev: Event, ctx: int)
    requires InStep(w.conv.engine, ctx)
    ensures InStep(Prepared(cfg, w, ev).conv.engine, ctx)
  {
    hide InStep, FlushBuffer;
    FlushInStep(cfg, w.conv.engine, w.conv.rows,
                w.conv.buffer[..|w.conv.buffer| - Dropped(w.conv.buffer, FlushArgs(ev).0, FlushArgs(ev).1)], ctx);
  }

  lemma {:induction false} StepInStep(cfg: Config, w: World, ev: Event, ctx: int)
    requires Runnable(w) && InStep(w.conv.engine, ctx)
    requires ev.LockEvent? ==> !ev.recursive && cfg.Ctx(ev.ctx) == ctx
    ensures var r := Step(cfg, w, ev); !r.Undefined? && (r.Done? ==> InStep(r.value.conv.engine, ctx))
  {
    hide InStep, Transition, FlushBuffer, Typed, AllocLock;
    PreparedRunnable(cfg, w, ev);
    var p := Prepared(cfg, w, ev).conv;
    PreparedInStep(cfg, w, ev, ctx);
    if ev.LockEvent? && LockFor(cfg, p, ev).Some? {
      LockInStep(cfg, p, ev, ctx);
    } else if ev.FreeEvent? && ev.base in p.allocs {
      SameStacksInStep(p.engine, DeleteLocks(p.engine, ev.base, p.allocs[ev.base].size), ctx);
    }
  }

  lemma {:induction false} LockInStep(cfg: Config, c: Conv, ev: Event, ctx: int)
    requires Typed(c.engine) && Addressed(c.engine) && InStep(c.engine, ctx)
    requires ev.LockEvent? && !ev.recursive && cfg.Ctx(ev.ctx) == ctx && LockFor(cfg, c, ev).Some?
    ensures var r := HandlePV(cfg, c, ev); !r.Undefined? && (r.Done? ==> InStep(r.value.engine, ctx))
  {
    hide Typed, Transition, Exclusive, SingleCtx;
    var t := TargetOf(cfg, c, ev);
    if t.Created? {
      AllocInStep(c.engine, t.kind, ev.address, ev.recursive, ctx);
    }
    TransitionSingleCtx(EngineFor(cfg, c, ev), LockFor(cfg, c, ev).value, ev.op, ev.ts, ctx);
  }

  // In every reachable state each lock's positions, counters and TXNs are in step, and no run pops
  // an empty position stack.  EntriesAreHeld then keeps finishTXN off its error branches.
  lemma {:induction false} SingleContextInStep(cfg: Config, w: World, events: seq<Event>, ctx: int)
    requires Runnable(w) && InStep(w.conv.engine, ctx) && OneContext(cfg, ctx, events)
    ensures var r := Run(cfg, w, events); !r.Undefined? && (r.Done? ==> InStep(r.value.conv.engine, ctx))
    decreases |events|
  {
    hide InStep, Step, Runnable;
    if events != [] {
      StepInStep(cfg, w, events[0], ctx);
      if Step(cfg, w, events[0]).Done? {
        assert forall i :: 0 <= i < |events[1..]| ==> events[1..][i] == events[i + 1];
        SingleContextInStep(cfg, Step(cfg, w, events[0]).value, events[1..], ctx);
      }
    }
  }

  // The flush of a P, if there is one, loses nothing.
  ghost predicate EventFaithful(cfg: Config, c: Conv, ev: Event) {
    ev.LockEvent? && LockFor(cfg, c, ev).Some? && LockFor(cfg, c, ev).value < |EngineFor(cfg, c, ev).locks| ==>
      FlushOk(EngineFor(cfg, c, ev), LockFor(cfg, c, ev).value, ev.op, cfg.Ctx(ev.ctx))
  }

  ghost predicate Faithfully(cfg: Config, w: World, events: seq<Event>)
    requires Runnable(w)
    decreases |events|
  {
    events != [] ==>
      && EventFaithful(cfg, Prepared(cfg, w, events[0]).conv, events[0])
      && (Step(cfg, w, events[0]).Done? ==> Faithfully(cfg, Step(cfg, w, events[0]).value, events[1..]))
  }

  lemma {:induction false} LockKeepsSingle(cfg: Config, w: World, ev: Event, ctx: int)
    requires Inv(cfg, w) && Typed(w.conv.engine) && Addressed(w.conv.engine) && w.conv.buffer == []
    requires InStep(w.conv.engine, ctx) && ev.LockEvent? && !ev.recursive && cfg.Ctx(ev.ctx) == ctx
    requires LockFor(cfg, w.conv, ev).Some? && EventFaithful(cfg, w.conv, ev) && After(cfg, w.conv, ev).Done?
    ensures Inv(cfg, World(After(cfg, w.conv, ev).value, NextHeld(cfg, w, ev), NextSeen(cfg, w, ev), w.dropped))
  {
    hide Inv, Typed, Total, Exclusive, SingleCtx, Accounted, Transition, RefStep, FlushOk, AllocLock, Follows, IdsInjective;
    var c, t := w.conv, TargetOf(cfg, w.conv, ev);
    var e, l := EngineFor(cfg, c, ev), LockFor(cfg, c, ev).value;
    TargetFollows(cfg, w, ev);
    if t.Created? {
      AllocInStep(c.engine, t.kind, ev.address, ev.recursive, ctx);
    }
    assert Typed(e) by { AllocTyped(cfg, c, ev); }
    TransitionFollowsSingle(e, w.held, l, ev.op, ev.ts, ctx, c.rows, w.seen);
    TransitionIdentity(e, l, ev.op, ev.recursive, ev.ts, ctx);
    ResultKeepsInv(cfg, w, ev, Transition(e, l, ev.op, ev.recursive, ev.ts, ctx).value);
  }

  lemma {:induction false} IgnoredKeeps(cfg: Config, w: World, ev: Event)
    requires Inv(cfg, w) && Typed(w.conv.engine) && Addressed(w.conv.engine)
    requires ev.LockEvent? && LockFor(cfg, w.conv, ev).None? && After(cfg, w.conv, ev).Done?
    ensures World(After(cfg, w.conv, ev).value, NextHeld(cfg, w, ev), NextSeen(cfg, w, ev), w.dropped) == w
  {
    hide Inv, Typed;
  }

  lemma {:induction false} StepKeepsSingle(cfg: Config, w: World, ev: Event, ctx: int)
    requires Inv(cfg, w) && Runnable(w) && InStep(w.conv.engine, ctx)
    requires ev.LockEvent? ==> !ev.recursive && cfg.Ctx(ev.ctx) == ctx
    requires EventFaithful(cfg, Prepared(cfg, w, ev).conv, ev) && Step(cfg, w, ev).Done?
    ensures Inv(cfg, Step(cfg, w, ev).value)
  {
    hide Inv, InStep, Typed, Flushed, Transition, FlushOk, AllocLock;
    if !ev.LockEvent? {
      PlainEventKeeps(cfg, w, ev);
    } else {
      FlushedKeeps(cfg, w, FlushArgs(ev).0, FlushArgs(ev).1);
      var p := Prepared(cfg, w, ev);
      PreparedInStep(cfg, w, ev, ctx);
      PreparedRunnable(cfg, w, ev);
      if LockFor(cfg, p.conv, ev).Some? {
        LockKeepsSingle(cfg, p, ev, ctx);
      } else {
        IgnoredKeeps(cfg, p, ev);
      }
    }
  }

  lemma {:induction false} RunKeepsSingle(cfg: Config, w: World, events: seq<Event>, ctx: int)
    requires Inv(cfg, w) && Runnable(w) && InStep(w.conv.engine, ctx)
    requires OneContext(cfg, ctx, events) && Faithfully(cfg, w, events)
    ensures Run(cfg, w, events).Done? ==> Inv(cfg, Run(cfg, w, events).value)
    decreases |events|
  {
    hide Inv, InStep, Step, Prepared, Runnable, EventFaithful;
    if events != [] && Step(cfg, w, events[0]).Done? {
      StepKeepsSingle(cfg, w, events[0], ctx);
      StepInStep(cfg, w, events[0], ctx);
      assert forall i :: 0 <= i < |events[1..]| ==> events[1..][i] == events[i + 1];
      RunKeepsSingle(cfg, Step(cfg, w, events[0]).value, events[1..], ctx);
    }
  }

  // In one context without recursive locks the claim holds with side conflicts, too, as long as no
  // writer's flush finds accesses over a reader entry it erases.
  lemma {:induction false} OneContextIsLinked(cfg: Config, events: seq<Event>, ts: nat, ctx: int)
    requires Runnable(Initial()) && OneContext(cfg, ctx, events) && Faithfully(cfg, Initial(), events)
    requires Run(cfg, Initial(), events).Done?
    ensures AllLinked(Final(cfg, Run(cfg, Initial(), events).value, ts))
  {
    hide Inv, Final, AllLinked, Run, Faithfully, Runnable, OneContext, InStep, OneSided;
    InitialOk(cfg);
    InitialInStep(ctx);
    RunKeepsSingle(cfg, Initial(), events, ctx);
    FinalLinked(cfg, Run(cfg, Initial(), events).value, ts);
  }

  lemma {:induction false} InitialInStep(ctx: int)
    ensures Runnable(Initial()) && InStep(Initial().conv.engine, ctx)
  {
    hide TotalOver;
    assert forall c: int :: Proj(Initial().conv.engine.Stack(c)) == [];
  }
}
