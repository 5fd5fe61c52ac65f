// What the contexts in the events are good for (convert/main/convert.cc:307-313 and 687-691): without
// context tracing everything happens in one context, whatever the events say; with it, what an access
// is linked to is what its own context has taken.

module TraceContexts {
  import opened TxnEngine
  import opened Wrappers
  import opened TxnAccounting
  import opened TxnAttribution
  import opened TxnConflict
  import opened TxnReference
  import opened TraceRun
  import opened TraceTheorems
  import opened TraceSteps
  import opened TraceStarts
  import opened Grants

  // ----- one stack --------------------------------------------------------------------------------------

  lemma {:induction false} OneStackIsStable(ts: nat)
    ensures OpStableAt((e: Engine) => SingleCtx(e, 0), ts, 0)
  {
    hide WellKinded, KeptOf, Written, IdsInjective;
    forall e, e' | SingleCtx(e, 0) && OpStepAt(e, e', ts, 0) ensures SingleCtx(e', 0) {
      if RenewalAt(e, e', ts, 0) {
        var c, kept, keep, ctxOld :| RenewsAt(e, e', c, kept, keep, ts, ctxOld) && (c == 0 || e.Stack(c) != []);
        assert forall d :: d != c ==> e'.Stack(d) == e.Stack(d);
      } else {
        assert forall d :: e'.Stack(d) == e.Stack(d);
      }
    }
  }

  lemma {:induction false} FlushOneStack(cfg: Config, e: Engine, rows: seq<AccessRow>, buffer: seq<MemAccess>)
    requires SingleCtx(e, 0)
    ensures SingleCtx(FlushBuffer(cfg, e, rows, buffer).0, 0)
    decreases |buffer|
  {
    hide ActiveTxn;
    if buffer != [] {
      var ctx := cfg.Ctx(buffer[0].ctx);
      forall c | c != 0 ensures CountAccess(e, ctx).Stack(c) == [] {
        assert e.Stack(c) == [];
      }
      FlushOneStack(cfg, CountAccess(e, ctx), rows + [AccessRow(buffer[0], ActiveTxn(e, ctx))], buffer[1..]);
    }
  }

  lemma {:induction false} StepOneStack(cfg: Config, w: World, ev: Event)
    requires !cfg.ctxTracing && Runnable(w) && SingleCtx(w.conv.engine, 0) && Step(cfg, w, ev).Done?
    ensures SingleCtx(Step(cfg, w, ev).value.conv.engine, 0)
  {
    hide Typed, SingleCtx, After, FlushBuffer, NextHeld, NextSeen, OpStableAt;
    PreparedRunnable(cfg, w, ev);
    var c, p, ts := w.conv, Prepared(cfg, w, ev).conv, if ev.LockEvent? then ev.ts else 0;
    FlushOneStack(cfg, c.engine, c.rows, c.buffer[..|c.buffer| - Dropped(c.buffer, FlushArgs(ev).0, FlushArgs(ev).1)]);
    OneStackIsStable(ts);
    AfterStays((e: Engine) => SingleCtx(e, 0), cfg, p, ev, ts, 0);
  }

  // Without tracing no context but the dummy ever has a TXN, in any run.
  lemma {:induction false} RunOneStack(cfg: Config, w: World, events: seq<Event>)
    requires !cfg.ctxTracing && Runnable(w) && SingleCtx(w.conv.engine, 0) && Run(cfg, w, events).Done?
    ensures forall c: int :: c != 0 ==> Run(cfg, w, events).value.conv.engine.Stack(c) == []
    decreases |events|
  {
    hide Runnable, Step;
    if events != [] {
      StepOneStack(cfg, w, events[0]);
      RunOneStack(cfg, Step(cfg, w, events[0]).value, events[1..]);
    }
  }

  // ----- events that differ in their contexts ------------------------------------------------------------

  // The event without its context.
  function Erased(ev: Event): Event {
    if ev.LockEvent? || ev.AccessEvent? then ev.(ctx := 0) else ev
  }

  predicate SameAccess(a: MemAccess, b: MemAccess) {
    a.(ctx := 0) == b.(ctx := 0)
  }

  predicate SameRow(r: AccessRow, q: AccessRow) {
    SameAccess(r.access, q.access) && r.txn == q.txn
  }

  predicate SameRows(rows: seq<AccessRow>, others: seq<AccessRow>) {
    |rows| == |others| && forall i :: 0 <= i < |rows| ==> SameRow(rows[i], others[i])
  }

  predicate SameAccesses(p: seq<MemAccess>, q: seq<MemAccess>) {
    |p| == |q| && forall i :: 0 <= i < |p| ==> SameAccess(p[i], q[i])
  }

  predicate SameConv(c: Conv, d: Conv) {
    && c.engine == d.engine && c.allocs == d.allocs && c.nextAllocId == d.nextAllocId && c.nextAccessId == d.nextAccessId
    && SameAccesses(c.buffer, d.buffer) && SameRows(c.rows, d.rows)
  }

  lemma {:induction false} SameFlush(cfg: Config, e: Engine, rows: seq<AccessRow>, p: seq<MemAccess>,
      others: seq<AccessRow>, q: seq<MemAccess>)
    requires !cfg.ctxTracing && SameRows(rows, others) && SameAccesses(p, q)
    ensures FlushBuffer(cfg, e, rows, p).0 == FlushBuffer(cfg, e, others, q).0
    ensures SameRows(FlushBuffer(cfg, e, rows, p).1, FlushBuffer(cfg, e, others, q).1)
    decreases |p|
  {
    hide CountAccess, ActiveTxn;
    if p != [] {
      var txn := ActiveTxn(e, 0);
      SameFlush(cfg, CountAccess(e, 0), rows + [AccessRow(p[0], txn)], p[1..], others + [AccessRow(q[0], txn)], q[1..]);
    }
  }

  lemma {:induction false} SameFlushed(cfg: Config, c: Conv, d: Conv, actionPV: bool, address: nat)
    requires !cfg.ctxTracing && SameConv(c, d)
    ensures SameConv(WriteMemAccesses(cfg, c, actionPV, address), WriteMemAccesses(cfg, d, actionPV, address))
  {
    hide FlushBuffer;
    var k := |c.buffer| - Dropped(c.buffer, actionPV, address);
    assert Dropped(d.buffer, actionPV, address) == Dropped(c.buffer, actionPV, address) by {
      assert forall i :: 0 <= i < |c.buffer| ==> SameAccess(c.buffer[i], d.buffer[i]);
    }
    SameFlush(cfg, c.engine, c.rows, c.buffer[..k], d.rows, d.buffer[..k]);
  }

  lemma {:induction false} SameAfter(cfg: Config, c: Conv, d: Conv, ev: Event, other: Event)
    requires !cfg.ctxTracing && SameConv(c, d) && Erased(ev) == Erased(other)
    requires Typed(c.engine) && Addressed(c.engine)
    ensures var r, q := After(cfg, c, ev), After(cfg, d, other);
      (r.Done? <==> q.Done?) && (r.Done? ==> SameConv(r.value, q.value))
  {
    hide Typed, Transition, DeleteLocks, AllocLock, Embedded;
    assert ev.LockEvent? <==> other.LockEvent?;
    assert ev.AccessEvent? <==> other.AccessEvent?;
    if ev.LockEvent? {
      assert TargetOf(cfg, c, ev) == TargetOf(cfg, d, other);
    }
  }

  lemma {:induction false} SameStep(cfg: Config, w: World, v: World, ev: Event, other: Event)
    requires !cfg.ctxTracing && SameConv(w.conv, v.conv) && Erased(ev) == Erased(other) && Runnable(w) && Runnable(v)
    ensures var r, q := Step(cfg, w, ev), Step(cfg, v, other);
      (r.Done? <==> q.Done?) && (r.Done? ==> SameConv(r.value.conv, q.value.conv))
  {
    hide Typed, After, SameConv, NextHeld, NextSeen, WriteMemAccesses;
    PreparedRunnable(cfg, w, ev);
    PreparedRunnable(cfg, v, other);
    SameFlushed(cfg, w.conv, v.conv, FlushArgs(ev).0, FlushArgs(ev).1);
    SameAfter(cfg, Prepared(cfg, w, ev).conv, Prepared(cfg, v, other).conv, ev, other);
  }

  // The same events, up to the contexts they were seen in.
  predicate SameEvents(events: seq<Event>, others: seq<Event>) {
    |events| == |others| && forall i :: 0 <= i < |events| ==> Erased(events[i]) == Erased(others[i])
  }

  lemma {:induction false} SameRun(cfg: Config, w: World, v: World, events: seq<Event>, others: seq<Event>)
    requires !cfg.ctxTracing && SameConv(w.conv, v.conv) && SameEvents(events, others) && Runnable(w) && Runnable(v)
    ensures var r, q := Run(cfg, w, events), Run(cfg, v, others);
      (r.Done? <==> q.Done?) && (r.Done? ==> SameConv(r.value.conv, q.value.conv))
    decreases |events|
  {
    hide Runnable, Step, SameConv, Erased;
    if events != [] {
      SameStep(cfg, w, v, events[0], others[0]);
      if Step(cfg, w, events[0]).Done? {
        SameRun(cfg, Step(cfg, w, events[0]).value, Step(cfg, v, others[0]).value, events[1..], others[1..]);
      }
    }
  }

  // Without tracing the contexts in the events make no difference to any row but the access rows' own
  // note of them: same TXN rows, same locks_held rows, same links.
  lemma {:induction false} ContextsMakeNoDifference(cfg: Config, events: seq<Event>, others: seq<Event>, ts: nat)
    requires !cfg.ctxTracing && SameEvents(events, others) && Runnable(Initial())
    ensures Run(cfg, Initial(), events).Done? <==> Run(cfg, Initial(), others).Done?
    ensures Run(cfg, Initial(), events).Done? ==>
      var c, d := Final(cfg, Run(cfg, Initial(), events).value, ts).conv, Final(cfg, Run(cfg, Initial(), others).value, ts).conv;
      c.engine.txnRows == d.engine.txnRows && c.engine.heldRows == d.engine.heldRows && SameRows(c.rows, d.rows)
  {
    hide Runnable, Initial, Run, SameEvents, WriteMemAccesses, SameRows, CloseAll;
    assert SameConv(Initial().conv, Initial().conv) by { SameAsItself(Initial().conv); }
    SameRun(cfg, Initial(), Initial(), events, others);
    if Run(cfg, Initial(), events).Done? {
      var w, v := Run(cfg, Initial(), events).value, Run(cfg, Initial(), others).value;
      SameFlushed(cfg, w.conv, v.conv, true, 0);
    }
  }

  lemma {:induction false} SameAsItself(c: Conv)
    ensures SameConv(c, c)
  {
  }

  // ----- what an access is linked to -----------------------------------------------------------------------

  function Subs(g: seq<Grant>): (s: seq<Sub>)
    ensures |s| == |g| && forall i :: 0 <= i < |g| ==> s[i] == g[i].sub
  {
    seq(|g|, i requires 0 <= i < |g| => g[i].sub)
  }

  // The outstanding Ps an access in context c finds: with tracing those of its context, else all.
  function Found(traced: bool, g: seq<Grant>, c: int): seq<Sub> {
    if traced then InCtx(g, c) else Subs(g)
  }

  // The last P of x in any context is over.
  function EndedAny(g: seq<Grant>, x: Sub): seq<Grant> {
    var k := TopMatch(Subs(g), x);
    if k < 0 then g else g[..k] + g[k + 1..]
  }

  function ForgottenAny(g: seq<Grant>, x: Sub): seq<Grant> {
    if g == [] then []
    else (if g[0].sub == x then [] else [g[0]]) + ForgottenAny(g[1..], x)
  }

  // The list of Ps, each with the context in its event, after one more lock event.
  ghost function GrantsAfter(traced: bool, h: Held, g: seq<Grant>, l: nat, ev: Event): seq<Grant>
    requires ev.LockEvent?
  {
    var x := Sub(l, SideOf(ev.op));
    if traced then GrantStep(h, g, l, ev.op, ev.recursive, ev.ts, ev.ctx)
    else if IsAcquire(ev.op) then
      var own := ForgottenAny(g, Other(x));
      (if x.subLock.WriterLock? && !ev.recursive then EndedAny(own, x) else own) + [Grant(ev.ctx, x, ev.ts)]
    else EndedAny(g, x)
  }

  // The reference holds these, by context or all in one.
  ghost predicate GrantsMatch(traced: bool, g: seq<Grant>, h: Held) {
    if traced then SubsMatch(g, h) else AllInOne(g, h)
  }

  lemma {:induction false} EndedAnySubs(g: seq<Grant>, x: Sub)
    ensures Subs(EndedAny(g, x)) == RemoveTop(Subs(g), x)
  {
  }

  lemma {:induction false} ForgottenAnySubs(g: seq<Grant>, x: Sub)
    ensures Subs(ForgottenAny(g, x)) == Without(Subs(g), x)
  {
    if g != [] {
      ForgottenAnySubs(g[1..], x);
      assert Subs(g)[1..] == Subs(g[1..]);
      var kept := if g[0].sub == x then [] else [g[0]];
      assert Subs(kept + ForgottenAny(g[1..], x)) == Subs(kept) + Subs(ForgottenAny(g[1..], x));
    }
  }

  ghost predicate AllInOne(g: seq<Grant>, h: Held) {
    forall c: int :: HeldIn(h, c) == if c == 0 then Subs(g) else []
  }

  lemma {:induction false} AcquireInOne(h: Held, g: seq<Grant>, x: Sub, recursive: bool, q: Grant)
    requires AllInOne(g, h) && q.sub == x
    ensures var own := ForgottenAny(g, Other(x));
      AllInOne((if x.subLock.WriterLock? && !recursive then EndedAny(own, x) else own) + [q], RefAcquire(h, x, recursive, 0))
  {
    hide RemoveTop, Without, EndedAny, ForgottenAny;
    var own := ForgottenAny(g, Other(x));
    ForgottenAnySubs(g, Other(x));
    EndedAnySubs(own, x);
    var kept := if x.subLock.WriterLock? && !recursive then EndedAny(own, x) else own;
    assert Subs(kept + [q]) == Subs(kept) + [x];
    forall c: int | c != 0 ensures HeldIn(RefAcquire(h, x, recursive, 0), c) == [] {
      assert HeldIn(h, c) == [];
    }
  }

  lemma {:induction false} ReleaseInOne(h: Held, g: seq<Grant>, x: Sub)
    requires AllInOne(g, h)
    ensures AllInOne(EndedAny(g, x), RefRelease(h, x, 0))
  {
    hide RemoveTop, EndedAny;
    EndedAnySubs(g, x);
    assert HolderOf(h, x, 0) == 0 by {
      forall c | c in h && x in h[c] ensures c == 0 { assert HeldIn(h, c) == h[c]; }
    }
    forall c: int | c != 0 ensures HeldIn(RefRelease(h, x, 0), c) == [] {
      assert HeldIn(h, c) == [];
    }
  }

  lemma {:induction false} GrantsAfterMatch(cfg: Config, h: Held, g: seq<Grant>, l: nat, ev: Event)
    requires ev.LockEvent? && GrantsMatch(cfg.ctxTracing, g, h)
    ensures GrantsMatch(cfg.ctxTracing, GrantsAfter(cfg.ctxTracing, h, g, l, ev), RefStep(h, l, ev.op, ev.recursive, cfg.Ctx(ev.ctx)))
  {
    hide SubsMatch, AllInOne, GrantStep, RefAcquire, RefRelease, EndedAny, ForgottenAny;
    var x := Sub(l, SideOf(ev.op));
    if cfg.ctxTracing {
      GrantStepSubs(h, g, l, ev.op, ev.recursive, ev.ts, ev.ctx);
    } else if IsAcquire(ev.op) {
      AcquireInOne(h, g, x, ev.recursive, Grant(ev.ctx, x, ev.ts));
    } else {
      ReleaseInOne(h, g, x);
    }
  }

  // The run beside the list of outstanding Ps, and for each recorded access what that list was.
  datatype Ledger = Ledger(w: World, g: seq<Grant>, log: seq<seq<Grant>>)

  ghost function NextLedger(cfg: Config, t: Ledger, ev: Event): Ledger
    requires Runnable(t.w) && Step(cfg, t.w, ev).Done?
  {
    var p := Prepared(cfg, t.w, ev);
    Ledger(Step(cfg, t.w, ev).value,
           if ev.LockEvent? && LockFor(cfg, p.conv, ev).Some?
           then GrantsAfter(cfg.ctxTracing, p.held, t.g, LockFor(cfg, p.conv, ev).value, ev) else t.g,
           if ev.AccessEvent? && ev.base in p.conv.allocs then t.log + [t.g] else t.log)
  }

  ghost function RunLedger(cfg: Config, t: Ledger, events: seq<Event>): (r: Ledger)
    requires Runnable(t.w) && Run(cfg, t.w, events).Done?
    ensures Runnable(r.w) && r.w == Run(cfg, t.w, events).value
    decreases |events|
  {
    if events == [] then t else RunLedger(cfg, NextLedger(cfg, t, events[0]), events[1..])
  }

  ghost predicate LedgerOk(cfg: Config, t: Ledger) {
    && GrantsMatch(cfg.ctxTracing, t.g, t.w.held) && |t.log| == |t.w.seen|
    && forall i :: 0 <= i < |t.log| ==> t.w.seen[i].held == Found(cfg.ctxTracing, t.log[i], t.w.seen[i].access.ctx)
  }

  lemma {:induction false} HeldIsFound(cfg: Config, g: seq<Grant>, h: Held, ctx: int)
    requires GrantsMatch(cfg.ctxTracing, g, h)
    ensures HeldIn(h, cfg.Ctx(ctx)) == Found(cfg.ctxTracing, g, ctx)
  {
  }

  lemma {:induction false} LedgerOn(cfg: Config, t: Ledger, ev: Event)
    requires LedgerOk(cfg, t) && Runnable(t.w) && Step(cfg, t.w, ev).Done?
    ensures LedgerOk(cfg, NextLedger(cfg, t, ev))
  {
    hide GrantsMatch, Found, GrantsAfter, After, Typed, WriteMemAccesses, ActiveTxn, RefStep;
    PreparedRunnable(cfg, t.w, ev);
    var p := Prepared(cfg, t.w, ev);
    if ev.LockEvent? && LockFor(cfg, p.conv, ev).Some? {
      GrantsAfterMatch(cfg, p.held, t.g, LockFor(cfg, p.conv, ev).value, ev);
    }
    if ev.AccessEvent? && ev.base in p.conv.allocs {
      HeldIsFound(cfg, t.g, p.held, ev.ctx);
    }
  }

  lemma {:induction false} RunLedgerOk(cfg: Config, t: Ledger, events: seq<Event>)
    requires LedgerOk(cfg, t) && Runnable(t.w) && Run(cfg, t.w, events).Done?
    ensures LedgerOk(cfg, RunLedger(cfg, t, events))
    decreases |events|
  {
    hide LedgerOk, Runnable, Step;
    if events != [] {
      LedgerOn(cfg, t, events[0]);
      RunLedgerOk(cfg, NextLedger(cfg, t, events[0]), events[1..]);
    }
  }

  lemma {:induction false} InitialLedger(cfg: Config)
    ensures LedgerOk(cfg, Ledger(Initial(), [], []))
  {
  }

  // The tool's claim with the contexts spelt out: an access is linked to exactly the sub-locks with an
  // outstanding P when it happened, with tracing of its own context, without it of any context.
  lemma {:induction false} LinkedByContext(cfg: Config, events: seq<Event>, ts: nat)
    requires Runnable(Initial()) && NoConflicts(cfg, Initial(), events) && Run(cfg, Initial(), events).Done?
    ensures var f := Final(cfg, Run(cfg, Initial(), events).value, ts);
      var log := RunLedger(cfg, Ledger(Initial(), [], []), events).log;
      |log| == |f.seen| && forall i :: 0 <= i < |f.conv.rows| ==>
        var id, row := f.conv.rows[i].access.id, f.conv.rows[i];
        1 <= id <= |log| && LinkedExactly(f.conv.engine, row, f.seen[id - 1])
          && f.seen[id - 1].held == Found(cfg.ctxTracing, log[id - 1], row.access.ctx)
  {
    hide Runnable, Initial, NoConflicts, Run, LinkedExactly, Found, WriteMemAccesses, CloseAll, GrantsMatch;
    InitialLedger(cfg);
    RunLedgerOk(cfg, Ledger(Initial(), [], []), events);
    AccessesAreLinkedToHeldLocks(cfg, events, ts);
    var f := Final(cfg, Run(cfg, Initial(), events).value, ts);
    forall i | 0 <= i < |f.conv.rows|
      ensures f.seen[f.conv.rows[i].access.id - 1].access == f.conv.rows[i].access
    {
      LinkedAccess(f.conv.engine, f.conv.rows[i], f.seen[f.conv.rows[i].access.id - 1]);
    }
  }

  lemma {:induction false} LinkedAccess(e: Engine, row: AccessRow, s: Seen)
    requires LinkedExactly(e, row, s)
    ensures s.access == row.access
  {
  }
}
