// Over whole runs: an access happens while the TXN it is linked to runs (convert/main/lockmanager.cc,
// finishTXN and startTXN).

module TraceTimes {
  import opened TxnEngine
  import opened Wrappers
  import opened TxnAccounting
  import opened TxnAttribution
  import opened TraceRun
  import opened TraceTheorems
  import opened TraceSteps

  // The time after an event.
  function Clock(now: nat, ev: Event): nat {
    if ev.LockEvent? || ev.AccessEvent? then ev.ts else now
  }

  // Time does not run backwards up to the end, at last.
  predicate InTime(now: nat, events: seq<Event>, last: nat)
    decreases |events|
  {
    if events == [] then now <= last else now <= Clock(now, events[0]) && InTime(Clock(now, events[0]), events[1..], last)
  }

  // An access that belongs to a TXN happens no earlier than that begins and no later than it ends.
  ghost predicate DuringTxn(e: Engine, row: AccessRow) {
    row.txn.Some? ==>
      && row.txn.value < e.nextTxnId
      && (forall c, k :: ActiveAt(e, row.txn.value, c, k) ==> e.Stack(c)[k].startTs <= row.access.ts)
      && (forall i :: 0 <= i < |e.txnRows| && e.txnRows[i].id == row.txn.value ==>
            e.txnRows[i].startTs <= row.access.ts <= e.txnRows[i].endTs)
  }

  ghost predicate RowsInTime(e: Engine, rows: seq<AccessRow>, now: nat) {
    && IdsUnique(e)
    && (forall txn, c, k :: ActiveAt(e, txn, c, k) ==> e.Stack(c)[k].startTs <= now)
    && (forall i :: 0 <= i < |rows| ==> rows[i].access.ts <= now && DuringTxn(e, rows[i]))
  }

  // Accesses that wait are behind the start of all TXNs.
  ghost predicate WaitInTime(e: Engine, buffer: seq<MemAccess>, now: nat) {
    forall i :: 0 <= i < |buffer| ==>
      buffer[i].ts <= now && forall txn, c, k :: ActiveAt(e, txn, c, k) ==> e.Stack(c)[k].startTs <= buffer[i].ts
  }

  ghost predicate Timely(c: Conv, now: nat) {
    RowsInTime(c.engine, c.rows, now) && WaitInTime(c.engine, c.buffer, now)
  }

  lemma {:induction false} Later(c: Conv, now: nat, after: nat)
    requires Timely(c, now) && now <= after
    ensures Timely(c, after)
  {
    hide IdsUnique, DuringTxn;
  }

  // ----- one step of the engine ----------------------------------------------------------------------

  lemma {:induction false} TornRowIs(s: seq<Txn>, keep: nat, ts: nat, ctxOld: int, r: TxnRow)
    requires keep <= |s| && r in TornTxnRows(s, keep, ts, ctxOld)
    ensures exists k :: keep <= k < |s| && s[k].id == r.id && s[k].startTs == r.startTs && r.endTs == ts
  {
    hide TornTxnRows;
    var m := TornTxnRowsTell(s, keep, ts, ctxOld);
    var j :| 0 <= j < |m| && TornTxnRows(s, keep, ts, ctxOld)[j] == r;
    assert keep <= m[j] < |s|;
  }

  lemma {:induction false} RenewKeepsDuring(e: Engine, e': Engine, c: int, kept: seq<Txn>, keep: nat, ts: nat, ctxOld: int,
      row: AccessRow)
    requires RenewsAt(e, e', c, kept, keep, ts, ctxOld) && DuringTxn(e, row) && row.access.ts <= ts
    ensures DuringTxn(e', row)
  {
    hide WellKinded, KeptOf, RenewedOver, TornTxnRows, TornHeldRows;
    assert e'.nextTxnId >= e.nextTxnId && keep <= |e.Stack(c)| by { RenewParts(e, e', c, kept, keep, ts, ctxOld); }
    if row.txn.Some? {
      var txn := row.txn.value;
      forall d, k | ActiveAt(e', txn, d, k) ensures e'.Stack(d)[k].startTs <= row.access.ts {
        ActiveAfter(e, e', c, kept, keep, ts, txn, d, k);
        if d == c && k < |kept| {
          var i :| i < keep && ActiveAt(e, txn, c, i) && e'.Stack(c)[k] == kept[k] == e.Stack(c)[i];
        }
      }
      forall i | 0 <= i < |e'.txnRows| && e'.txnRows[i].id == txn
        ensures e'.txnRows[i].startTs <= row.access.ts <= e'.txnRows[i].endTs
      {
        if i < |e.txnRows| {
          assert e'.txnRows[i] == e.txnRows[i];
        } else {
          var torn := TornTxnRows(e.Stack(c), keep, ts, ctxOld);
          assert e'.txnRows[i] == torn[i - |e.txnRows|];
          TornRowIs(e.Stack(c), keep, ts, ctxOld, e'.txnRows[i]);
          var k :| keep <= k < |e.Stack(c)| && e.Stack(c)[k].id == txn && e.Stack(c)[k].startTs == e'.txnRows[i].startTs;
          assert ActiveAt(e, txn, c, k);
        }
      }
    }
  }

  lemma {:induction false} RenewParts(e: Engine, e': Engine, c: int, kept: seq<Txn>, keep: nat, ts: nat, ctxOld: int)
    requires RenewsAt(e, e', c, kept, keep, ts, ctxOld)
    ensures e'.nextTxnId >= e.nextTxnId && keep <= |e.Stack(c)|
    ensures forall k :: |kept| <= k < |e'.Stack(c)| ==> e'.Stack(c)[k].startTs == ts
  {
    hide WellKinded, Written;
  }

  lemma {:induction false} RenewKeepsTimes(e: Engine, e': Engine, c: int, kept: seq<Txn>, keep: nat, ts: nat, ctxOld: int,
      rows: seq<AccessRow>)
    requires RowsInTime(e, rows, ts) && RenewsAt(e, e', c, kept, keep, ts, ctxOld)
    ensures RowsInTime(e', rows, ts)
  {
    hide WellKinded, KeptOf, RenewedOver, Written, IdsUnique, DuringTxn;
    RenewKeepsIds(e, e', c, kept, keep, ts, ctxOld);
    RenewParts(e, e', c, kept, keep, ts, ctxOld);
    forall txn, d, k | ActiveAt(e', txn, d, k) ensures e'.Stack(d)[k].startTs <= ts {
      ActiveAfter(e, e', c, kept, keep, ts, txn, d, k);
      if d == c && k < |kept| {
        var i :| i < keep && ActiveAt(e, txn, c, i) && e'.Stack(c)[k] == kept[k] == e.Stack(c)[i];
      }
    }
    forall i | 0 <= i < |rows| ensures DuringTxn(e', rows[i]) {
      RenewKeepsDuring(e, e', c, kept, keep, ts, ctxOld, rows[i]);
    }
  }

  lemma {:induction false} LocksKeepTimes(e: Engine, e': Engine, rows: seq<AccessRow>, ts: nat)
    requires RowsInTime(e, rows, ts) && SameButLocks(e, e')
    ensures RowsInTime(e', rows, ts)
  {
    hide IdsUnique;
    LocksKeepIds(e, e');
    assert forall txn, c, k :: ActiveAt(e', txn, c, k) <==> ActiveAt(e, txn, c, k);
  }

  lemma {:induction false} TimesAreStable(rows: seq<AccessRow>, ts: nat, ctx: int)
    ensures OpStableAt((e: Engine) => RowsInTime(e, rows, ts), ts, ctx)
  {
    hide RowsInTime, RenewsAt, SameButLocks, IdsInjective;
    forall e, e' | RowsInTime(e, rows, ts) && OpStepAt(e, e', ts, ctx) ensures RowsInTime(e', rows, ts) {
      if RenewalAt(e, e', ts, ctx) {
        var c, kept, keep, ctxOld :| RenewsAt(e, e', c, kept, keep, ts, ctxOld);
        RenewKeepsTimes(e, e', c, kept, keep, ts, ctxOld, rows);
      } else {
        LocksKeepTimes(e, e', rows, ts);
      }
    }
  }

  // ----- waiting accesses ------------------------------------------------------------------------------

  lemma {:induction false} CountKeepsDuring(e: Engine, ctx: int, row: AccessRow)
    requires DuringTxn(e, row)
    ensures DuringTxn(CountAccess(e, ctx), row)
  {
    hide CountAccess;
    CountFrame(e, ctx);
    forall txn, c, k | ActiveAt(CountAccess(e, ctx), txn, c, k)
      ensures ActiveAt(e, txn, c, k) && CountAccess(e, ctx).Stack(c)[k].startTs == e.Stack(c)[k].startTs
    {
      CountedStart(e, ctx, txn, c, k);
    }
  }

  lemma {:induction false} CountedStart(e: Engine, ctx: int, txn: int, c: int, k: int)
    requires ActiveAt(CountAccess(e, ctx), txn, c, k)
    ensures ActiveAt(e, txn, c, k) && CountAccess(e, ctx).Stack(c)[k].startTs == e.Stack(c)[k].startTs
  {
  }

  // An access that has waited is behind the start of the TXN it goes to, which has not ended.
  lemma {:induction false} WrittenInTime(e: Engine, ctx: int, a: MemAccess, rest: seq<MemAccess>, rows: seq<AccessRow>, now: nat)
    requires RowsInTime(e, rows, now) && WaitInTime(e, [a] + rest, now)
    ensures RowsInTime(CountAccess(e, ctx), rows + [AccessRow(a, ActiveTxn(e, ctx))], now)
    ensures WaitInTime(CountAccess(e, ctx), rest, now)
  {
    hide IdsUnique, DuringTxn, CountAccess;
    var e', row := CountAccess(e, ctx), AccessRow(a, ActiveTxn(e, ctx));
    CountKeepsIds(e, ctx);
    assert ([a] + rest)[0] == a;
    assert forall i :: 0 <= i < |rest| ==> ([a] + rest)[i + 1] == rest[i];
    forall txn, c, k | ActiveAt(e', txn, c, k)
      ensures ActiveAt(e, txn, c, k) && e'.Stack(c)[k].startTs == e.Stack(c)[k].startTs
    {
      CountedStart(e, ctx, txn, c, k);
    }
    ActiveInTime(e, ctx, a);
    CountKeepsDuring(e, ctx, row);
    forall i | 0 <= i < |rows| ensures DuringTxn(e', rows[i]) {
      CountKeepsDuring(e, ctx, rows[i]);
    }
  }

  lemma {:induction false} ActiveInTime(e: Engine, ctx: int, a: MemAccess)
    requires IdsUnique(e) && forall txn, c, k :: ActiveAt(e, txn, c, k) ==> e.Stack(c)[k].startTs <= a.ts
    ensures DuringTxn(e, AccessRow(a, ActiveTxn(e, ctx)))
  {
    hide NoRepeats, DistinctRows;
    if e.Stack(ctx) != [] {
      var k := |e.Stack(ctx)| - 1;
      assert ActiveAt(e, e.Stack(ctx)[k].id, ctx, k);
    }
  }

  lemma {:induction false} FlushInTime(cfg: Config, e: Engine, rows: seq<AccessRow>, buffer: seq<MemAccess>, now: nat)
    requires RowsInTime(e, rows, now) && WaitInTime(e, buffer, now)
    ensures var (e', rows') := FlushBuffer(cfg, e, rows, buffer); RowsInTime(e', rows', now)
    decreases |buffer|
  {
    hide RowsInTime, WaitInTime, CountAccess, ActiveTxn;
    if buffer != [] {
      var a, ctx := buffer[0], cfg.Ctx(buffer[0].ctx);
      assert buffer == [a] + buffer[1..];
      WrittenInTime(e, ctx, a, buffer[1..], rows, now);
      FlushInTime(cfg, CountAccess(e, ctx), rows + [AccessRow(a, ActiveTxn(e, ctx))], buffer[1..], now);
    }
  }

  lemma {:induction false} FlushedInTime(cfg: Config, w: World, actionPV: bool, address: nat, now: nat)
    requires Timely(w.conv, now)
    ensures var c := Flushed(cfg, w, actionPV, address).conv; Timely(c, now) && c.buffer == []
  {
    hide RowsInTime, FlushBuffer;
    var c := w.conv;
    var n := |c.buffer| - Dropped(c.buffer, actionPV, address);
    assert WaitInTime(c.engine, c.buffer[..n], now);
    FlushInTime(cfg, c.engine, c.rows, c.buffer[..n], now);
  }

  // ----- runs ------------------------------------------------------------------------------------------

  lemma {:induction false} AfterInTime(cfg: Config, c: Conv, ev: Event, now: nat)
    requires Timely(c, now) && (ev.LockEvent? || ev.AccessEvent? ==> now == ev.ts) && (ev.AccessEvent? || c.buffer == [])
    requires Typed(c.engine) && Addressed(c.engine) && After(cfg, c, ev).Done?
    ensures Timely(After(cfg, c, ev).value, now)
  {
    hide RowsInTime, Typed, Transition, EngineFor, DeleteLocks, OpStableAt;
    var ctx := if ev.LockEvent? then cfg.Ctx(ev.ctx) else 0;
    TimesAreStable(c.rows, now, ctx);
    AfterStays((e: Engine) => RowsInTime(e, c.rows, now), cfg, c, ev, now, ctx);
    if ev.AccessEvent? && ev.base in c.allocs {
      assert forall txn, k, i :: ActiveAt(c.engine, txn, k, i) ==> c.engine.Stack(k)[i].startTs <= now by {
        StartedBefore(c.engine, c.rows, now);
      }
    }
  }

  lemma {:induction false} StartedBefore(e: Engine, rows: seq<AccessRow>, now: nat)
    requires RowsInTime(e, rows, now)
    ensures forall txn, c, k :: ActiveAt(e, txn, c, k) ==> e.Stack(c)[k].startTs <= now
  {
    hide IdsUnique, DuringTxn;
  }

  lemma {:induction false} StepInTime(cfg: Config, w: World, ev: Event, now: nat)
    requires Runnable(w) && Timely(w.conv, now) && now <= Clock(now, ev) && Step(cfg, w, ev).Done?
    ensures Timely(Step(cfg, w, ev).value.conv, Clock(now, ev))
  {
    hide Typed, Timely, After, Flushed, NextHeld, NextSeen;
    PreparedRunnable(cfg, w, ev);
    FlushedInTime(cfg, w, FlushArgs(ev).0, FlushArgs(ev).1, now);
    Later(Prepared(cfg, w, ev).conv, now, Clock(now, ev));
    AfterInTime(cfg, Prepared(cfg, w, ev).conv, ev, Clock(now, ev));
  }

  lemma {:induction false} RunInTime(cfg: Config, w: World, events: seq<Event>, now: nat, last: nat) returns (end: nat)
    requires Runnable(w) && Timely(w.conv, now) && InTime(now, events, last) && Run(cfg, w, events).Done?
    ensures Timely(Run(cfg, w, events).value.conv, end) && end <= last
    decreases |events|
  {
    hide Runnable, Timely, Step;
    if events == [] {
      end := now;
    } else {
      StepInTime(cfg, w, events[0], now);
      end := RunInTime(cfg, Step(cfg, w, events[0]).value, events[1..], Clock(now, events[0]), last);
    }
  }

  lemma {:induction false} FinalInTime(cfg: Config, w: World, now: nat, ts: nat)
    requires Runnable(w) && Timely(w.conv, now) && now <= ts
    ensures var c := Final(cfg, w, ts).conv; RowsInTime(c.engine, c.rows, ts)
  {
    hide Typed, RowsInTime, WaitInTime, OpStableAt, CloseCtxs, Flushed;
    FlushedInTime(cfg, w, true, 0, now);
    FlushedTyped(cfg, w);
    var c := Flushed(cfg, w, true, 0).conv;
    Later(c, now, ts);
    TimesAreStable(c.rows, ts, 0);
    CloseCtxsStays((e: Engine) => RowsInTime(e, c.rows, ts), c.engine, c.engine.stacks.Keys, ts, 0);
  }

  lemma {:induction false} InitialInTime()
    ensures Timely(Initial().conv, 0)
  {
    hide IdsUnique;
    InitialIds();
    assert forall txn, c, k :: !ActiveAt(Initial().conv.engine, txn, c, k);
  }

  // In every run whose timestamps do not decrease, side conflicts and any contexts included: an access
  // that is linked to a TXN has its timestamp between the start and the end in that TXN's row.
  lemma {:induction false} AccessesHappenInTheirTxns(cfg: Config, events: seq<Event>, ts: nat)
    requires Runnable(Initial()) && Run(cfg, Initial(), events).Done? && InTime(0, events, ts)
    ensures var c := Final(cfg, Run(cfg, Initial(), events).value, ts).conv;
      forall i, j :: 0 <= i < |c.rows| && 0 <= j < |c.engine.txnRows| && c.rows[i].txn == Some(c.engine.txnRows[j].id) ==>
        c.engine.txnRows[j].startTs <= c.rows[i].access.ts <= c.engine.txnRows[j].endTs
  {
    hide Runnable, Initial, Run, Final, InTime, IdsUnique, Timely;
    InitialInTime();
    var end := RunInTime(cfg, Initial(), events, 0, ts);
    FinalInTime(cfg, Run(cfg, Initial(), events).value, end, ts);
  }
}
