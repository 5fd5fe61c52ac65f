// The converter's event loop as it changes its global state in place (convert/main/convert.cc).

module TraceConverter {
  import opened TxnEngine
  import opened Wrappers
  import opened TxnAccounting
  import opened TxnAttribution
  import opened TxnReference
  import opened TraceRun
  import opened TraceTheorems
  import opened LockManagement
  import opened Unsigned

  class Converter {
    const cfg: Config
    const manager: LockManager
    var activeAllocs: map<nat, Alloc>
    var curAllocId: nat
    var lastMemAccesses: seq<MemAccess>
    var curAccessId: nat
    var accessesOut: seq<AccessRow>

    ghost predicate Valid()
      reads manager, manager.arena
      ensures Valid() ==> manager.Objects()
    {
      manager.Valid()
    }

    ghost function Abs(): Conv
      requires manager.Objects()
      reads this, manager, manager.arena
    {
      Conv(manager.Abs(), activeAllocs, curAllocId, lastMemAccesses, curAccessId, accessesOut)
    }

    constructor (cfg: Config)
      ensures Valid() && fresh(manager) && manager.arena == []
      ensures this.cfg == cfg && Abs() == Initial().conv
    {
      this.cfg := cfg;
      manager := new LockManager();
      activeAllocs, curAllocId, lastMemAccesses, curAccessId, accessesOut := map[], 1, [], 1, [];
    }

    // One row per buffered access, linked to the TXN active in its context.
    method WriteAccess(a: MemAccess)
      requires Valid()
      modifies this`accessesOut, manager`activeTxns
      ensures Valid()
      ensures var e, ctx := old(manager.Abs()), cfg.Ctx(a.ctx);
        manager.Abs() == CountAccess(e, ctx) && accessesOut == old(accessesOut) + [AccessRow(a, ActiveTxn(e, ctx))]
    {
      hide Typed;
      ghost var e := manager.Abs();
      var ctx := cfg.Ctx(a.ctx);
      assert e.Stack(ctx) == manager.Stack(ctx);
      if manager.HasActiveTxn(ctx) {
        var s := manager.Stack(ctx);
        var top := manager.ActiveTxn(ctx);
        accessesOut := accessesOut + [AccessRow(a, Some(top.id))];
        manager.activeTxns := manager.activeTxns[ctx := s[|s| - 1 := top.(memAccessCounter := top.memAccessCounter + 1)]];
      } else {
        accessesOut := accessesOut + [AccessRow(a, None)];
      }
      CountTyped(e, ctx);
      CountFrame(e, ctx);
    }

    method WriteMemAccesses(actionPV: bool, address: nat)
      requires Valid()
      modifies this`accessesOut, this`lastMemAccesses, manager`activeTxns
      ensures Valid()
      ensures Abs() == TraceRun.WriteMemAccesses(cfg, old(Abs()), actionPV, address)
    {
      hide Typed, CountAccess, FlushBuffer, ActiveTxn;
      var size := |lastMemAccesses|;
      if actionPV && size >= LOOK_BEHIND_WINDOW {
        var r, w := lastMemAccesses[size - 2], lastMemAccesses[size - 1];
        if r.ts == w.ts && !r.isWrite && w.isWrite && r.address == w.address && r.address == address && r.size == w.size {
          lastMemAccesses := lastMemAccesses[..size - 2];
        }
      }
      ghost var e, rows, buffer := manager.Abs(), accessesOut, lastMemAccesses;
      assert buffer == old(lastMemAccesses)[..size - Dropped(old(lastMemAccesses), actionPV, address)];
      assert buffer[0..] == buffer;
      for i := 0 to |lastMemAccesses|
        invariant Valid() && lastMemAccesses == buffer
        invariant FlushBuffer(cfg, manager.Abs(), accessesOut, buffer[i..]) == FlushBuffer(cfg, e, rows, buffer)
      {
        FlushStep(cfg, manager.Abs(), accessesOut, buffer[i..]);
        assert buffer[i..][0] == buffer[i] && buffer[i..][1..] == buffer[i + 1..];
        WriteAccess(lastMemAccesses[i]);
      }
      FlushNil(cfg, manager.Abs(), accessesOut);
      assert buffer[|buffer|..] == [];
      lastMemAccesses := [];
    }

    // Does the closest allocation at or below the address cover it?
    method IsEmbedded(address: nat) returns (embedded: bool)
      ensures embedded == Embedded(activeAllocs, address)
    {
      var todo := activeAllocs.Keys;
      var closest: Option<nat> := None;
      while todo != {}
        invariant todo <= activeAllocs.Keys
        invariant closest.Some? ==> closest.value in activeAllocs && closest.value <= address
        invariant forall b :: b in activeAllocs && b !in todo && b <= address ==> closest.Some? && b <= closest.value
      {
        SomeAddress(todo);
        var b :| b in todo;
        todo := todo - {b};
        if b <= address && (closest.None? || closest.value < b) {
          closest := Some(b);
        }
      }
      embedded := closest.Some? && address < Add64(closest.value, activeAllocs[closest.value].size);
    }

    // What an event's result must be.
    ghost predicate IsResult(r: Outcome<()>, t: Outcome<Conv>)
      reads this, manager, manager.arena
    {
      && r.Done? == t.Done? && r.Thrown? == t.Thrown? && r.Undefined? == t.Undefined? && r.Exit? == t.Exit?
      && (t.Done? ==> Valid() && Abs() == t.value)
    }

    lemma {:induction false} ResultIs(r: Outcome<()>, t: Outcome<Conv>)
      requires IsResult(r, t)
      ensures r.Done? == t.Done? && r.Thrown? == t.Thrown? && r.Undefined? == t.Undefined? && r.Exit? == t.Exit?
      ensures t.Done? ==> Valid() && Abs() == t.value
    {
    }

    // The lock an operation is about, created if this is the first P on it.
    method FindOrCreate(ev: Event) returns (t: Target, number: nat)
      requires Valid() && ev.LockEvent?
      modifies manager`arena, manager`locks, manager`nextLockId
      ensures Valid()
      ensures forall i :: 0 <= i < |manager.arena| ==> manager.arena[i] in old(manager.arena) || fresh(manager.arena[i])
      ensures t == TargetOf(cfg, old(Abs()), ev) && manager.Abs() == EngineFor(cfg, old(Abs()), ev)
      ensures t.Known? || t.Created? ==> LockFor(cfg, old(Abs()), ev) == Some(number) && number < |manager.arena|
    {
      hide Typed, Embedded, TxnEngine.AllocLock;
      number := 0;
      var found := manager.FindLock(ev.address);
      if found.Some? {
        return Known(found.value), found.value;
      }
      var embedded := IsEmbedded(ev.address);
      if !embedded && !ev.isStatic && !cfg.includeAllLocks {
        return Unknown, 0;
      }
      if ev.op == VRead || ev.op == VWrite {
        return Unknown, 0;
      }
      if ev.kind.None? {
        return Fatal, 0;
      }
      number := manager.AllocLock(ev.kind.value, ev.address, ev.recursive);
      forall i | 0 <= i < |manager.arena| ensures manager.arena[i] in old(manager.arena) || fresh(manager.arena[i]) {
        assert i < number ==> manager.arena[..number][i] == manager.arena[i];
      }
      t := Created(ev.kind.value);
    }

    method HandlePV(ev: Event) returns (r: Outcome<()>)
      requires Valid() && ev.LockEvent?
      modifies manager, manager.arena
      ensures forall i :: 0 <= i < |manager.arena| ==> manager.arena[i] in old(manager.arena) || fresh(manager.arena[i])
      ensures IsResult(r, TraceRun.HandlePV(cfg, old(Abs()), ev))
    {
      hide Typed, Transition, TargetOf;
      var t, number := FindOrCreate(ev);
      match t {
        case Unknown =>
          return Done(());
        case Fatal =>
          return Exit;
        case _ =>
          var lock := manager.arena[number];
          r := lock.Transition(manager, number, ev.op, ev.recursive, ev.ts, cfg.Ctx(ev.ctx));
      }
    }

    // The switch over the actions.
    method Process(ev: Event) returns (r: Outcome<()>)
      requires Valid()
      modifies this, manager, manager.arena
      ensures forall i :: 0 <= i < |manager.arena| ==> manager.arena[i] in old(manager.arena) || fresh(manager.arena[i])
      ensures IsResult(r, After(cfg, old(Abs()), ev))
    {
      hide Typed, TraceRun.HandlePV;
      match ev {
        case AllocEvent(base, size, knownType) =>
          if base !in activeAllocs && knownType {
            activeAllocs := activeAllocs[base := Alloc(curAllocId, size)];
            curAllocId := curAllocId + 1;
          }
        case FreeEvent(base) =>
          if base in activeAllocs {
            manager.DeleteLockByArea(base, activeAllocs[base].size);
            activeAllocs := activeAllocs - {base};
          }
        case LockEvent(_, _, _, _, _, _, _) =>
          r := HandlePV(ev);
          return;
        case AccessEvent(ts, isWrite, address, size, base, ctx) =>
          if base in activeAllocs {
            var alloc := activeAllocs[base];
            if address < base || address > Add64(base, alloc.size)
              || Add64(address, size) < base || Add64(address, size) > Add64(base, alloc.size) {
              return Exit;
            }
            lastMemAccesses := lastMemAccesses + [MemAccess(curAccessId, ts, alloc.id, isWrite, size, address, ctx)];
            curAccessId := curAccessId + 1;
          }
        case OtherEvent(_) =>
      }
      r := Done(());
    }

    // One input line: write the buffered accesses unless the line is another access, then act on it.
    method HandleEvent(ev: Event) returns (r: Outcome<()>)
      requires Valid()
      modifies this, manager, manager.arena
      ensures forall i :: 0 <= i < |manager.arena| ==> manager.arena[i] in old(manager.arena) || fresh(manager.arena[i])
      ensures Typed(Before(cfg, old(Abs()), ev).engine) && Addressed(Before(cfg, old(Abs()), ev).engine)
      ensures IsResult(r, After(cfg, Before(cfg, old(Abs()), ev), ev))
    {
      hide Typed, After, TraceRun.WriteMemAccesses;
      match ev {
        case AccessEvent(_, _, _, _, _, _) =>
        case OtherEvent(actionPV) =>
          WriteMemAccesses(actionPV, DEFAULT_ADDRESS);
        case _ =>
          WriteMemAccesses(false, DEFAULT_ADDRESS);
      }
      r := Process(ev);
    }

    // The end of the input: the last accesses are written, and every TXN is closed.
    method Finish(ts: nat, ghost w: World)
      requires Valid() && Abs() == w.conv && Runnable(w)
      modifies this`accessesOut, this`lastMemAccesses
      modifies manager`activeTxns, manager`nextTxnId, manager`txnsOut, manager`locksHeldOut
      ensures Valid() && Abs() == Final(cfg, w, ts).conv
    {
      hide Typed, Final, TraceRun.WriteMemAccesses, CloseAll, Addressed;
      FinalIs(cfg, w, ts);
      WriteMemAccesses(true, 0);
      manager.CloseAllTxns(ts);
    }

    // The whole conversion: it does what the reference run does, and so, in an orderly run, every row
    // written links its access to exactly the locks held then.
    method Convert(events: seq<Event>, ts: nat) returns (r: Outcome<()>)
      requires Valid() && Abs() == Initial().conv
      modifies this, manager, manager.arena
      ensures Runnable(Initial())
      ensures var t := Run(cfg, Initial(), events);
        && r.Done? == t.Done? && r.Thrown? == t.Thrown? && r.Undefined? == t.Undefined? && r.Exit? == t.Exit?
        && (t.Done? ==> Valid() && Abs() == Final(cfg, t.value, ts).conv)
      ensures r.Done? && Orderly(cfg, events) ==>
        var seen := Run(cfg, Initial(), events).value.seen;
        forall i :: 0 <= i < |Abs().rows| ==>
          && 1 <= Abs().rows[i].access.id <= |seen|
          && LinkedExactly(Abs().engine, Abs().rows[i], seen[Abs().rows[i].access.id - 1])
    {
      hide *;
      InitialOk(cfg);
      ghost var w := Initial();
      assert events[0..] == events;
      for n := 0 to |events|
        invariant Valid() && Abs() == w.conv && Runnable(w)
        invariant Run(cfg, w, events[n..]) == Run(cfg, Initial(), events)
        invariant forall i :: 0 <= i < |manager.arena| ==> manager.arena[i] in old(manager.arena) || fresh(manager.arena[i])
      {
        assert events[n..][0] == events[n] && events[n..][1..] == events[n + 1..];
        StepIs(cfg, w, events[n]);
        RunOn(cfg, w, events[n..]);
        r := HandleEvent(events[n]);
        ResultIs(r, After(cfg, Before(cfg, w.conv, events[n]), events[n]));
        if !r.Done? {
          return;
        }
        w := Step(cfg, w, events[n]).value;
      }
      assert events[|events|..] == [];
      RunOn(cfg, w, []);
      Finish(ts, w);
      OrderlyIsLinked(cfg, events, ts);
      r := Done(());
    }
  }

  lemma {:induction false} RunOn(cfg: Config, w: World, events: seq<Event>)
    requires Runnable(w)
    ensures events == [] ==> Run(cfg, w, events) == Done(w)
    ensures events != [] ==>
      var r, s := Run(cfg, w, events), Step(cfg, w, events[0]);
      if s.Done? then r == Run(cfg, s.value, events[1..])
      else !r.Done? && r.Thrown? == s.Thrown? && r.Undefined? == s.Undefined? && r.Exit? == s.Exit?
  {
    hide Runnable, Step;
  }

  // No P finds the other side of its lock held; or there is one context, no recursive lock, and no flush
  // that loses accesses.
  ghost predicate Orderly(cfg: Config, events: seq<Event>)
    requires Runnable(Initial())
  {
    || NoConflicts(cfg, Initial(), events)
    || (Faithfully(cfg, Initial(), events) && exists ctx :: OneContext(cfg, ctx, events))
  }

  lemma {:induction false} OrderlyIsLinked(cfg: Config, events: seq<Event>, ts: nat)
    requires Runnable(Initial())
    ensures Run(cfg, Initial(), events).Done? && Orderly(cfg, events) ==>
      var w := Run(cfg, Initial(), events).value;
      var c := Final(cfg, w, ts).conv;
      forall i :: 0 <= i < |c.rows| ==>
        && 1 <= c.rows[i].access.id <= |w.seen|
        && LinkedExactly(c.engine, c.rows[i], w.seen[c.rows[i].access.id - 1])
  {
    hide Runnable, Initial, Run, NoConflicts, Faithfully, OneContext, Final, LinkedExactly;
    if Run(cfg, Initial(), events).Done? && Orderly(cfg, events) {
      if NoConflicts(cfg, Initial(), events) {
        AccessesAreLinkedToHeldLocks(cfg, events, ts);
      } else {
        var ctx :| OneContext(cfg, ctx, events);
        OneContextIsLinked(cfg, events, ts, ctx);
      }
      FinalSeen(cfg, Run(cfg, Initial(), events).value, ts);
    }
  }

  lemma {:induction false} FinalSeen(cfg: Config, w: World, ts: nat)
    requires Runnable(w)
    ensures Final(cfg, w, ts).seen == w.seen
  {
    hide CloseAll, TraceRun.WriteMemAccesses;
  }

  lemma {:induction false} StepIs(cfg: Config, w: World, ev: Event)
    requires Runnable(w)
    ensures var c := Before(cfg, w.conv, ev);
      && Typed(c.engine) && Addressed(c.engine)
      && var t, s := After(cfg, c, ev), Step(cfg, w, ev);
         && t.Done? == s.Done? && t.Thrown? == s.Thrown? && t.Undefined? == s.Undefined? && t.Exit? == s.Exit?
         && (t.Done? ==> t.value == s.value.conv)
  {
    hide Typed, After, TraceRun.WriteMemAccesses, NextHeld, NextSeen;
    PreparedRunnable(cfg, w, ev);
    assert Prepared(cfg, w, ev).conv == Before(cfg, w.conv, ev);
  }

  lemma {:induction false} FinalIs(cfg: Config, w: World, ts: nat)
    requires Runnable(w)
    ensures var c := TraceRun.WriteMemAccesses(cfg, w.conv, true, 0);
      && Typed(c.engine)
      && Final(cfg, w, ts).conv == c.(engine := CloseAll(c.engine, ts))
      && Final(cfg, w, ts).seen == w.seen
  {
    hide Typed, TraceRun.WriteMemAccesses, CloseAll;
    WriteKeepsTyped(cfg, w.conv, true, 0);
  }

  lemma {:induction false} FlushStep(cfg: Config, e: Engine, rows: seq<AccessRow>, buffer: seq<MemAccess>)
    requires buffer != []
    ensures var a, ctx := buffer[0], cfg.Ctx(buffer[0].ctx);
      FlushBuffer(cfg, e, rows, buffer)
        == FlushBuffer(cfg, CountAccess(e, ctx), rows + [AccessRow(a, ActiveTxn(e, ctx))], buffer[1..])
  {
  }

  lemma {:induction false} FlushNil(cfg: Config, e: Engine, rows: seq<AccessRow>)
    ensures FlushBuffer(cfg, e, rows, []) == (e, rows)
  {
  }
}
