// What single events come to (convert/main/convert.cc:196-262 and 742-862): which lock a P or V is about,
// which allocations are known, and what is noted of an access.

module TraceEvents {
  import opened TxnEngine
  import opened Wrappers
  import opened TxnAccounting
  import opened TxnAttribution
  import opened TxnReference
  import opened TraceRun
  import opened TraceTheorems
  import opened TraceSteps
  import opened Unsigned

  // ----- locks --------------------------------------------------------------------------------------

  ghost predicate InAllocation(allocs: map<nat, Alloc>, address: nat, b: nat) {
    b in allocs && b <= address < Add64(b, allocs[b].size)
  }

  ghost predicate Apart(allocs: map<nat, Alloc>) {
    forall b, c :: b in allocs && c in allocs && b < c ==> Add64(b, allocs[b].size) <= c
  }

  lemma {:induction false} NoneBetween(allocs: map<nat, Alloc>, address: nat, b: nat, c: nat)
    requires Apart(allocs) && InAllocation(allocs, address, b) && c in allocs
    ensures b < c ==> address < c
  {
  }

  // The closest allocation decides; that is any allocation when none reaches into the next one.
  lemma {:induction false} EmbeddedIff(allocs: map<nat, Alloc>, address: nat)
    requires Apart(allocs)
    ensures Embedded(allocs, address) <==> exists b: nat :: InAllocation(allocs, address, b)
  {
    if b: nat :| InAllocation(allocs, address, b) {
      forall c | c in allocs && c <= address ensures c <= b { NoneBetween(allocs, address, b, c); }
    }
    if b :| b in allocs && b <= address < Add64(b, allocs[b].size) && forall c :: c in allocs && c <= address ==> c <= b {
      assert InAllocation(allocs, address, b);
    }
  }

  // A lock that is not known is created by a P if it lies in an allocation or a data section or all locks
  // are wanted; a V of it is ignored, and a type the converter does not know ends the program.
  lemma {:induction false} TargetIs(cfg: Config, c: Conv, ev: Event)
    requires ev.LockEvent?
    ensures var t, known := TargetOf(cfg, c, ev), ev.address in c.engine.byAddress;
      var wanted := (ev.op == PRead || ev.op == PWrite) && (Embedded(c.allocs, ev.address) || ev.isStatic || cfg.includeAllLocks);
      && (t.Known? <==> known) && (known ==> t.lock == c.engine.byAddress[ev.address])
      && (t.Created? <==> !known && wanted && ev.kind.Some?) && (t.Created? ==> t.kind == ev.kind.value)
      && (t.Fatal? <==> !known && wanted && ev.kind.None?)
      && (t.Unknown? <==> !known && !wanted)
  {
  }

  // Freeing an allocation forgets exactly the addresses of locks in it.
  lemma {:induction false} FreedIsForgotten(cfg: Config, w: World, ev: Event)
    requires Runnable(w) && ev.FreeEvent? && ev.base in w.conv.allocs && ev.base + w.conv.allocs[ev.base].size < U64
    ensures var r, size := Step(cfg, w, ev), w.conv.allocs[ev.base].size;
      r.Done? && forall a ::
        (a in r.value.conv.engine.byAddress <==> a in w.conv.engine.byAddress && !(ev.base <= a < ev.base + size))
        && (a in r.value.conv.engine.byAddress ==> r.value.conv.engine.byAddress[a] == w.conv.engine.byAddress[a])
  {
    hide Typed, FlushBuffer;
    PreparedRunnable(cfg, w, ev);
    AddsUp(ev.base, w.conv.allocs[ev.base].size);
    FlushFrames(cfg, w.conv.engine, w.conv.rows, w.conv.buffer[..|w.conv.buffer| - Dropped(w.conv.buffer, false, DEFAULT_ADDRESS)]);
  }

  lemma {:induction false} FlushFrames(cfg: Config, e: Engine, rows: seq<AccessRow>, buffer: seq<MemAccess>)
    ensures FlushBuffer(cfg, e, rows, buffer).0.byAddress == e.byAddress
    decreases |buffer|
  {
    hide CountAccess, ActiveTxn;
    if buffer != [] {
      var ctx := cfg.Ctx(buffer[0].ctx);
      CountFrame(e, ctx);
      FlushFrames(cfg, CountAccess(e, ctx), rows + [AccessRow(buffer[0], ActiveTxn(e, ctx))], buffer[1..]);
    }
  }

  // ----- allocations --------------------------------------------------------------------------------

  ghost predicate AllocationsAfter(before: map<nat, Alloc>, next: nat, after: map<nat, Alloc>, ev: Event) {
    forall b ::
      (b in after <==> if ev.AllocEvent? && ev.base == b then b in before || ev.knownType
                       else b in before && !(ev.FreeEvent? && ev.base == b))
      && (b in after && b in before ==> after[b] == before[b])
      && (b in after && b !in before ==> ev.AllocEvent? && after[b] == Alloc(next, ev.size))
  }

  predicate DistinctAllocs(allocs: map<nat, Alloc>, next: nat) {
    && (forall b :: b in allocs ==> 1 <= allocs[b].id < next)
    && (forall b, d :: b in allocs && d in allocs && allocs[b].id == allocs[d].id ==> b == d)
  }

  lemma {:induction false} AfterAllocations(cfg: Config, c: Conv, ev: Event)
    requires Typed(c.engine) && Addressed(c.engine) && After(cfg, c, ev).Done?
    ensures var c' := After(cfg, c, ev).value;
      && AllocationsAfter(c.allocs, c.nextAllocId, c'.allocs, ev)
      && c'.nextAllocId == if c'.allocs.Keys - c.allocs.Keys == {} then c.nextAllocId else c.nextAllocId + 1
  {
    hide Typed, Addressed, HandlePV, DeleteLocks, InBounds, NewAccess;
    var c' := After(cfg, c, ev).value;
    if ev.LockEvent? {
      LocksKeepAllocs(cfg, c, ev);
    }
    if ev.AllocEvent? && ev.base !in c.allocs && ev.knownType {
      assert ev.base in c'.allocs.Keys - c.allocs.Keys;
    } else {
      assert c'.allocs.Keys - c.allocs.Keys == {};
    }
  }

  lemma {:induction false} LocksKeepAllocs(cfg: Config, c: Conv, ev: Event)
    requires ev.LockEvent? && Typed(c.engine) && Addressed(c.engine) && HandlePV(cfg, c, ev).Done?
    ensures var c' := HandlePV(cfg, c, ev).value; c'.allocs == c.allocs && c'.nextAllocId == c.nextAllocId
  {
    hide Typed, Addressed, Transition, EngineFor;
  }

  // An allocation is known from its first allocation event on until it is freed; its id is new.
  lemma {:induction false} StepAllocations(cfg: Config, w: World, ev: Event)
    requires Runnable(w) && Step(cfg, w, ev).Done?
    ensures var c, c' := w.conv, Step(cfg, w, ev).value.conv;
      && AllocationsAfter(c.allocs, c.nextAllocId, c'.allocs, ev)
      && (DistinctAllocs(c.allocs, c.nextAllocId) && c.nextAllocId >= 1 ==>
            DistinctAllocs(c'.allocs, c'.nextAllocId) && c'.nextAllocId >= 1)
  {
    hide Typed, FlushBuffer, After, AllocationsAfter, DistinctAllocs, NextHeld, NextSeen;
    PreparedRunnable(cfg, w, ev);
    var c, c' := w.conv, Step(cfg, w, ev).value.conv;
    AfterAllocations(cfg, Prepared(cfg, w, ev).conv, ev);
    StillDistinct(c.allocs, c.nextAllocId, c'.allocs, c'.nextAllocId, ev);
  }

  lemma {:induction false} StillDistinct(before: map<nat, Alloc>, next: nat, after: map<nat, Alloc>, next': nat, ev: Event)
    requires AllocationsAfter(before, next, after, ev) && next' == if after.Keys - before.Keys == {} then next else next + 1
    ensures DistinctAllocs(before, next) && next >= 1 ==> DistinctAllocs(after, next')
  {
    assert forall b :: b in after && b !in before ==> b in after.Keys - before.Keys;
  }

  // An access is inside its allocation, as long as neither end wraps.
  lemma {:induction false} InBoundsIff(ev: Event, size: nat)
    requires ev.AccessEvent? && ev.base + size < U64 && ev.address + ev.size < U64
    ensures InBounds(ev, size) <==> ev.base <= ev.address && ev.address + ev.size <= ev.base + size
  {
    AddsUp(ev.base, size);
    AddsUp(ev.address, ev.size);
  }

  // ----- writeMemAccesses -----------------------------------------------------------------------------

  lemma {:induction false} FlushWrites(cfg: Config, e: Engine, rows: seq<AccessRow>, buffer: seq<MemAccess>)
    ensures RowAccesses(FlushBuffer(cfg, e, rows, buffer).1) == RowAccesses(rows) + buffer
    decreases |buffer|
  {
    hide CountAccess, ActiveTxn;
    if buffer != [] {
      var ctx := cfg.Ctx(buffer[0].ctx);
      var more := rows + [AccessRow(buffer[0], ActiveTxn(e, ctx))];
      FlushWrites(cfg, CountAccess(e, ctx), more, buffer[1..]);
      assert RowAccesses(more) + buffer[1..] == RowAccesses(rows) + buffer;
    }
  }

  // All that waits is written, except before a P or V action the last two accesses if they are a read and
  // then a write of the lock's address, of one size and at one time.
  lemma {:induction false} WritesAllBut(cfg: Config, c: Conv, actionPV: bool, address: nat)
    ensures var c', n := WriteMemAccesses(cfg, c, actionPV, address), |c.buffer|;
      var pair := actionPV && n >= 2 && c.buffer[n - 2].ts == c.buffer[n - 1].ts && c.buffer[n - 2].size == c.buffer[n - 1].size
        && !c.buffer[n - 2].isWrite && c.buffer[n - 1].isWrite
        && c.buffer[n - 2].address == address && c.buffer[n - 1].address == address;
      c'.buffer == [] && RowAccesses(c'.rows) == RowAccesses(c.rows) + c.buffer[..if pair then n - 2 else n]
  {
    FlushWrites(cfg, c.engine, c.rows, c.buffer[..|c.buffer| - Dropped(c.buffer, actionPV, address)]);
  }

  // ----- accesses -------------------------------------------------------------------------------------

  // The access as the event has it, in the allocation that is known at its base.
  predicate Carries(c: Conv, ev: Event, a: MemAccess) {
    && ev.AccessEvent? && ev.base in c.allocs && a.allocId == c.allocs[ev.base].id
    && a.ts == ev.ts && a.isWrite == ev.isWrite && a.address == ev.address && a.size == ev.size && a.ctx == ev.ctx
  }

  // These accesses are noted during the run, one for each event with a known allocation, in that order.
  ghost predicate Notes(cfg: Config, w: World, events: seq<Event>, p: seq<MemAccess>)
    requires Runnable(w)
    decreases |events|
  {
    if events == [] || !Step(cfg, w, events[0]).Done? then p == []
    else
      var next := Step(cfg, w, events[0]).value;
      if events[0].AccessEvent? && events[0].base in w.conv.allocs
      then p != [] && Carries(w.conv, events[0], p[0]) && Notes(cfg, next, events[1..], p[1..])
      else Notes(cfg, next, events[1..], p)
  }

  function SeenAccesses(seen: seq<Seen>): (r: seq<MemAccess>)
    ensures |r| == |seen| && forall i :: 0 <= i < |seen| ==> r[i] == seen[i].access
  {
    seq(|seen|, i requires 0 <= i < |seen| => seen[i].access)
  }

  lemma {:induction false} StepNotes(cfg: Config, w: World, ev: Event)
    requires Runnable(w) && Step(cfg, w, ev).Done?
    ensures var seen := Step(cfg, w, ev).value.seen;
      if ev.AccessEvent? && ev.base in w.conv.allocs
      then |seen| == |w.seen| + 1 && seen[..|w.seen|] == w.seen && Carries(w.conv, ev, seen[|w.seen|].access)
      else seen == w.seen
  {
    hide Typed, After, WriteMemAccesses, NextHeld, ActiveTxn;
    PreparedRunnable(cfg, w, ev);
  }

  lemma {:induction false} RunNotes(cfg: Config, w: World, events: seq<Event>)
    requires Runnable(w) && Run(cfg, w, events).Done?
    ensures var seen := Run(cfg, w, events).value.seen;
      && |w.seen| <= |seen| && seen[..|w.seen|] == w.seen
      && Notes(cfg, w, events, SeenAccesses(seen[|w.seen|..]))
    decreases |events|
  {
    hide Runnable, Step, Carries;
    if events == [] {
      assert w.seen[|w.seen|..] == [];
    } else {
      var next := Step(cfg, w, events[0]).value;
      StepNotes(cfg, w, events[0]);
      RunNotes(cfg, next, events[1..]);
      var seen, n := Run(cfg, w, events).value.seen, |w.seen|;
      assert seen[..n] == seen[..|next.seen|][..n] == w.seen;
      if |next.seen| > n {
        assert seen[..|next.seen|][n] == next.seen[n] == seen[n];
        assert SeenAccesses(seen[n..])[1..] == SeenAccesses(seen[n + 1..]);
      }
    }
  }

  // In every run: the access rows, with those a discard took, are the accesses of the events whose
  // allocation is known, one each and in that order, with the event's fields and that allocation's id.
  lemma {:induction false} RowsCarryEvents(cfg: Config, events: seq<Event>, ts: nat)
    requires Runnable(Initial()) && Run(cfg, Initial(), events).Done?
    ensures var f := Final(cfg, Run(cfg, Initial(), events).value, ts);
      Complete(RowAccesses(f.conv.rows), f.seen, f.dropped) && Notes(cfg, Initial(), events, SeenAccesses(f.seen))
  {
    hide Runnable, Run, Complete, Notes, WriteMemAccesses, CloseAll;
    EveryAccessIsWritten(cfg, events, ts);
    RunNotes(cfg, Initial(), events);
    var seen := Run(cfg, Initial(), events).value.seen;
    assert seen[|Initial().seen|..] == seen;
  }
}
