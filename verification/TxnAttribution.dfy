// Which locks the emitted rows link to which memory access.

module TxnAttribution {
  import opened TxnEngine
  import opened Wrappers

  datatype MemAccess = MemAccess(id: nat, ts: nat, allocId: nat, isWrite: bool, size: nat, address: nat, ctx: int)

  datatype AccessRow = AccessRow(access: MemAccess, txn: Option<nat>)

  // What is noted the moment an access is recorded: the sub-locks its context holds in the reference
  // model, and the TXN active in it.
  datatype Seen = Seen(access: MemAccess, held: seq<Sub>, txn: Option<nat>)

  // ----- the ids in a set of rows --------------------------------------------------------------

  function HeldIds(rows: seq<HeldRow>, txn: nat): set<int> {
    set r | r in rows && r.txn == txn :: r.lockId
  }

  function IdsOf(locks: seq<LockState>, s: seq<Sub>): set<int>
    requires WellKinded(locks, s)
  {
    set i | 0 <= i < |s| :: locks[s[i].lock].GetId(s[i].subLock)
  }

  predicate AllHeld(locks: seq<LockState>, s: seq<Txn>)
    requires WellKinded(locks, Proj(s))
  {
    forall i :: 0 <= i < |s| ==>
      var lock := locks[Proj(s)[i].lock]; lock.IsHeld() && lock.lastNPos != []
  }

  predicate NoRepeats(rows: seq<HeldRow>) {
    forall i, j :: 0 <= i < j < |rows| ==> rows[i].txn != rows[j].txn || rows[i].lockId != rows[j].lockId
  }

  lemma {:induction false} AllHeldTail(locks: seq<LockState>, s: seq<Txn>)
    requires s != [] && WellKinded(locks, Proj(s)) && AllHeld(locks, s)
    ensures Proj(s[1..]) == Proj(s)[1..] && Proj(s)[0] == SubOf(s[0])
    ensures WellKinded(locks, Proj(s[1..])) && AllHeld(locks, s[1..])
  {
    var rest := s[1..];
    assert Proj(rest) == Proj(s)[1..];
    forall i | 0 <= i < |rest| ensures var lock := locks[Proj(rest)[i].lock]; lock.IsHeld() && lock.lastNPos != [] {
      assert Proj(rest)[i] == Proj(s)[i + 1];
    }
  }

  lemma {:induction false} KindedTail(locks: seq<LockState>, s: seq<Txn>)
    requires s != [] && WellKinded(locks, Proj(s))
    ensures Proj(s[1..]) == Proj(s)[1..] && Proj(s)[0] == SubOf(s[0]) && WellKinded(locks, Proj(s[1..]))
  {
    assert Proj(s[1..]) == Proj(s)[1..];
  }

  // Every row names the TXN, and no lock id twice: (txn_id, lock_id) is the key of the table.
  lemma {:induction false} HeldRowsOfKeys(locks: seq<LockState>, s: seq<Txn>, txn: nat, seen: set<int>)
    requires WellKinded(locks, Proj(s))
    ensures forall r :: r in HeldRowsOf(locks, s, txn, seen) ==> r.txn == txn && r.lockId !in seen
    ensures NoRepeats(HeldRowsOf(locks, s, txn, seen))
    decreases |s|
  {
    if s != [] {
      KindedTail(locks, s);
      var lock := locks[s[0].lock];
      var lockId := lock.GetId(s[0].subLock);
      var taken := lock.IsHeld() && lock.lastNPos != [] && lockId !in seen;
      HeldRowsOfKeys(locks, s[1..], txn, if taken then seen + {lockId} else seen);
    }
  }

  // The row an entry of the stack gives, if its lock is held.
  ghost predicate HeldRowFor(locks: seq<LockState>, t: Txn, r: HeldRow) {
    t.lock < |locks| &&
    var lock := locks[t.lock];
    && (if lock.kind.WriteOnly? then lock.writers > 0 else if lock.kind.ReadOnly? then lock.readers > 0
        else lock.readers + lock.writers > 0)
    && lock.lastNPos != [] && r.start == lock.lastNPos[|lock.lastNPos| - 1].start
    && r.lockId == if t.subLock.ReaderLock? then lock.readId else lock.writeId
  }

  ghost predicate SomeGives(locks: seq<LockState>, s: seq<Txn>, r: HeldRow) {
    exists i :: 0 <= i < |s| && HeldRowFor(locks, s[i], r)
  }

  predicate NamesLock(rows: seq<HeldRow>, lockId: int) {
    exists q :: q in rows && q.lockId == lockId
  }

  // Rows are what some entry gives, each id an entry gives has one, and no id has two.
  ghost predicate HeldTold(locks: seq<LockState>, s: seq<Txn>, txn: nat, seen: set<int>, rows: seq<HeldRow>) {
    && NoRepeats(rows)
    && (forall r :: r in rows ==> r.txn == txn && r.lockId !in seen && SomeGives(locks, s, r))
    && (forall r :: SomeGives(locks, s, r) && r.lockId !in seen ==> NamesLock(rows, r.lockId))
  }

  lemma {:induction false} GivesMore(locks: seq<LockState>, s: seq<Txn>, r: HeldRow)
    requires s != []
    ensures SomeGives(locks, s, r) <==> HeldRowFor(locks, s[0], r) || SomeGives(locks, s[1..], r)
  {
    hide HeldRowFor;
    var tail := s[1..];
    if i :| 0 <= i < |tail| && HeldRowFor(locks, tail[i], r) {
      assert HeldRowFor(locks, s[i + 1], r);
    }
    if i :| 0 <= i < |s| && HeldRowFor(locks, s[i], r) {
      assert i > 0 ==> HeldRowFor(locks, tail[i - 1], r);
    }
  }

  lemma {:induction false} NamesMore(q: HeldRow, rest: seq<HeldRow>, lockId: int)
    ensures NamesLock([q] + rest, lockId) <==> q.lockId == lockId || NamesLock(rest, lockId)
  {
    assert q in [q] + rest;
    if r :| r in rest && r.lockId == lockId {
      assert r in [q] + rest;
    }
  }

  lemma {:induction false} HeldRowsTell(locks: seq<LockState>, s: seq<Txn>, txn: nat, seen: set<int>)
    requires WellKinded(locks, Proj(s))
    ensures HeldTold(locks, s, txn, seen, HeldRowsOf(locks, s, txn, seen))
    decreases |s|
  {
    hide NoRepeats, SomeGives, NamesLock;
    HeldRowsOfKeys(locks, s, txn, seen);
    var rows := HeldRowsOf(locks, s, txn, seen);
    if s == [] {
      assert forall r :: !SomeGives(locks, s, r) by { NothingGives(locks); }
    } else {
      KindedTail(locks, s);
      var lock, tail := locks[s[0].lock], s[1..];
      var lockId := lock.GetId(s[0].subLock);
      if lock.IsHeld() && lock.lastNPos != [] && lockId !in seen {
        var q, rest := HeldRow(txn, lockId, lock.lastNPos[|lock.lastNPos| - 1].start), HeldRowsOf(locks, tail, txn, seen + {lockId});
        HeldRowsTell(locks, tail, txn, seen + {lockId});
        assert rows == [q] + rest;
        forall r ensures SomeGives(locks, s, r) <==> HeldRowFor(locks, s[0], r) || SomeGives(locks, tail, r) { GivesMore(locks, s, r); }
        forall id: int ensures NamesLock(rows, id) <==> id == lockId || NamesLock(rest, id) { NamesMore(q, rest, id); }
      } else {
        HeldRowsTell(locks, tail, txn, seen);
        forall r ensures SomeGives(locks, s, r) <==> HeldRowFor(locks, s[0], r) || SomeGives(locks, tail, r) { GivesMore(locks, s, r); }
      }
    }
  }

  lemma {:induction false} NothingGives(locks: seq<LockState>)
    ensures forall r :: !SomeGives(locks, [], r)
  {
  }

  // When every lock is held, the rows name exactly the ids of the stack's entries.
  lemma {:induction false} HeldRowsOfIds(locks: seq<LockState>, s: seq<Txn>, txn: nat, seen: set<int>)
    requires WellKinded(locks, Proj(s)) && AllHeld(locks, s)
    ensures HeldIds(HeldRowsOf(locks, s, txn, seen), txn) == IdsOf(locks, Proj(s)) - seen
    decreases |s|
  {
    hide WellKinded, AllHeld, HeldIds, IdsOf;
    if s != [] {
      AllHeldTail(locks, s);
      IdsOfCons(locks, Proj(s));
      FirstHeld(locks, s);
      var lock := locks[s[0].lock];
      var lockId := lock.GetId(s[0].subLock);
      var seen' := if lockId in seen then seen else seen + {lockId};
      HeldRowsOfIds(locks, s[1..], txn, seen');
      if lockId !in seen {
        OneHeldRow(HeldRow(txn, lockId, lock.lastNPos[|lock.lastNPos| - 1].start), HeldRowsOf(locks, s[1..], txn, seen'), txn);
      }
    } else {
      NoRowsNoIds([], txn);
      assert IdsOf(locks, Proj(s)) == {} by { NoIds(locks, Proj(s)); }
    }
  }

  lemma {:induction false} NoIds(locks: seq<LockState>, p: seq<Sub>)
    requires p == []
    ensures IdsOf(locks, p) == {}
  {
  }

  lemma {:induction false} FirstHeld(locks: seq<LockState>, s: seq<Txn>)
    requires s != [] && WellKinded(locks, Proj(s)) && AllHeld(locks, s)
    ensures s[0].lock < |locks| && locks[s[0].lock].Permits(s[0].subLock)
    ensures locks[s[0].lock].IsHeld() && locks[s[0].lock].lastNPos != []
  {
    assert Proj(s)[0] == SubOf(s[0]);
  }

  lemma {:induction false} OneHeldRow(row: HeldRow, rows: seq<HeldRow>, txn: nat)
    requires row.txn == txn
    ensures HeldIds([row] + rows, txn) == {row.lockId} + HeldIds(rows, txn)
  {
    assert HeldIds([row], txn) == {row.lockId};
    HeldIdsConcat([row], rows, txn);
  }

  lemma {:induction false} NoRowsNoIds(rows: seq<HeldRow>, txn: nat)
    requires forall r :: r in rows ==> r.txn != txn
    ensures HeldIds(rows, txn) == {}
  {
  }

  lemma {:induction false} HeldIdsConcat(a: seq<HeldRow>, b: seq<HeldRow>, txn: nat)
    ensures HeldIds(a + b, txn) == HeldIds(a, txn) + HeldIds(b, txn)
  {
  }

  lemma {:induction false} IdsOfCons(locks: seq<LockState>, p: seq<Sub>)
    requires p != [] && WellKinded(locks, p)
    ensures WellKinded(locks, p[1..])
    ensures IdsOf(locks, p) == {locks[p[0].lock].GetId(p[0].subLock)} + IdsOf(locks, p[1..])
  {
    var rest := p[1..];
    forall a | a in IdsOf(locks, p) ensures a in {locks[p[0].lock].GetId(p[0].subLock)} + IdsOf(locks, rest) {
      var i :| 0 <= i < |p| && a == locks[p[i].lock].GetId(p[i].subLock);
      assert i > 0 ==> p[i] == rest[i - 1];
    }
    forall a | a in IdsOf(locks, rest) ensures a in IdsOf(locks, p) {
      var i :| 0 <= i < |rest| && a == locks[rest[i].lock].GetId(rest[i].subLock);
      assert rest[i] == p[i + 1];
    }
  }

  // ----- the rows written while a stack is torn down --------------------------------------------

  predicate DistinctIds(s: seq<Txn>) {
    forall i, j :: 0 <= i < j < |s| ==> s[i].id != s[j].id
  }

  lemma {:induction false} TornTxnRowsAre(s: seq<Txn>, k: nat, ts: nat, ctxOld: int, txn: nat)
    requires k <= |s|
    ensures (exists r :: r in TornTxnRows(s, k, ts, ctxOld) && r.id == txn)
       <==> (exists i :: k <= i < |s| && s[i].id == txn && s[i].memAccessCounter > 0)
  {
    if |s| > k {
      var init := s[..|s| - 1];
      TornTxnRowsAre(init, k, ts, ctxOld, txn);
      ClosingOneMore(s, init, k, txn, ClosingTxnRow(s, ts, ctxOld), TornTxnRows(init, k, ts, ctxOld));
    }
  }

  lemma {:induction false} ClosingOneMore(s: seq<Txn>, init: seq<Txn>, k: nat, txn: nat, row: seq<TxnRow>,
      rest: seq<TxnRow>)
    requires k < |s| && init == s[..|s| - 1]
    requires var top := s[|s| - 1]; if top.memAccessCounter > 0 then |row| == 1 && row[0].id == top.id else row == []
    ensures (exists r :: r in row + rest && r.id == txn)
       <==> || (exists r :: r in rest && r.id == txn)
            || (s[|s| - 1].id == txn && s[|s| - 1].memAccessCounter > 0)
    ensures (exists i :: k <= i < |s| && s[i].id == txn && s[i].memAccessCounter > 0)
       <==> || (exists i :: k <= i < |init| && init[i].id == txn && init[i].memAccessCounter > 0)
            || (s[|s| - 1].id == txn && s[|s| - 1].memAccessCounter > 0)
  {
    if s[|s| - 1].memAccessCounter > 0 {
      assert row[0] in row + rest;
    }
    if r :| r in rest && r.id == txn {
      assert r in row + rest;
    }
    if i :| k <= i < |s| && s[i].id == txn && s[i].memAccessCounter > 0 {
      assert i < |s| - 1 ==> init[i] == s[i];
    }
    if i :| k <= i < |init| && init[i].id == txn && init[i].memAccessCounter > 0 {
      assert s[i] == init[i];
    }
  }

  predicate DistinctRows(rows: seq<TxnRow>) {
    forall i, j :: 0 <= i < j < |rows| ==> rows[i].id != rows[j].id
  }

  lemma {:induction false} TornTxnRowsDistinct(s: seq<Txn>, k: nat, ts: nat, ctxOld: int)
    requires k <= |s| && DistinctIds(s)
    ensures DistinctRows(TornTxnRows(s, k, ts, ctxOld))
  {
    if |s| > k {
      var init := s[..|s| - 1];
      TornTxnRowsDistinct(init, k, ts, ctxOld);
      var rest := TornTxnRows(init, k, ts, ctxOld);
      forall i | 0 <= i < |rest| ensures rest[i].id != s[|s| - 1].id {
        TornTxnRowsAre(init, k, ts, ctxOld, rest[i].id);
        assert rest[i] in rest;
      }
    }
  }

  lemma {:induction false} AllHeldInit(locks: seq<LockState>, s: seq<Txn>, n: nat)
    requires n <= |s| && WellKinded(locks, Proj(s)) && AllHeld(locks, s)
    ensures Proj(s[..n]) == Proj(s)[..n]
    ensures WellKinded(locks, Proj(s[..n])) && AllHeld(locks, s[..n])
  {
    assert Proj(s[..n]) == Proj(s)[..n];
    forall i | 0 <= i < n ensures var lock := locks[Proj(s[..n])[i].lock]; lock.IsHeld() && lock.lastNPos != [] {
      assert Proj(s[..n])[i] == Proj(s)[i];
    }
  }

  lemma {:induction false} KindedInit(locks: seq<LockState>, s: seq<Txn>)
    requires s != [] && WellKinded(locks, Proj(s))
    ensures WellKinded(locks, Proj(s[..|s| - 1]))
  {
    assert Proj(s[..|s| - 1]) == Proj(s)[..|s| - 1];
  }

  // A row of a torn-down stack belongs to a non-empty TXN of it.
  lemma {:induction false} TornHeldRowsAre(locks: seq<LockState>, s: seq<Txn>, k: nat, r: HeldRow)
    requires k <= |s| && WellKinded(locks, Proj(s))
    requires r in TornHeldRows(locks, s, k)
    ensures exists i :: k <= i < |s| && s[i].id == r.txn && s[i].memAccessCounter > 0
  {
    if |s| > k {
      var init := s[..|s| - 1];
      KindedInit(locks, s);
      HeldRowsOfKeys(locks, s, s[|s| - 1].id, {});
      if r in TornHeldRows(locks, init, k) {
        TornHeldRowsAre(locks, init, k, r);
      }
    }
  }

  // ... and a non-empty TXN gets exactly the ids of the entries up to its own.
  lemma {:induction false} TornHeldRowsOf(locks: seq<LockState>, s: seq<Txn>, k: nat, i: nat)
    requires k <= i < |s| && WellKinded(locks, Proj(s)) && AllHeld(locks, s) && DistinctIds(s)
    requires s[i].memAccessCounter > 0
    ensures WellKinded(locks, Proj(s[..i + 1]))
    ensures HeldIds(TornHeldRows(locks, s, k), s[i].id) == IdsOf(locks, Proj(s[..i + 1]))
  {
    hide WellKinded, AllHeld, HeldRowsOf, ClosingHeldRows, HeldIds, IdsOf;
    var init := s[..|s| - 1];
    var txn := s[i].id;
    AllHeldInit(locks, s, |s| - 1);
    AllHeldInit(locks, s, i + 1);
    ClosingHeldIds(locks, s, txn);
    HeldIdsConcat(ClosingHeldRows(locks, s), TornHeldRows(locks, init, k), txn);
    if i == |s| - 1 {
      assert s[..i + 1] == s;
      forall r | r in TornHeldRows(locks, init, k) ensures r.txn != txn {
        TornHeldRowsAre(locks, init, k, r);
      }
      NoRowsNoIds(TornHeldRows(locks, init, k), txn);
    } else {
      assert init[..i + 1] == s[..i + 1];
      TornHeldRowsOf(locks, init, k, i);
    }
  }

  lemma {:induction false} ClosingHeldIds(locks: seq<LockState>, s: seq<Txn>, txn: nat)
    requires s != [] && WellKinded(locks, Proj(s)) && AllHeld(locks, s)
    ensures var top := s[|s| - 1];
      HeldIds(ClosingHeldRows(locks, s), txn)
        == if top.id == txn && top.memAccessCounter > 0 then IdsOf(locks, Proj(s)) else {}
  {
    hide WellKinded, AllHeld, HeldRowsOf, IdsOf;
    HeldRowsOfIds(locks, s, s[|s| - 1].id, {});
    HeldRowsOfKeys(locks, s, s[|s| - 1].id, {});
  }

  lemma {:induction false} TornHeldRowsKeys(locks: seq<LockState>, s: seq<Txn>, k: nat)
    requires k <= |s| && WellKinded(locks, Proj(s)) && DistinctIds(s)
    ensures NoRepeats(TornHeldRows(locks, s, k))
  {
    hide WellKinded, HeldRowsOf, NoRepeats;
    if |s| > k {
      var init := s[..|s| - 1];
      KindedInit(locks, s);
      TornHeldRowsKeys(locks, init, k);
      forall r | r in TornHeldRows(locks, init, k) ensures r.txn != s[|s| - 1].id {
        TornHeldRowsAre(locks, init, k, r);
      }
      ClosingHeldRowsKeys(locks, s);
      NoRepeatsConcat(ClosingHeldRows(locks, s), TornHeldRows(locks, init, k));
    } else {
      NoRepeatsNone();
    }
  }

  lemma {:induction false} ClosingHeldRowsKeys(locks: seq<LockState>, s: seq<Txn>)
    requires s != [] && WellKinded(locks, Proj(s))
    ensures forall r :: r in ClosingHeldRows(locks, s) ==> r.txn == s[|s| - 1].id
    ensures NoRepeats(ClosingHeldRows(locks, s))
  {
    HeldRowsOfKeys(locks, s, s[|s| - 1].id, {});
  }

  lemma {:induction false} NoRepeatsNone()
    ensures NoRepeats([])
  {
  }

  lemma {:induction false} NoRepeatsConcat(a: seq<HeldRow>, b: seq<HeldRow>)
    requires NoRepeats(a) && NoRepeats(b)
    requires forall r, q :: r in a && q in b ==> r.txn != q.txn
    ensures NoRepeats(a + b)
  {
    forall i, j | 0 <= i < j < |a + b| ensures (a + b)[i].txn != (a + b)[j].txn || (a + b)[i].lockId != (a + b)[j].lockId {
      if i < |a| && j >= |a| {
        assert (a + b)[i] in a && (a + b)[j] in b;
      }
    }
  }

  // ----- attribution ---------------------------------------------------------------------------

  ghost predicate ActiveAt(e: Engine, txn: int, c: int, k: int) {
    0 <= k < |e.Stack(c)| && e.Stack(c)[k].id == txn
  }

  predicate Closed(e: Engine, txn: int) {
    exists i :: 0 <= i < |e.txnRows| && e.txnRows[i].id == txn
  }

  // No TXN id is ever given or emitted twice.
  ghost predicate IdsUnique(e: Engine) {
    && (forall txn, c, k :: ActiveAt(e, txn, c, k) ==> txn < e.nextTxnId && !Closed(e, txn))
    && (forall txn, c, k, d, j :: ActiveAt(e, txn, c, k) && ActiveAt(e, txn, d, j) ==> c == d && k == j)
    && (forall txn :: Closed(e, txn) ==> txn < e.nextTxnId)
    && DistinctRows(e.txnRows)
    && (forall i :: 0 <= i < |e.heldRows| ==> Closed(e, e.heldRows[i].txn))
    && NoRepeats(e.heldRows)
  }

  // The row links its access to exactly the sub-locks held when the access happened.
  ghost predicate RowOk(e: Engine, row: AccessRow, held: seq<Sub>) {
    match row.txn
    case None => held == []
    case Some(txn) =>
      && held != []
      && txn < e.nextTxnId
      && (Closed(e, txn) ==> WellKinded(e.locks, held) && HeldIds(e.heldRows, txn) == IdsOf(e.locks, held))
      && (!Closed(e, txn) ==> exists c, k :: ActiveAt(e, txn, c, k))
      && (forall c, k :: ActiveAt(e, txn, c, k) ==>
            e.Stack(c)[k].memAccessCounter > 0 && Proj(e.Stack(c)[..k + 1]) == held)
  }

  ghost predicate HasRow(rows: seq<AccessRow>, txn: int) {
    exists i :: 0 <= i < |rows| && rows[i].txn.Some? && rows[i].txn.value == txn
  }

  // Every TXN with a row, and every one that will get a row, has an access.
  ghost predicate TxnsBacked(e: Engine, rows: seq<AccessRow>) {
    && (forall txn :: Closed(e, txn) ==> HasRow(rows, txn))
    && (forall txn, c, k :: ActiveAt(e, txn, c, k) && e.Stack(c)[k].memAccessCounter > 0 ==> HasRow(rows, txn))
  }

  ghost predicate RowsOk(e: Engine, rows: seq<AccessRow>, seen: seq<Seen>) {
    forall i :: 0 <= i < |rows| ==>
      && 1 <= rows[i].access.id <= |seen|
      && seen[rows[i].access.id - 1].access == rows[i].access
      && RowOk(e, rows[i], seen[rows[i].access.id - 1].held)
  }

  ghost predicate Attributed(e: Engine, rows: seq<AccessRow>, seen: seq<Seen>) {
    IdsUnique(e) && TxnsBacked(e, rows) && RowsOk(e, rows, seen)
  }

  // An empty TXN that was started at ts in context c, with an id from the given range.
  predicate IsNew(t: Txn, from: nat, to: nat, ts: nat, c: int) {
    from <= t.id < to && t.startTs == ts && t.startCtx == c && t.memAccessCounter == 0
  }

  // The stack of context c keeps the given entries at its bottom; what is above them is new.
  ghost predicate RenewedOver(e: Engine, e': Engine, c: int, kept: seq<Txn>, ts: nat) {
    && e'.locks == e.locks
    && |kept| <= |e'.Stack(c)| && e'.Stack(c)[..|kept|] == kept
    && (forall d :: d != c ==> e'.Stack(d) == e.Stack(d))
    && e.nextTxnId <= e'.nextTxnId
    && (forall j :: |kept| <= j < |e'.Stack(c)| ==> IsNew(e'.Stack(c)[j], e.nextTxnId, e'.nextTxnId, ts, c))
    && (forall i, j :: |kept| <= i < j < |e'.Stack(c)| ==> e'.Stack(c)[i].id != e'.Stack(c)[j].id)
  }

  // The entries of kept are in s, at these places.
  ghost predicate Places(m: seq<nat>, s: seq<Txn>, kept: seq<Txn>) {
    && |m| == |kept|
    && (forall k :: 0 <= k < |m| ==> m[k] < |s| && kept[k] == s[m[k]])
    && (forall i, j :: 0 <= i < j < |m| ==> m[i] < m[j])
  }

  // They are the lowest of its entries, or some of them.
  ghost predicate KeptOf(s: seq<Txn>, keep: nat, kept: seq<Txn>) {
    keep <= |s| && exists m: seq<nat> :: Places(m, s[..keep], kept)
  }

  // A TXN with accesses is kept only together with all that is beneath it, and never dropped.
  ghost predicate Shielded(s: seq<Txn>, keep: nat, kept: seq<Txn>)
    requires keep <= |s|
  {
    forall j :: 0 <= j < keep && s[j].memAccessCounter > 0 ==> j < |kept| && kept[..j + 1] == s[..j + 1]
  }

  // The stack keeps its lowest entries.
  ghost predicate Renewed(e: Engine, e': Engine, c: int, keep: nat, ts: nat) {
    keep <= |e.Stack(c)| && RenewedOver(e, e', c, e.Stack(c)[..keep], ts)
  }

  // ... and the rows of what was above them have been written.
  ghost predicate Written(e: Engine, e': Engine, c: int, keep: nat, ts: nat, ctxOld: int)
    requires keep <= |e.Stack(c)| && WellKinded(e.locks, Proj(e.Stack(c)))
  {
    && e'.txnRows == e.txnRows + TornTxnRows(e.Stack(c), keep, ts, ctxOld)
    && e'.heldRows == e.heldRows + TornHeldRows(e.locks, e.Stack(c), keep)
  }

  lemma {:induction false} ClosedAfter(e: Engine, e': Engine, c: int, keep: nat, ts: nat, ctxOld: int, txn: int)
    requires keep <= |e.Stack(c)| && e'.txnRows == e.txnRows + TornTxnRows(e.Stack(c), keep, ts, ctxOld)
    ensures Closed(e', txn) <==>
      || Closed(e, txn)
      || exists i :: keep <= i < |e.Stack(c)| && e.Stack(c)[i].id == txn && e.Stack(c)[i].memAccessCounter > 0
  {
    var s, torn := e.Stack(c), TornTxnRows(e.Stack(c), keep, ts, ctxOld);
    if txn >= 0 { TornTxnRowsAre(s, keep, ts, ctxOld, txn); }
    if Closed(e, txn) {
      var i :| 0 <= i < |e.txnRows| && e.txnRows[i].id == txn;
      assert e'.txnRows[i] == e.txnRows[i];
    }
    if exists r :: r in torn && r.id == txn {
      var r :| r in torn && r.id == txn;
      var i :| 0 <= i < |torn| && torn[i] == r;
      assert e'.txnRows[|e.txnRows| + i] == r;
    }
    if Closed(e', txn) {
      var i :| 0 <= i < |e'.txnRows| && e'.txnRows[i].id == txn;
      if i < |e.txnRows| {
        assert e'.txnRows[i] == e.txnRows[i];
      } else {
        assert e'.txnRows[i] in torn;
      }
    }
  }

  lemma {:induction false} StackIdsDistinct(e: Engine, c: int)
    requires IdsUnique(e)
    ensures DistinctIds(e.Stack(c))
  {
    var s := e.Stack(c);
    forall i, j | 0 <= i < j < |s| ensures s[i].id != s[j].id {
      assert ActiveAt(e, s[i].id, c, i) && ActiveAt(e, s[j].id, c, j);
    }
  }

  lemma {:induction false} ActiveAfter(e: Engine, e': Engine, c: int, kept: seq<Txn>, keep: nat, ts: nat, txn: int,
      d: int, k: int)
    requires RenewedOver(e, e', c, kept, ts) && KeptOf(e.Stack(c), keep, kept) && ActiveAt(e', txn, d, k)
    ensures d != c ==> ActiveAt(e, txn, d, k) && e'.Stack(d) == e.Stack(d)
    ensures d == c && k < |kept| ==>
      exists i :: i < keep && ActiveAt(e, txn, c, i) && e'.Stack(c)[k] == kept[k] == e.Stack(c)[i]
    ensures d == c && k >= |kept| ==> e.nextTxnId <= txn < e'.nextTxnId && e'.Stack(c)[k].memAccessCounter == 0
  {
    if d == c && k < |kept| {
      assert e'.Stack(c)[..|kept|][k] == kept[k];
      var m: seq<nat> :| Places(m, e.Stack(c)[..keep], kept);
      assert ActiveAt(e, txn, c, m[k]);
    }
  }

  lemma {:induction false} KeptAreDistinct(s: seq<Txn>, keep: nat, kept: seq<Txn>)
    requires KeptOf(s, keep, kept) && DistinctIds(s)
    ensures DistinctIds(kept)
  {
    var m: seq<nat> :| Places(m, s[..keep], kept);
  }

  // Ids stay unique even if entries vanish from below.
  lemma {:induction false} RenewKeepsIds(e: Engine, e': Engine, c: int, kept: seq<Txn>, keep: nat, ts: nat, ctxOld: int)
    requires IdsUnique(e) && RenewedOver(e, e', c, kept, ts) && KeptOf(e.Stack(c), keep, kept)
    requires WellKinded(e.locks, Proj(e.Stack(c))) && Written(e, e', c, keep, ts, ctxOld)
    ensures IdsUnique(e')
  {
    hide TornTxnRows, TornHeldRows, WellKinded;
    var s := e.Stack(c);
    StackIdsDistinct(e, c);
    KeptAreDistinct(s, keep, kept);
    assert forall i :: 0 <= i < |s| ==> ActiveAt(e, s[i].id, c, i);
    forall txn, d, k | ActiveAt(e', txn, d, k) ensures txn < e'.nextTxnId && !Closed(e', txn) {
      ActiveAfter(e, e', c, kept, keep, ts, txn, d, k);
      ClosedAfter(e, e', c, keep, ts, ctxOld, txn);
    }
    forall txn, d, k, f, j | ActiveAt(e', txn, d, k) && ActiveAt(e', txn, f, j) ensures d == f && k == j {
      ActiveAfter(e, e', c, kept, keep, ts, txn, d, k);
      ActiveAfter(e, e', c, kept, keep, ts, txn, f, j);
    }
    forall txn | Closed(e', txn) ensures txn < e'.nextTxnId {
      ClosedAfter(e, e', c, keep, ts, ctxOld, txn);
      if !Closed(e, txn) {
        var i :| keep <= i < |s| && s[i].id == txn && s[i].memAccessCounter > 0;
        assert ActiveAt(e, txn, c, i);
      }
    }
    RenewKeepsTxnRows(e, e', c, keep, ts, ctxOld);
    RenewKeepsHeldRows(e, e', c, keep, ts, ctxOld);
  }

  lemma {:induction false} RenewKeepsTxnRows(e: Engine, e': Engine, c: int, keep: nat, ts: nat, ctxOld: int)
    requires IdsUnique(e) && keep <= |e.Stack(c)|
    requires e'.txnRows == e.txnRows + TornTxnRows(e.Stack(c), keep, ts, ctxOld)
    ensures DistinctRows(e'.txnRows)
  {
    hide TornTxnRows;
    var s, torn := e.Stack(c), TornTxnRows(e.Stack(c), keep, ts, ctxOld);
    StackIdsDistinct(e, c);
    TornTxnRowsDistinct(s, keep, ts, ctxOld);
    forall i, j | 0 <= i < |e.txnRows| && 0 <= j < |torn| ensures e.txnRows[i].id != torn[j].id {
      TornTxnRowsAre(s, keep, ts, ctxOld, torn[j].id);
      assert torn[j] in torn;
      var m :| keep <= m < |s| && s[m].id == torn[j].id && s[m].memAccessCounter > 0;
      assert ActiveAt(e, s[m].id, c, m);
    }
  }

  lemma {:induction false} RenewKeepsHeldRows(e: Engine, e': Engine, c: int, keep: nat, ts: nat, ctxOld: int)
    requires IdsUnique(e) && keep <= |e.Stack(c)| && WellKinded(e.locks, Proj(e.Stack(c)))
    requires Written(e, e', c, keep, ts, ctxOld)
    ensures NoRepeats(e'.heldRows)
    ensures forall i :: 0 <= i < |e'.heldRows| ==> Closed(e', e'.heldRows[i].txn)
  {
    hide TornTxnRows, TornHeldRows, WellKinded, Closed;
    var s, torn := e.Stack(c), TornHeldRows(e.locks, e.Stack(c), keep);
    StackIdsDistinct(e, c);
    TornHeldRowsKeys(e.locks, s, keep);
    forall r | r in torn ensures Closed(e', r.txn) && !Closed(e, r.txn) {
      TornHeldRowsAre(e.locks, s, keep, r);
      var i :| keep <= i < |s| && s[i].id == r.txn && s[i].memAccessCounter > 0;
      assert ActiveAt(e, s[i].id, c, i);
      ClosedAfter(e, e', c, keep, ts, ctxOld, r.txn);
    }
    forall r | r in e.heldRows ensures Closed(e', r.txn) && Closed(e, r.txn) {
      var i :| 0 <= i < |e.heldRows| && e.heldRows[i] == r;
      ClosedAfter(e, e', c, keep, ts, ctxOld, r.txn);
    }
    NoRepeatsConcat(e.heldRows, torn);
    forall i | 0 <= i < |e'.heldRows| ensures Closed(e', e'.heldRows[i].txn) {
      assert e'.heldRows[i] in e.heldRows || e'.heldRows[i] in torn;
    }
  }

  lemma {:induction false} RenewKeepsBacking(e: Engine, e': Engine, c: int, kept: seq<Txn>, keep: nat, ts: nat,
      ctxOld: int, rows: seq<AccessRow>)
    requires TxnsBacked(e, rows) && RenewedOver(e, e', c, kept, ts) && KeptOf(e.Stack(c), keep, kept)
    requires e'.txnRows == e.txnRows + TornTxnRows(e.Stack(c), keep, ts, ctxOld)
    ensures TxnsBacked(e', rows)
  {
    hide TornTxnRows, Closed, HasRow, RenewedOver, KeptOf;
    assert keep <= |e.Stack(c)| by { KeptFits(e.Stack(c), keep, kept); }
    forall txn | Closed(e', txn) ensures HasRow(rows, txn) {
      ClosedAfter(e, e', c, keep, ts, ctxOld, txn);
      if !Closed(e, txn) {
        var i :| keep <= i < |e.Stack(c)| && e.Stack(c)[i].id == txn && e.Stack(c)[i].memAccessCounter > 0;
        assert ActiveAt(e, txn, c, i);
      }
    }
    forall txn, d, k | ActiveAt(e', txn, d, k) && e'.Stack(d)[k].memAccessCounter > 0 ensures HasRow(rows, txn) {
      ActiveAfter(e, e', c, kept, keep, ts, txn, d, k);
      if d == c && k < |kept| {
        var i :| i < keep && ActiveAt(e, txn, c, i) && e'.Stack(c)[k] == kept[k] == e.Stack(c)[i];
      }
    }
  }

  lemma {:induction false} KeptFits(s: seq<Txn>, keep: nat, kept: seq<Txn>)
    requires KeptOf(s, keep, kept)
    ensures keep <= |s|
  {
  }

  // A TXN with accesses that was not torn down is where it was.
  lemma {:induction false} KeptActive(e: Engine, e': Engine, c: int, kept: seq<Txn>, keep: nat, ts: nat, txn: int, d: int,
      k: int)
    requires RenewedOver(e, e', c, kept, ts) && keep <= |e.Stack(c)| && Shielded(e.Stack(c), keep, kept)
    requires ActiveAt(e, txn, d, k) && e.Stack(d)[k].memAccessCounter > 0 && (d != c || k < keep)
    ensures ActiveAt(e', txn, d, k) && e'.Stack(d)[k] == e.Stack(d)[k] && e'.Stack(d)[..k + 1] == e.Stack(d)[..k + 1]
  {
    if d == c {
      assert e'.Stack(c)[..k + 1] == e'.Stack(c)[..|kept|][..k + 1] == kept[..k + 1] == e.Stack(c)[..k + 1];
      assert e'.Stack(c)[k] == e'.Stack(c)[..k + 1][k] == e.Stack(c)[..k + 1][k];
    }
  }

  // What a torn-down stack adds to the rows of a TXN.
  lemma {:induction false} TornIds(e: Engine, c: int, keep: nat, txn: nat, d: int, k: int)
    requires IdsUnique(e) && keep <= |e.Stack(c)| && ActiveAt(e, txn, d, k) && e.Stack(d)[k].memAccessCounter > 0
    requires WellKinded(e.locks, Proj(e.Stack(c))) && AllHeld(e.locks, e.Stack(c))
    ensures d == c && k >= keep ==>
      && WellKinded(e.locks, Proj(e.Stack(c)[..k + 1]))
      && HeldIds(e.heldRows + TornHeldRows(e.locks, e.Stack(c), keep), txn) == IdsOf(e.locks, Proj(e.Stack(c)[..k + 1]))
  {
    hide AllHeld, WellKinded, IdsOf, HeldIds, TornHeldRows, Proj, DistinctRows, NoRepeats;
    if d == c && k >= keep {
      var s := e.Stack(c);
      StackIdsDistinct(e, c);
      TornHeldRowsOf(e.locks, s, keep, k);
      NoRowsYet(e, txn, d, k);
      HeldIdsConcat(e.heldRows, TornHeldRows(e.locks, s, keep), txn);
    }
  }

  lemma {:induction false} NoRowsYet(e: Engine, txn: nat, d: int, k: int)
    requires IdsUnique(e) && ActiveAt(e, txn, d, k)
    ensures HeldIds(e.heldRows, txn) == {}
  {
    hide NoRepeats, DistinctRows;
    assert forall i :: 0 <= i < |e.heldRows| ==> Closed(e, e.heldRows[i].txn);
    NoRowsNoIds(e.heldRows, txn);
  }

  lemma {:induction false} ClosedIds(e: Engine, c: int, keep: nat, txn: nat)
    requires IdsUnique(e) && keep <= |e.Stack(c)| && Closed(e, txn) && WellKinded(e.locks, Proj(e.Stack(c)))
    ensures HeldIds(e.heldRows + TornHeldRows(e.locks, e.Stack(c), keep), txn) == HeldIds(e.heldRows, txn)
  {
    hide TornHeldRows, WellKinded, Proj, Closed, NoRepeats, DistinctRows;
    var s, torn := e.Stack(c), TornHeldRows(e.locks, e.Stack(c), keep);
    forall r | r in torn ensures r.txn != txn {
      TornHeldRowsAre(e.locks, s, keep, r);
      var i :| keep <= i < |s| && s[i].id == r.txn && s[i].memAccessCounter > 0;
      assert ActiveAt(e, s[i].id, c, i);
    }
    NoRowsNoIds(torn, txn);
    HeldIdsConcat(e.heldRows, torn, txn);
  }

  lemma {:induction false} RenewKeepsRow(e: Engine, e': Engine, c: int, kept: seq<Txn>, keep: nat, ts: nat, ctxOld: int,
      row: AccessRow, held: seq<Sub>)
    requires IdsUnique(e) && IdsUnique(e') && RowOk(e, row, held)
    requires RenewedOver(e, e', c, kept, ts) && keep <= |e.Stack(c)| && Shielded(e.Stack(c), keep, kept)
    requires WellKinded(e.locks, Proj(e.Stack(c))) && AllHeld(e.locks, e.Stack(c))
    requires Written(e, e', c, keep, ts, ctxOld)
    ensures RowOk(e', row, held)
  {
    hide TornTxnRows, TornHeldRows, AllHeld, Closed, WellKinded, HeldIds, IdsOf, Shielded, NoRepeats, DistinctRows, DistinctIds;
    if row.txn.Some? {
      var txn, s := row.txn.value, e.Stack(c);
      ClosedAfter(e, e', c, keep, ts, ctxOld, txn);
      if Closed(e, txn) {
        ClosedIds(e, c, keep, txn);
      } else {
        var d, k :| ActiveAt(e, txn, d, k);
        if d == c && k >= keep {
          TornIds(e, c, keep, txn, d, k);
          assert Closed(e', txn);
        } else {
          KeptActive(e, e', c, kept, keep, ts, txn, d, k);
          assert forall f, j :: ActiveAt(e', txn, f, j) ==> f == d && j == k;
        }
      }
    }
  }

  lemma {:induction false} RenewKeepsAttribution(e: Engine, e': Engine, c: int, kept: seq<Txn>, keep: nat, ts: nat,
      ctxOld: int, rows: seq<AccessRow>, seen: seq<Seen>)
    requires Attributed(e, rows, seen)
    requires RenewedOver(e, e', c, kept, ts) && KeptOf(e.Stack(c), keep, kept) && Shielded(e.Stack(c), keep, kept)
    requires WellKinded(e.locks, Proj(e.Stack(c))) && AllHeld(e.locks, e.Stack(c))
    requires Written(e, e', c, keep, ts, ctxOld)
    ensures Attributed(e', rows, seen)
  {
    hide IdsUnique, TxnsBacked, RowOk, RenewedOver, AllHeld, WellKinded, Shielded;
    RenewKeepsIds(e, e', c, kept, keep, ts, ctxOld);
    RenewKeepsBacking(e, e', c, kept, keep, ts, ctxOld, rows);
    forall i | 0 <= i < |rows| && 1 <= rows[i].access.id <= |seen|
      ensures RowOk(e, rows[i], seen[rows[i].access.id - 1].held) ==> RowOk(e', rows[i], seen[rows[i].access.id - 1].held)
    {
      if RowOk(e, rows[i], seen[rows[i].access.id - 1].held) {
        RenewKeepsRow(e, e', c, kept, keep, ts, ctxOld, rows[i], seen[rows[i].access.id - 1].held);
      }
    }
  }

  // The lowest entries, all of them.
  lemma {:induction false} LowestAreKept(s: seq<Txn>, keep: nat)
    requires keep <= |s|
    ensures KeptOf(s, keep, s[..keep]) && Shielded(s, keep, s[..keep])
  {
    assert Places(seq(keep, i => i), s[..keep], s[..keep]);
    forall j | 0 <= j < keep && s[j].memAccessCounter > 0
      ensures s[..keep][..j + 1] == s[..j + 1]
    {
    }
  }

  // ----- finishTXN, startTXN and lock updates are such steps ---------------------------------------

  // What finishTXN leaves untouched at the bottom of the stack.
  function Kept(s: seq<Txn>, x: Sub, removeReader: bool): seq<Txn> {
    var k := TopMatch(Proj(s), x);
    if k < 0 then [] else if removeReader then WithoutReaders(s[..k], x.lock) else s[..k]
  }

  // ... and what it starts anew on top of that.
  function Above(s: seq<Txn>, x: Sub): seq<Txn> {
    var k := TopMatch(Proj(s), x);
    if k < 0 then s else s[k + 1..]
  }

  // How many entries are kept without removeReader.
  function KeepOf(s: seq<Txn>, x: Sub): (n: nat)
    ensures n <= |s|
  {
    var k := TopMatch(Proj(s), x);
    if k < 0 then 0 else k
  }

  lemma {:induction false} FinishedParts(s: seq<Txn>, x: Sub, ts: nat, removeReader: bool, ctx: int, next: nat)
    ensures FinishedStack(s, x, ts, removeReader, ctx, next)
         == Kept(s, x, removeReader) + Restarted(Above(s, x), ts, ctx, next)
  {
    hide TopMatch, Proj, WithoutReaders, Restarted;
  }

  lemma {:induction false} RestartedAreNew(s: seq<Txn>, ts: nat, ctx: int, next: nat)
    ensures DistinctIds(Restarted(s, ts, ctx, next))
    ensures forall i :: 0 <= i < |s| ==> IsNew(Restarted(s, ts, ctx, next)[i], next, next + |s|, ts, ctx)
  {
  }

  lemma {:induction false} NewOnTop(e: Engine, e': Engine, c: int, kept: seq<Txn>, r: seq<Txn>, ts: nat)
    requires e'.locks == e.locks && e.nextTxnId <= e'.nextTxnId && e'.Stack(c) == kept + r
    requires forall d :: d != c ==> e'.Stack(d) == e.Stack(d)
    requires DistinctIds(r) && forall i :: 0 <= i < |r| ==> IsNew(r[i], e.nextTxnId, e'.nextTxnId, ts, c)
    ensures RenewedOver(e, e', c, kept, ts)
  {
    hide IsNew;
  }

  lemma {:induction false} FinishFields(e: Engine, x: Sub, ts: nat, removeReader: bool, c: int, ctxOld: int)
    requires WellKinded(e.locks, Proj(e.Stack(c)))
    ensures var s, e' := e.Stack(c), Finish(e, x, ts, removeReader, c, ctxOld);
      && e'.locks == e.locks && (forall d :: d != c ==> e'.Stack(d) == e.Stack(d))
      && e'.Stack(c) == FinishedStack(s, x, ts, removeReader, c, e.nextTxnId)
      && e'.nextTxnId == e.nextTxnId + |Above(s, x)|
      && Written(e, e', c, KeepOf(s, x), ts, ctxOld)
  {
    hide FinishedStack, TornTxnRows, TornHeldRows, WellKinded, TopMatch, Proj;
  }

  // The entries from keep up that have accesses, topmost first.
  ghost predicate TopmostFirst(m: seq<nat>, s: seq<Txn>, keep: nat) {
    && (forall j :: 0 <= j < |m| ==> keep <= m[j] < |s| && s[m[j]].memAccessCounter > 0)
    && (forall i, j :: 0 <= i < j < |m| ==> m[j] < m[i])
    && (forall i: nat {:trigger i in m} :: keep <= i < |s| && s[i].memAccessCounter > 0 ==> i in m)
  }

  // One row for each, with when and where its TXN began, and now and where it is seen to end.
  ghost predicate RowsTell(m: seq<nat>, s: seq<Txn>, keep: nat, ts: nat, ctxOld: int, rows: seq<TxnRow>) {
    && TopmostFirst(m, s, keep) && |rows| == |m|
    && forall j :: 0 <= j < |m| ==> rows[j] == TxnRow(s[m[j]].id, s[m[j]].startTs, s[m[j]].startCtx, ts, ctxOld)
  }

  ghost predicate TxnsTold(before: seq<TxnRow>, after: seq<TxnRow>, s: seq<Txn>, keep: nat, ts: nat, ctxOld: int) {
    before <= after && exists m :: RowsTell(m, s, keep, ts, ctxOld, after[|before|..])
  }

  lemma {:induction false} TornTxnRowsTell(s: seq<Txn>, keep: nat, ts: nat, ctxOld: int) returns (m: seq<nat>)
    requires keep <= |s|
    ensures RowsTell(m, s, keep, ts, ctxOld, TornTxnRows(s, keep, ts, ctxOld))
  {
    hide RowsTell;
    if |s| == keep {
      m := [];
      TellNone(s, ts, ctxOld);
    } else {
      var n, init := |s| - 1, s[..|s| - 1];
      var below := TornTxnRowsTell(init, keep, ts, ctxOld);
      var rows := TornTxnRows(init, keep, ts, ctxOld);
      if s[n].memAccessCounter > 0 {
        TellOneMore(below, s, keep, ts, ctxOld, rows);
        m := [n] + below;
      } else {
        TellNoMore(below, s, keep, ts, ctxOld, rows);
        assert [] + rows == rows;
        m := below;
      }
    }
  }

  lemma {:induction false} TellNone(s: seq<Txn>, ts: nat, ctxOld: int)
    ensures RowsTell([], s, |s|, ts, ctxOld, [])
  {
  }

  lemma {:induction false} TellNoMore(m: seq<nat>, s: seq<Txn>, keep: nat, ts: nat, ctxOld: int, rows: seq<TxnRow>)
    requires keep < |s| && RowsTell(m, s[..|s| - 1], keep, ts, ctxOld, rows) && s[|s| - 1].memAccessCounter == 0
    ensures RowsTell(m, s, keep, ts, ctxOld, rows)
  {
    hide TopmostFirst;
    TopmostOneMore(m, s, keep);
    TopmostPlaces(m, s[..|s| - 1], keep);
    assert forall j :: 0 <= j < |m| ==> s[..|s| - 1][m[j]] == s[m[j]];
  }

  lemma {:induction false} TellOneMore(below: seq<nat>, s: seq<Txn>, keep: nat, ts: nat, ctxOld: int, rows: seq<TxnRow>)
    requires keep < |s| && RowsTell(below, s[..|s| - 1], keep, ts, ctxOld, rows) && s[|s| - 1].memAccessCounter > 0
    ensures var top := s[|s| - 1];
      RowsTell([|s| - 1] + below, s, keep, ts, ctxOld, [TxnRow(top.id, top.startTs, top.startCtx, ts, ctxOld)] + rows)
  {
    hide TopmostFirst;
    var n, m := |s| - 1, [|s| - 1] + below;
    TopmostOneMore(below, s, keep);
    TopmostPlaces(m, s, keep);
    TopmostPlaces(below, s[..n], keep);
    var more := [TxnRow(s[n].id, s[n].startTs, s[n].startCtx, ts, ctxOld)] + rows;
    forall j | 0 <= j < |m| ensures more[j] == TxnRow(s[m[j]].id, s[m[j]].startTs, s[m[j]].startCtx, ts, ctxOld) {
      if j > 0 {
        assert m[j] == below[j - 1] && more[j] == rows[j - 1] && s[..n][below[j - 1]] == s[m[j]];
      }
    }
  }

  lemma {:induction false} TopmostPlaces(m: seq<nat>, s: seq<Txn>, keep: nat)
    requires TopmostFirst(m, s, keep)
    ensures forall j :: 0 <= j < |m| ==> m[j] < |s|
  {
  }

  lemma {:induction false} TopmostOneMore(below: seq<nat>, s: seq<Txn>, keep: nat)
    requires keep < |s| && TopmostFirst(below, s[..|s| - 1], keep)
    ensures s[|s| - 1].memAccessCounter == 0 ==> TopmostFirst(below, s, keep)
    ensures s[|s| - 1].memAccessCounter > 0 ==> TopmostFirst([|s| - 1] + below, s, keep)
  {
    var n, init, m := |s| - 1, s[..|s| - 1], [|s| - 1] + below;
    forall i: nat | keep <= i < |s| && s[i].memAccessCounter > 0 ensures i in m && (i < n ==> i in below) {
      if i < n {
        assert init[i] == s[i];
        assert i in below;
      } else {
        assert m[0] == i;
      }
    }
  }

  lemma {:induction false} TornTxnsTold(rows: seq<TxnRow>, s: seq<Txn>, keep: nat, ts: nat, ctxOld: int)
    requires keep <= |s|
    ensures TxnsTold(rows, rows + TornTxnRows(s, keep, ts, ctxOld), s, keep, ts, ctxOld)
  {
    hide TornTxnRows;
    var torn := TornTxnRows(s, keep, ts, ctxOld);
    var m := TornTxnRowsTell(s, keep, ts, ctxOld);
    assert (rows + torn)[|rows|..] == torn;
  }

  lemma {:induction false} FinishTold(e: Engine, x: Sub, ts: nat, removeReader: bool, c: int, ctxOld: int)
    requires WellKinded(e.locks, Proj(e.Stack(c)))
    ensures var s, e' := e.Stack(c), Finish(e, x, ts, removeReader, c, ctxOld);
      TxnsTold(e.txnRows, e'.txnRows, s, KeepOf(s, x), ts, ctxOld)
  {
    hide Finish, TxnsTold, FinishedStack, TornTxnRows, TornHeldRows, WellKinded, TopMatch, Proj;
    FinishFields(e, x, ts, removeReader, c, ctxOld);
    TornTxnsTold(e.txnRows, e.Stack(c), KeepOf(e.Stack(c), x), ts, ctxOld);
  }

  // finishTXN: what is above the match starts anew, everything torn down has its rows.
  lemma {:induction false} FinishRenews(e: Engine, x: Sub, ts: nat, removeReader: bool, c: int, ctxOld: int)
    requires WellKinded(e.locks, Proj(e.Stack(c)))
    ensures var s, e' := e.Stack(c), Finish(e, x, ts, removeReader, c, ctxOld);
      && RenewedOver(e, e', c, Kept(s, x, removeReader), ts) && Written(e, e', c, KeepOf(s, x), ts, ctxOld)
      && TxnsTold(e.txnRows, e'.txnRows, s, KeepOf(s, x), ts, ctxOld)
  {
    hide TxnsTold, TornTxnRows, TornHeldRows, Finish, FinishedStack, RenewedOver, Written, WellKinded, TopMatch, Proj, Kept, Above, Restarted, IsNew, DistinctIds;
    var s := e.Stack(c);
    var above := Above(s, x);
    FinishFields(e, x, ts, removeReader, c, ctxOld);
    FinishTold(e, x, ts, removeReader, c, ctxOld);
    FinishedParts(s, x, ts, removeReader, c, e.nextTxnId);
    RestartedAreNew(above, ts, c, e.nextTxnId);
    NewOnTop(e, Finish(e, x, ts, removeReader, c, ctxOld), c, Kept(s, x, removeReader), Restarted(above, ts, c, e.nextTxnId), ts);
  }

  function Shifted(m: seq<nat>): (r: seq<nat>)
    ensures |r| == |m| && forall i :: 0 <= i < |m| ==> r[i] == m[i] + 1
  {
    seq(|m|, i requires 0 <= i < |m| => m[i] + 1)
  }

  lemma {:induction false} PlacesShift(m: seq<nat>, s: seq<Txn>, kept: seq<Txn>)
    requires s != [] && Places(m, s[1..], kept)
    ensures Places(Shifted(m), s, kept) && Places([0] + Shifted(m), s, [s[0]] + kept)
  {
    var r := Shifted(m);
    forall k | 0 <= k < |r|
      ensures r[k] < |s| && kept[k] == s[r[k]]
    {
      assert s[1..][m[k]] == s[m[k] + 1];
    }
  }

  lemma {:induction false} WithoutReadersPlaces(s: seq<Txn>, lock: nat) returns (m: seq<nat>)
    ensures Places(m, s, WithoutReaders(s, lock))
  {
    hide Places;
    if s == [] {
      m := [];
      NoPlaces();
    } else {
      var rest := WithoutReadersPlaces(s[1..], lock);
      PlacesShift(rest, s, WithoutReaders(s[1..], lock));
      m := if SubOf(s[0]) == Sub(lock, ReaderLock) then Shifted(rest) else [0] + Shifted(rest);
    }
  }

  lemma {:induction false} NoPlaces()
    ensures Places([], [], [])
  {
  }

  lemma {:induction false} KeptIsKept(s: seq<Txn>, x: Sub, removeReader: bool)
    ensures KeptOf(s, KeepOf(s, x), Kept(s, x, removeReader))
  {
    hide WithoutReaders, Proj, TopMatch, Places;
    var keep := KeepOf(s, x);
    if removeReader && TopMatch(Proj(s), x) >= 0 {
      var m := WithoutReadersPlaces(s[..keep], x.lock);
    } else {
      LowestAreKept(s, keep);
    }
  }

  // With or without removeReader no TXN id is given or written twice, and no lock twice for a TXN.
  lemma {:induction false} FinishKeepsIds(e: Engine, x: Sub, ts: nat, removeReader: bool, c: int, ctxOld: int)
    requires IdsUnique(e) && WellKinded(e.locks, Proj(e.Stack(c)))
    ensures IdsUnique(Finish(e, x, ts, removeReader, c, ctxOld))
  {
    hide IdsUnique, Finish, Kept, KeepOf, WellKinded, Written, RenewedOver, KeptOf, DistinctIds;
    var s := e.Stack(c);
    FinishRenews(e, x, ts, removeReader, c, ctxOld);
    KeptIsKept(s, x, removeReader);
    RenewKeepsIds(e, Finish(e, x, ts, removeReader, c, ctxOld), c, Kept(s, x, removeReader), KeepOf(s, x), ts, ctxOld);
  }

  lemma {:induction false} StartRenews(e: Engine, x: Sub, ts: nat, ctx: int)
    requires WellKinded(e.locks, Proj(e.Stack(ctx)))
    ensures Renewed(e, Start(e, x, ts, ctx), ctx, |e.Stack(ctx)|, ts)
    ensures Written(e, Start(e, x, ts, ctx), ctx, |e.Stack(ctx)|, ts, ctx)
  {
  }

  // Below the match nothing goes, or only entries that no TXN with accesses lies over.
  lemma {:induction false} FinishKeepsAttributionIf(e: Engine, x: Sub, ts: nat, removeReader: bool, c: int, ctxOld: int,
      rows: seq<AccessRow>, seen: seq<Seen>)
    requires Attributed(e, rows, seen)
    requires WellKinded(e.locks, Proj(e.Stack(c))) && AllHeld(e.locks, e.Stack(c))
    requires Shielded(e.Stack(c), KeepOf(e.Stack(c), x), Kept(e.Stack(c), x, removeReader))
    ensures Attributed(Finish(e, x, ts, removeReader, c, ctxOld), rows, seen)
  {
    hide IdsUnique, TxnsBacked, RowsOk, Finish, Kept, KeepOf, WellKinded, AllHeld, Written, RenewedOver, KeptOf, Shielded, DistinctIds;
    var s := e.Stack(c);
    FinishRenews(e, x, ts, removeReader, c, ctxOld);
    KeptIsKept(s, x, removeReader);
    RenewKeepsAttribution(e, Finish(e, x, ts, removeReader, c, ctxOld), c, Kept(s, x, removeReader), KeepOf(s, x), ts, ctxOld,
                          rows, seen);
  }

  lemma {:induction false} FinishKeepsAttribution(e: Engine, x: Sub, ts: nat, c: int, ctxOld: int,
      rows: seq<AccessRow>, seen: seq<Seen>)
    requires Attributed(e, rows, seen)
    requires WellKinded(e.locks, Proj(e.Stack(c))) && AllHeld(e.locks, e.Stack(c))
    ensures Attributed(Finish(e, x, ts, false, c, ctxOld), rows, seen)
  {
    hide IdsUnique, TxnsBacked, RowsOk, Finish, WellKinded, AllHeld, KeptOf, Shielded, TopMatch, Proj;
    var s := e.Stack(c);
    LowestAreKept(s, KeepOf(s, x));
    assert Kept(s, x, false) == s[..KeepOf(s, x)];
    FinishKeepsAttributionIf(e, x, ts, false, c, ctxOld, rows, seen);
  }

  lemma {:induction false} StartKeepsAttribution(e: Engine, x: Sub, ts: nat, ctx: int, rows: seq<AccessRow>,
      seen: seq<Seen>)
    requires Attributed(e, rows, seen)
    requires WellKinded(e.locks, Proj(e.Stack(ctx))) && AllHeld(e.locks, e.Stack(ctx))
    ensures Attributed(Start(e, x, ts, ctx), rows, seen)
  {
    hide IdsUnique, TxnsBacked, RowsOk, RenewedOver, Start, WellKinded, AllHeld, Written, KeptOf, Shielded;
    var s := e.Stack(ctx);
    StartRenews(e, x, ts, ctx);
    LowestAreKept(s, |s|);
    RenewKeepsAttribution(e, Start(e, x, ts, ctx), ctx, s[..|s|], |s|, ts, ctx, rows, seen);
  }

  // The locks known to e keep their kind and their ids; nothing else of e has changed.
  predicate SameButLocks(e: Engine, e': Engine) {
    && |e.locks| <= |e'.locks|
    && (forall l :: 0 <= l < |e.locks| ==>
          && e'.locks[l].kind == e.locks[l].kind
          && e'.locks[l].readId == e.locks[l].readId
          && e'.locks[l].writeId == e.locks[l].writeId)
    && e'.stacks == e.stacks && e'.nextTxnId == e.nextTxnId
    && e'.txnRows == e.txnRows && e'.heldRows == e.heldRows
  }

  lemma {:induction false} SameIds(e: Engine, e': Engine, p: seq<Sub>)
    requires SameButLocks(e, e') && WellKinded(e.locks, p)
    ensures WellKinded(e'.locks, p) && IdsOf(e'.locks, p) == IdsOf(e.locks, p)
  {
    assert forall i :: 0 <= i < |p| ==> e'.locks[p[i].lock].GetId(p[i].subLock) == e.locks[p[i].lock].GetId(p[i].subLock);
  }

  lemma {:induction false} SameRow(e: Engine, e': Engine, row: AccessRow, held: seq<Sub>)
    requires SameButLocks(e, e') && RowOk(e, row, held)
    ensures RowOk(e', row, held)
  {
    if row.txn.Some? {
      assert forall c, k :: ActiveAt(e', row.txn.value, c, k) <==> ActiveAt(e, row.txn.value, c, k);
      assert Closed(e', row.txn.value) <==> Closed(e, row.txn.value);
      if Closed(e, row.txn.value) {
        SameIds(e, e', held);
      }
    }
  }

  lemma {:induction false} LocksKeepAttribution(e: Engine, e': Engine, rows: seq<AccessRow>, seen: seq<Seen>)
    requires Attributed(e, rows, seen) && SameButLocks(e, e')
    ensures Attributed(e', rows, seen)
  {
    hide RowOk, NoRepeats, HasRow;
    assert forall txn, c, k :: ActiveAt(e', txn, c, k) <==> ActiveAt(e, txn, c, k);
    assert forall txn :: Closed(e', txn) <==> Closed(e, txn);
    forall i | 0 <= i < |rows| ensures RowOk(e', rows[i], seen[rows[i].access.id - 1].held) {
      SameRow(e, e', rows[i], seen[rows[i].access.id - 1].held);
    }
  }

  // ----- writing an access -----------------------------------------------------------------------

  function ActiveTxn(e: Engine, ctx: int): Option<nat> {
    if e.Stack(ctx) == [] then None else Some(e.Stack(ctx)[|e.Stack(ctx)| - 1].id)
  }

  function CountAccess(e: Engine, ctx: int): Engine {
    var s := e.Stack(ctx);
    if s == [] then e
    else
      var top := s[|s| - 1];
      e.(stacks := e.stacks[ctx := s[|s| - 1 := top.(memAccessCounter := top.memAccessCounter + 1)]])
  }

  lemma {:induction false} CountKeepsProj(e: Engine, ctx: int, c: int)
    ensures Proj(CountAccess(e, ctx).Stack(c)) == Proj(e.Stack(c))
    ensures CountAccess(e, ctx).locks == e.locks
  {
  }

  lemma {:induction false} CountedActive(e: Engine, ctx: int, txn: int, c: int, k: int)
    ensures var e' := CountAccess(e, ctx);
      && (ActiveAt(e', txn, c, k) <==> ActiveAt(e, txn, c, k))
      && (ActiveAt(e, txn, c, k) ==>
            && Proj(e'.Stack(c)[..k + 1]) == Proj(e.Stack(c)[..k + 1])
            && (e'.Stack(c)[k].memAccessCounter > 0 <==>
                  e.Stack(c)[k].memAccessCounter > 0 || (c == ctx && k == |e.Stack(ctx)| - 1)))
  {
  }

  lemma {:induction false} CountKeepsRow(e: Engine, ctx: int, row: AccessRow, held: seq<Sub>)
    requires RowOk(e, row, held)
    ensures RowOk(CountAccess(e, ctx), row, held)
  {
    hide CountAccess;
    var e' := CountAccess(e, ctx);
    assert e'.locks == e.locks && e'.txnRows == e.txnRows && e'.heldRows == e.heldRows && e'.nextTxnId == e.nextTxnId
      by { CountFrame(e, ctx); }
    if row.txn.Some? {
      var txn := row.txn.value;
      forall c, k ensures ActiveAt(e', txn, c, k) <==> ActiveAt(e, txn, c, k) {
        CountedActive(e, ctx, txn, c, k);
      }
      forall c, k | ActiveAt(e', txn, c, k)
        ensures e'.Stack(c)[k].memAccessCounter > 0 && Proj(e'.Stack(c)[..k + 1]) == held
      {
        CountedActive(e, ctx, txn, c, k);
      }
    }
  }

  lemma {:induction false} CountFrame(e: Engine, ctx: int)
    ensures var e' := CountAccess(e, ctx);
      && e'.locks == e.locks && e'.txnRows == e.txnRows && e'.heldRows == e.heldRows
      && e'.nextTxnId == e.nextTxnId && e'.byAddress == e.byAddress && e'.nextLockId == e.nextLockId
  {
  }

  lemma {:induction false} CountKeepsIds(e: Engine, ctx: int)
    requires IdsUnique(e)
    ensures IdsUnique(CountAccess(e, ctx))
  {
    hide CountAccess, ActiveAt, NoRepeats, DistinctRows;
    var e' := CountAccess(e, ctx);
    CountFrame(e, ctx);
    forall txn, c, k ensures ActiveAt(e', txn, c, k) <==> ActiveAt(e, txn, c, k) {
      CountedActive(e, ctx, txn, c, k);
    }
    assert forall txn :: Closed(e', txn) <==> Closed(e, txn);
  }

  lemma {:induction false} NewRowOk(e: Engine, ctx: int, access: MemAccess)
    requires IdsUnique(e)
    ensures RowOk(CountAccess(e, ctx), AccessRow(access, ActiveTxn(e, ctx)), Proj(e.Stack(ctx)))
  {
    hide CountAccess, NoRepeats, DistinctRows;
    var s, e' := e.Stack(ctx), CountAccess(e, ctx);
    CountFrame(e, ctx);
    CountKeepsIds(e, ctx);
    if s != [] {
      var txn, top := s[|s| - 1].id, |s| - 1;
      assert ActiveAt(e, txn, ctx, top);
      CountedActive(e, ctx, txn, ctx, top);
      assert s[..top + 1] == s;
      assert forall c, k :: ActiveAt(e', txn, c, k) ==> c == ctx && k == top;
    }
  }

  lemma {:induction false} NewRowBacks(e: Engine, ctx: int, access: MemAccess, rows: seq<AccessRow>)
    requires TxnsBacked(e, rows)
    ensures TxnsBacked(CountAccess(e, ctx), rows + [AccessRow(access, ActiveTxn(e, ctx))])
  {
    hide CountAccess;
    var e', rows' := CountAccess(e, ctx), rows + [AccessRow(access, ActiveTxn(e, ctx))];
    CountFrame(e, ctx);
    forall txn | HasRow(rows, txn) ensures HasRow(rows', txn) {
      var i :| 0 <= i < |rows| && rows[i].txn.Some? && rows[i].txn.value == txn;
      assert rows'[i] == rows[i];
    }
    forall txn, c, k | ActiveAt(e', txn, c, k) && e'.Stack(c)[k].memAccessCounter > 0 ensures HasRow(rows', txn) {
      CountedActive(e, ctx, txn, c, k);
      if c == ctx && k == |e.Stack(ctx)| - 1 {
        assert rows'[|rows|].txn == Some(txn);
      }
    }
  }

  // An access written while its context holds what it held when the access happened.
  lemma {:induction false} RecordKeepsAttribution(e: Engine, ctx: int, access: MemAccess, rows: seq<AccessRow>,
      seen: seq<Seen>)
    requires Attributed(e, rows, seen)
    requires 1 <= access.id <= |seen| && seen[access.id - 1].access == access && seen[access.id - 1].held == Proj(e.Stack(ctx))
    ensures Attributed(CountAccess(e, ctx), rows + [AccessRow(access, ActiveTxn(e, ctx))], seen)
  {
    hide CountAccess, IdsUnique, TxnsBacked, RowOk, ActiveTxn;
    CountKeepsIds(e, ctx);
    NewRowOk(e, ctx, access);
    NewRowBacks(e, ctx, access, rows);
    forall i | 0 <= i < |rows| ensures RowOk(CountAccess(e, ctx), rows[i], seen[rows[i].access.id - 1].held) {
      CountKeepsRow(e, ctx, rows[i], seen[rows[i].access.id - 1].held);
    }
  }

  lemma {:induction false} MoreSeen(e: Engine, rows: seq<AccessRow>, seen: seq<Seen>, s: Seen)
    requires Attributed(e, rows, seen)
    ensures Attributed(e, rows, seen + [s])
  {
    hide IdsUnique, TxnsBacked, RowOk;
  }
}
