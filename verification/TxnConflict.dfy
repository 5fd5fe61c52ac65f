// Where the claim fails: a P_WRITE that finds readers flushes them with removeReader, which erases
// the lower reader entries without writing their rows and without renewing the TXNs above them.

module TxnConflict {
  import opened TxnEngine
  import opened Wrappers
  import opened TxnAccounting
  import opened TxnAttribution

  // Every TXN that has accesses was given its rows, or still has the entries it had below it.
  ghost predicate Faithful(e: Engine, e': Engine, ctx: int) {
    forall txn, j :: ActiveAt(e, txn, ctx, j) && e.Stack(ctx)[j].memAccessCounter > 0 ==>
      || Closed(e', txn)
      || exists k :: ActiveAt(e', txn, ctx, k) && Proj(e'.Stack(ctx)[..k + 1]) == Proj(e.Stack(ctx)[..j + 1])
  }

  // No reader entry of the lock lies at or below a TXN with accesses that is below the match.
  predicate NothingBeneath(s: seq<Txn>, x: Sub) {
    forall i, j :: 0 <= i <= j < TopMatch(Proj(s), x) && SubOf(s[i]) == x ==> s[j].memAccessCounter == 0
  }

  lemma {:induction false} WithoutReadersConcat(a: seq<Txn>, b: seq<Txn>, lock: nat)
    ensures WithoutReaders(a + b, lock) == WithoutReaders(a, lock) + WithoutReaders(b, lock)
  {
    if a == [] {
      assert a + b == b;
    } else {
      assert (a + b)[1..] == a[1..] + b;
      WithoutReadersConcat(a[1..], b, lock);
    }
  }

  lemma {:induction false} WithoutReadersNone(s: seq<Txn>, lock: nat)
    ensures Sub(lock, ReaderLock) !in Proj(WithoutReaders(s, lock))
    ensures forall t :: t in WithoutReaders(s, lock) ==> t in s
    ensures Sub(lock, ReaderLock) !in Proj(s) ==> WithoutReaders(s, lock) == s
  {
    NoReaderLeft(s, lock);
    NothingNew(s, lock);
    if Sub(lock, ReaderLock) !in Proj(s) {
      NothingToDrop(s, lock);
    }
    hide WithoutReaders, Proj;
  }

  lemma {:induction false} NoReaderLeft(s: seq<Txn>, lock: nat)
    ensures Sub(lock, ReaderLock) !in Proj(WithoutReaders(s, lock))
  {
    if s != [] {
      NoReaderLeft(s[1..], lock);
      var r := WithoutReaders(s[1..], lock);
      assert Proj([s[0]] + r) == [SubOf(s[0])] + Proj(r);
    }
  }

  lemma {:induction false} NothingNew(s: seq<Txn>, lock: nat)
    ensures forall t :: t in WithoutReaders(s, lock) ==> t in s
  {
    if s != [] {
      NothingNew(s[1..], lock);
    }
  }

  lemma {:induction false} NothingToDrop(s: seq<Txn>, lock: nat)
    requires Sub(lock, ReaderLock) !in Proj(s)
    ensures WithoutReaders(s, lock) == s
  {
    if s != [] {
      assert Proj(s)[0] == SubOf(s[0]);
      assert Proj(s[1..]) == Proj(s)[1..];
      NothingToDrop(s[1..], lock);
      assert s == [s[0]] + s[1..];
    }
  }

  lemma {:induction false} FlushedShape(e: Engine, x: Sub, ts: nat, ctx: int)
    requires x.subLock.ReaderLock? && WellKinded(e.locks, Proj(e.Stack(ctx))) && OnStack(e, ctx, x)
    ensures var s, k := e.Stack(ctx), TopMatch(Proj(e.Stack(ctx)), x);
      var e' := Finish(e, x, ts, true, ctx, ctx);
      && e'.Stack(ctx) == WithoutReaders(s[..k], x.lock) + Restarted(s[k + 1..], ts, ctx, e.nextTxnId)
      && e'.txnRows == e.txnRows + TornTxnRows(s, k, ts, ctx)
  {
    hide TornTxnRows, TornHeldRows, WithoutReaders;
  }

  lemma {:induction false} FlushKeepsBelow(e: Engine, x: Sub, ts: nat, ctx: int, j: nat)
    requires x.subLock.ReaderLock? && WellKinded(e.locks, Proj(e.Stack(ctx))) && OnStack(e, ctx, x)
    requires j < TopMatch(Proj(e.Stack(ctx)), x) && x !in Proj(e.Stack(ctx)[..j + 1])
    ensures var e' := Finish(e, x, ts, true, ctx, ctx);
      j < |e'.Stack(ctx)| && e'.Stack(ctx)[..j + 1] == e.Stack(ctx)[..j + 1]
  {
    hide Finish, WithoutReaders, OnStack, Proj, TopMatch, Restarted, TornTxnRows, WellKinded;
    var s, k := e.Stack(ctx), TopMatch(Proj(e.Stack(ctx)), x);
    FlushedShape(e, x, ts, ctx);
    assert s[..k] == s[..j + 1] + s[j + 1..k];
    WithoutReadersConcat(s[..j + 1], s[j + 1..k], x.lock);
    WithoutReadersNone(s[..j + 1], x.lock);
  }

  // An entry below the match gets no row in the flush.
  lemma {:induction false} FlushUnwritten(e: Engine, x: Sub, ts: nat, ctx: int, j: nat)
    requires IdsUnique(e) && WellKinded(e.locks, Proj(e.Stack(ctx))) && OnStack(e, ctx, x)
    requires j < TopMatch(Proj(e.Stack(ctx)), x)
    ensures var txn, e' := e.Stack(ctx)[j].id, Finish(e, x, ts, true, ctx, ctx);
      !Closed(e', txn) && txn < e'.nextTxnId
  {
    hide Finish, WellKinded, OnStack, TornTxnRows, TornHeldRows, FinishedStack, DistinctRows, NoRepeats, Proj, TopMatch;
    var s, e' := e.Stack(ctx), Finish(e, x, ts, true, ctx, ctx);
    assert forall m :: 0 <= m < |s| ==> ActiveAt(e, s[m].id, ctx, m);
    FinishFields(e, x, ts, true, ctx, ctx);
    ClosedAfter(e, e', ctx, KeepOf(s, x), ts, ctx, s[j].id);
  }

  // ... and lies over no reader of the lock any more, if it is still there.
  lemma {:induction false} FlushRaises(e: Engine, x: Sub, ts: nat, ctx: int, j: nat, d: int, m: int)
    requires IdsUnique(e) && WellKinded(e.locks, Proj(e.Stack(ctx))) && OnStack(e, ctx, x) && x.subLock.ReaderLock?
    requires j < TopMatch(Proj(e.Stack(ctx)), x) && ActiveAt(Finish(e, x, ts, true, ctx, ctx), e.Stack(ctx)[j].id, d, m)
    ensures x !in Proj(Finish(e, x, ts, true, ctx, ctx).Stack(d)[..m + 1])
  {
    hide Finish, WellKinded, OnStack, WithoutReaders, TornTxnRows, TornHeldRows, FinishedStack, DistinctRows, NoRepeats, Closed, Proj, TopMatch, Restarted;
    var s, k, e' := e.Stack(ctx), TopMatch(Proj(e.Stack(ctx)), x), Finish(e, x, ts, true, ctx, ctx);
    var below := WithoutReaders(s[..k], x.lock);
    FinishFields(e, x, ts, true, ctx, ctx);
    FlushedShape(e, x, ts, ctx);
    WithoutReadersNone(s[..k], x.lock);
    assert ActiveAt(e, s[j].id, ctx, j);
    assert d != ctx ==> ActiveAt(e, s[j].id, d, m);
    assert m < |below| && e'.Stack(ctx)[..m + 1] == below[..m + 1];
    TakeOf(below, m + 1, x);
  }

  lemma {:induction false} TakeOf(s: seq<Txn>, n: nat, x: Sub)
    requires n <= |s| && x !in Proj(s)
    ensures x !in Proj(s[..n])
  {
    assert Proj(s[..n]) == Proj(s)[..n];
  }

  lemma {:induction false} FlushBreaks(e: Engine, x: Sub, ts: nat, ctx: int, i: nat, j: nat)
    requires x.subLock.ReaderLock? && WellKinded(e.locks, Proj(e.Stack(ctx))) && OnStack(e, ctx, x) && IdsUnique(e)
    requires i <= j < TopMatch(Proj(e.Stack(ctx)), x) && SubOf(e.Stack(ctx)[i]) == x
    requires e.Stack(ctx)[j].memAccessCounter > 0
    ensures !Faithful(e, Finish(e, x, ts, true, ctx, ctx), ctx)
  {
    hide Finish, OnStack, IdsUnique, Closed, TopMatch, WellKinded;
    var s, e' := e.Stack(ctx), Finish(e, x, ts, true, ctx, ctx);
    FlushUnwritten(e, x, ts, ctx, j);
    assert Proj(s[..j + 1])[i] == x;
    forall m | ActiveAt(e', s[j].id, ctx, m)
      ensures Proj(e'.Stack(ctx)[..m + 1]) != Proj(s[..j + 1])
    {
      FlushRaises(e, x, ts, ctx, j, ctx, m);
    }
    assert ActiveAt(e, s[j].id, ctx, j);
  }

  lemma {:induction false} FlushKeeps(e: Engine, x: Sub, ts: nat, ctx: int, j: nat)
    requires x.subLock.ReaderLock? && WellKinded(e.locks, Proj(e.Stack(ctx))) && OnStack(e, ctx, x)
    requires NothingBeneath(e.Stack(ctx), x) && j < |e.Stack(ctx)| && e.Stack(ctx)[j].memAccessCounter > 0
    ensures var s, e' := e.Stack(ctx), Finish(e, x, ts, true, ctx, ctx);
      Closed(e', s[j].id) || (ActiveAt(e', s[j].id, ctx, j) && Proj(e'.Stack(ctx)[..j + 1]) == Proj(s[..j + 1]))
  {
    hide Finish, WithoutReaders, TornTxnRows;
    var s, k := e.Stack(ctx), TopMatch(Proj(e.Stack(ctx)), x);
    var e' := Finish(e, x, ts, true, ctx, ctx);
    if j >= k {
      FlushedShape(e, x, ts, ctx);
      ClosedAfter(e, e', ctx, k, ts, ctx, s[j].id);
    } else {
      var p := Proj(s[..j + 1]);
      forall i | 0 <= i < |p| ensures p[i] != x {
        assert s[..j + 1][i] == s[i];
      }
      FlushKeepsBelow(e, x, ts, ctx, j);
      assert e'.Stack(ctx)[j] == e'.Stack(ctx)[..j + 1][j] == s[..j + 1][j];
    }
  }

  // ----- what a flush leaves of the list of sub-locks ------------------------------------------------

  function Without(s: seq<Sub>, x: Sub): seq<Sub> {
    if s == [] then []
    else if s[0] == x then Without(s[1..], x)
    else [s[0]] + Without(s[1..], x)
  }

  lemma {:induction false} WithoutNone(s: seq<Sub>, x: Sub)
    requires x !in s
    ensures Without(s, x) == s
  {
    if s != [] {
      WithoutNone(s[1..], x);
    }
  }

  lemma {:induction false} WithoutConcat(a: seq<Sub>, b: seq<Sub>, x: Sub)
    ensures Without(a + b, x) == Without(a, x) + Without(b, x)
  {
    if a == [] {
      assert a + b == b;
    } else {
      assert (a + b)[1..] == a[1..] + b;
      WithoutConcat(a[1..], b, x);
    }
  }

  lemma {:induction false} WithoutReadersProj(s: seq<Txn>, lock: nat)
    ensures Proj(WithoutReaders(s, lock)) == Without(Proj(s), Sub(lock, ReaderLock))
  {
    if s != [] {
      WithoutReadersProj(s[1..], lock);
      assert Proj(s) == [SubOf(s[0])] + Proj(s[1..]);
      assert Proj([s[0]] + WithoutReaders(s[1..], lock)) == [SubOf(s[0])] + Proj(WithoutReaders(s[1..], lock));
    }
  }

  // All entries of the flushed side are gone, and only those.
  lemma {:induction false} FlushedIsWithout(s: seq<Txn>, x: Sub)
    requires x.subLock.WriterLock? ==> Sub(x.lock, ReaderLock) !in Proj(s) && multiset(Proj(s))[x] <= 1
    ensures FlushedProj(s, x) == Without(Proj(s), x)
  {
    hide WithoutReaders, Without;
    var p, k := Proj(s), TopMatch(Proj(s), x);
    if k < 0 {
      WithoutNone(p, x);
    } else {
      var a, b := p[..k], p[k + 1..];
      assert p == (a + [x]) + b && Proj(s[..k]) == a;
      WithoutConcat(a + [x], b, x);
      WithoutConcat(a, [x], x);
      WithoutNone(b, x);
      OneGone(x);
      WithoutReadersProj(s[..k], x.lock);
      if x.subLock.WriterLock? {
        WithoutReadersNone(s[..k], x.lock);
        assert multiset(p) == multiset(a) + multiset{x} + multiset(b);
        assert x !in multiset(a);
        WithoutNone(a, x);
      }
    }
  }

  lemma {:induction false} OneGone(x: Sub)
    ensures Without([x], x) == []
  {
    assert [x][1..] == [];
  }

  // A flush that finds nothing beneath leaves the TXNs with accesses on what they lie on.
  lemma {:induction false} FlushShielded(s: seq<Txn>, x: Sub)
    requires if x.subLock.ReaderLock? then NothingBeneath(s, x) else Sub(x.lock, ReaderLock) !in Proj(s)
    ensures Shielded(s, KeepOf(s, x), Kept(s, x, true))
  {
    hide WithoutReaders;
    var k, kept := TopMatch(Proj(s), x), Kept(s, x, true);
    if k >= 0 {
      forall j | 0 <= j < k && s[j].memAccessCounter > 0
        ensures j < |kept| && kept[..j + 1] == s[..j + 1]
      {
        var p := Proj(s[..j + 1]);
        forall i | 0 <= i < |p| ensures p[i] != Sub(x.lock, ReaderLock) {
          assert p[i] == SubOf(s[i]) == Proj(s)[i];
        }
        assert s[..k] == s[..j + 1] + s[j + 1..k];
        WithoutReadersConcat(s[..j + 1], s[j + 1..k], x.lock);
        WithoutReadersNone(s[..j + 1], x.lock);
      }
    }
  }

  // The flush is faithful exactly when no TXN with accesses lies over a reader entry it erases.
  lemma {:induction false} FlushFaithfulIff(e: Engine, x: Sub, ts: nat, ctx: int)
    requires x.subLock.ReaderLock? && WellKinded(e.locks, Proj(e.Stack(ctx))) && OnStack(e, ctx, x) && IdsUnique(e)
    ensures Faithful(e, Finish(e, x, ts, true, ctx, ctx), ctx) <==> NothingBeneath(e.Stack(ctx), x)
  {
    hide Finish, OnStack, IdsUnique, WithoutReaders;
    var s, k := e.Stack(ctx), TopMatch(Proj(e.Stack(ctx)), x);
    if NothingBeneath(s, x) {
      forall txn, j | ActiveAt(e, txn, ctx, j) && s[j].memAccessCounter > 0
        ensures var e' := Finish(e, x, ts, true, ctx, ctx);
          || Closed(e', txn)
          || exists m :: ActiveAt(e', txn, ctx, m) && Proj(e'.Stack(ctx)[..m + 1]) == Proj(s[..j + 1])
      {
        FlushKeeps(e, x, ts, ctx, j);
      }
    } else {
      var i, j :| 0 <= i <= j < k && SubOf(s[i]) == x && s[j].memAccessCounter != 0;
      FlushBreaks(e, x, ts, ctx, i, j);
    }
  }
}
