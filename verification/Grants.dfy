// The outstanding Ps of all execution contexts as one list, the simple form of the position stacks of all
// locks (convert/main/rwlock.cc).

module Grants {
  import opened TxnEngine
  import opened TxnAccounting
  import opened TxnConflict
  import opened TxnReference

  // An outstanding P; those of all contexts form one list, in the order they happened in.
  datatype Grant = Grant(ctx: int, sub: Sub, ts: nat)

  function OnLock(g: seq<Grant>, l: nat): seq<Grant> {
    if g == [] then []
    else OnLock(g[..|g| - 1], l) + if g[|g| - 1].sub.lock == l then [g[|g| - 1]] else []
  }

  function InCtx(g: seq<Grant>, c: int): seq<Sub> {
    if g == [] then []
    else InCtx(g[..|g| - 1], c) + if g[|g| - 1].ctx == c then [g[|g| - 1].sub] else []
  }

  function Stamps(g: seq<Grant>): (s: seq<nat>)
    ensures |s| == |g| && forall i :: 0 <= i < |g| ==> s[i] == g[i].ts
  {
    seq(|g|, i requires 0 <= i < |g| => g[i].ts)
  }

  // Index of the last P of x in context c, or -1.
  function LastOf(g: seq<Grant>, c: int, x: Sub): (k: int)
    ensures -1 <= k < |g|
    ensures k >= 0 ==> g[k].ctx == c && g[k].sub == x
    ensures forall i :: k < i < |g| ==> g[i].ctx != c || g[i].sub != x
  {
    if g == [] then -1
    else if g[|g| - 1].ctx == c && g[|g| - 1].sub == x then |g| - 1
    else LastOf(g[..|g| - 1], c, x)
  }

  // That P is over.
  function Ended(g: seq<Grant>, c: int, x: Sub): seq<Grant> {
    var k := LastOf(g, c, x);
    if k < 0 then g else g[..k] + g[k + 1..]
  }

  // All Ps of x in context c are.
  function Forgotten(g: seq<Grant>, c: int, x: Sub): seq<Grant> {
    if g == [] then []
    else Forgotten(g[..|g| - 1], c, x) + if g[|g| - 1].ctx == c && g[|g| - 1].sub == x then [] else [g[|g| - 1]]
  }

  // ----- lists -------------------------------------------------------------------------------------

  lemma {:induction false} OnLockConcat(a: seq<Grant>, b: seq<Grant>, l: nat)
    ensures OnLock(a + b, l) == OnLock(a, l) + OnLock(b, l)
  {
    if b == [] {
      assert a + b == a;
    } else {
      assert (a + b)[..|a + b| - 1] == a + b[..|b| - 1];
      OnLockConcat(a, b[..|b| - 1], l);
    }
  }

  lemma {:induction false} InCtxConcat(a: seq<Grant>, b: seq<Grant>, c: int)
    ensures InCtx(a + b, c) == InCtx(a, c) + InCtx(b, c)
  {
    if b == [] {
      assert a + b == a;
    } else {
      assert (a + b)[..|a + b| - 1] == a + b[..|b| - 1];
      InCtxConcat(a, b[..|b| - 1], c);
    }
  }

  lemma {:induction false} OneGrant(q: Grant, l: nat, c: int)
    ensures OnLock([q], l) == if q.sub.lock == l then [q] else []
    ensures InCtx([q], c) == if q.ctx == c then [q.sub] else []
  {
    assert [q][..0] == [];
  }

  lemma {:induction false} OnLockAre(g: seq<Grant>, l: nat)
    ensures forall q :: q in OnLock(g, l) <==> q in g && q.sub.lock == l
  {
    if g != [] {
      OnLockAre(g[..|g| - 1], l);
      assert g == g[..|g| - 1] + [g[|g| - 1]];
    }
  }

  lemma {:induction false} OnLockNone(g: seq<Grant>, l: nat)
    requires forall q :: q in g ==> q.sub.lock != l
    ensures OnLock(g, l) == []
  {
    if g != [] {
      OnLockNone(g[..|g| - 1], l);
    }
  }

  lemma {:induction false} InCtxAre(g: seq<Grant>, c: int)
    ensures forall q :: q in g && q.ctx == c ==> q.sub in InCtx(g, c)
    ensures forall x :: x in InCtx(g, c) ==> exists q :: q in g && q.ctx == c && q.sub == x
  {
    if g != [] {
      var init, last := g[..|g| - 1], g[|g| - 1];
      InCtxAre(init, c);
      assert g == init + [last];
      forall x | x in InCtx(g, c) ensures exists q :: q in g && q.ctx == c && q.sub == x {
        if x in InCtx(init, c) {
          var q :| q in init && q.ctx == c && q.sub == x;
          assert q in g;
        } else {
          assert last in g;
        }
      }
    }
  }

  // ----- ending one P ---------------------------------------------------------------------------------

  lemma {:induction false} SplitAt(g: seq<Grant>, k: nat, l: nat, c: int)
    requires k < |g|
    ensures OnLock(g, l) == OnLock(g[..k], l) + (if g[k].sub.lock == l then [g[k]] else []) + OnLock(g[k + 1..], l)
    ensures InCtx(g, c) == InCtx(g[..k], c) + (if g[k].ctx == c then [g[k].sub] else []) + InCtx(g[k + 1..], c)
    ensures OnLock(g[..k] + g[k + 1..], l) == OnLock(g[..k], l) + OnLock(g[k + 1..], l)
    ensures InCtx(g[..k] + g[k + 1..], c) == InCtx(g[..k], c) + InCtx(g[k + 1..], c)
  {
    var a, b := g[..k], g[k + 1..];
    assert g == (a + [g[k]]) + b;
    OnLockConcat(a + [g[k]], b, l);
    OnLockConcat(a, [g[k]], l);
    OnLockConcat(a, b, l);
    InCtxConcat(a + [g[k]], b, c);
    InCtxConcat(a, [g[k]], c);
    InCtxConcat(a, b, c);
    OneGrant(g[k], l, c);
  }

  lemma {:induction false} RemoveTopAt(a: seq<Sub>, x: Sub, b: seq<Sub>)
    requires x !in b
    ensures RemoveTop(a + [x] + b, x) == a + b
  {
    var s := a + [x] + b;
    var k := TopMatch(s, x);
    assert s[|a|] == x;
    forall i | |a| < i < |s| ensures s[i] != x {
      assert s[i] == b[i - |a| - 1];
    }
    assert k == |a|;
    assert s[..k] == a && s[k + 1..] == b;
  }

  // In its context the topmost match goes, in the others nothing.
  lemma {:induction false} EndedSubs(g: seq<Grant>, c: int, x: Sub, d: int)
    ensures InCtx(Ended(g, c, x), d) == if d == c then RemoveTop(InCtx(g, c), x) else InCtx(g, d)
  {
    hide RemoveTop, InCtx;
    var k := LastOf(g, c, x);
    if k < 0 {
      InCtxAre(g, c);
      NotOnStack(InCtx(g, c), x);
    } else {
      SplitAt(g, k, x.lock, d);
      InCtxAre(g[k + 1..], c);
      RemoveTopAt(InCtx(g[..k], c), x, InCtx(g[k + 1..], c));
      assert InCtx(g[..k], d) + [] == InCtx(g[..k], d);
    }
  }

  // The P that ends is the last on its lock, in any context, or there is none.
  predicate EndsLast(g: seq<Grant>, c: int, x: Sub) {
    var k := LastOf(g, c, x);
    k < 0 || forall i :: k < i < |g| ==> g[i].sub.lock != x.lock
  }

  lemma {:induction false} EndedStamps(g: seq<Grant>, c: int, x: Sub, l: nat)
    ensures l != x.lock || LastOf(g, c, x) < 0 ==> OnLock(Ended(g, c, x), l) == OnLock(g, l)
    ensures l == x.lock && LastOf(g, c, x) >= 0 && EndsLast(g, c, x) ==>
      OnLock(g, l) != [] && OnLock(Ended(g, c, x), l) == Pop(OnLock(g, l))
  {
    hide OnLock;
    var k := LastOf(g, c, x);
    if k >= 0 {
      SplitAt(g, k, l, c);
      assert OnLock(g[..k], l) + [] == OnLock(g[..k], l);
      if l == x.lock && EndsLast(g, c, x) {
        OnLockNone(g[k + 1..], l);
        assert OnLock(g, l) == OnLock(g[..k], l) + [g[k]];
      }
    }
  }

  predicate Increasing(g: seq<Grant>) {
    forall i, j :: 0 <= i < j < |g| ==> g[i].ts < g[j].ts
  }

  lemma {:induction false} OnLockIncreasing(g: seq<Grant>, l: nat)
    requires Increasing(g)
    ensures Increasing(OnLock(g, l))
  {
    if g != [] {
      var init := g[..|g| - 1];
      OnLockIncreasing(init, l);
      OnLockAre(init, l);
      forall q | q in OnLock(init, l) ensures q.ts < g[|g| - 1].ts {
        assert q in init;
      }
    }
  }

  // Another P on that lock has come since: the positions part ways with the Ps.
  lemma {:induction false} EndedElsewhere(g: seq<Grant>, c: int, x: Sub)
    requires Increasing(g) && !EndsLast(g, c, x)
    ensures var s := OnLock(g, x.lock); s != [] && Stamps(OnLock(Ended(g, c, x), x.lock)) != Pop(Stamps(s))
  {
    hide OnLock;
    var k, l := LastOf(g, c, x), x.lock;
    SplitAt(g, k, l, c);
    var a, b := OnLock(g[..k], l), OnLock(g[k + 1..], l);
    OnLockIncreasing(g, l);
    OnLockAre(g[k + 1..], l);
    var i :| k < i < |g| && g[i].sub.lock == l;
    assert g[k + 1..][i - k - 1] == g[i];
    assert b != [];
    var s := OnLock(g, l);
    assert s == a + [g[k]] + b;
    assert s[|a|] == g[k] && s[|a| + 1] == b[0];
    assert Stamps(a + b)[|a|] == b[0].ts && Pop(Stamps(s))[|a|] == g[k].ts;
  }

  // ----- forgetting -------------------------------------------------------------------------------------

  lemma {:induction false} ForgottenSubs(g: seq<Grant>, c: int, x: Sub, d: int)
    ensures InCtx(Forgotten(g, c, x), d) == if d == c then Without(InCtx(g, c), x) else InCtx(g, d)
  {
    if g == [] {
    } else {
      var init, last := g[..|g| - 1], g[|g| - 1];
      var kept := if last.ctx == c && last.sub == x then [] else [last];
      ForgottenSubs(init, c, x, d);
      InCtxConcat(Forgotten(init, c, x), kept, d);
      OneGrant(last, x.lock, d);
      WithoutConcat(InCtx(init, c), if last.ctx == c then [last.sub] else [], x);
      WithoutOne(last.sub, x);
    }
  }

  lemma {:induction false} WithoutOne(y: Sub, x: Sub)
    ensures Without([y], x) == if y == x then [] else [y]
  {
    assert [y][1..] == [];
  }

  lemma {:induction false} ForgottenStamps(g: seq<Grant>, c: int, x: Sub, l: nat)
    ensures l != x.lock ==> OnLock(Forgotten(g, c, x), l) == OnLock(g, l)
    ensures l == x.lock && (forall q :: q in g && q.sub.lock == l ==> q.ctx == c && q.sub == x) ==>
      OnLock(Forgotten(g, c, x), l) == []
    ensures (forall q :: q in g ==> q.ctx != c || q.sub != x) ==> Forgotten(g, c, x) == g
  {
    if g == [] {
    } else {
      var init, last := g[..|g| - 1], g[|g| - 1];
      assert g == init + [last];
      ForgottenStamps(init, c, x, l);
      var kept := if last.ctx == c && last.sub == x then [] else [last];
      OnLockConcat(Forgotten(init, c, x), kept, l);
      OneGrant(last, l, c);
    }
  }

  lemma {:induction false} ForgottenAre(g: seq<Grant>, c: int, x: Sub)
    ensures forall q :: q in Forgotten(g, c, x) ==> q in g
  {
    if g != [] {
      ForgottenAre(g[..|g| - 1], c, x);
    }
  }

  lemma {:induction false} UniformEndsLast(g: seq<Grant>, c: int, x: Sub)
    requires forall q, r :: q in g && r in g && q.sub.lock == r.sub.lock == x.lock ==> q.ctx == r.ctx && q.sub == r.sub
    ensures EndsLast(g, c, x)
  {
    var k := LastOf(g, c, x);
    if k >= 0 {
      forall i | k < i < |g| ensures g[i].sub.lock != x.lock {
        assert g[i] in g && g[k] in g;
      }
    }
  }

  // ----- timestamps -----------------------------------------------------------------------------------

  lemma {:induction false} EndedIncreasing(g: seq<Grant>, c: int, x: Sub)
    requires Increasing(g)
    ensures Increasing(Ended(g, c, x)) && forall q :: q in Ended(g, c, x) ==> q in g
  {
  }

  lemma {:induction false} ForgottenIncreasing(g: seq<Grant>, c: int, x: Sub)
    requires Increasing(g)
    ensures Increasing(Forgotten(g, c, x))
  {
    if g != [] {
      var init := g[..|g| - 1];
      ForgottenIncreasing(init, c, x);
      ForgottenAre(init, c, x);
      forall q | q in Forgotten(init, c, x) ensures q.ts < g[|g| - 1].ts {
        assert q in init;
      }
    }
  }

  // ----- the order locks were taken in ----------------------------------------------------------------

  function FirstP(g: seq<Grant>, l: nat): nat
    requires OnLock(g, l) != []
  {
    OnLock(g, l)[0].ts
  }

  function LastP(g: seq<Grant>, l: nat): nat
    requires OnLock(g, l) != []
  {
    OnLock(g, l)[|OnLock(g, l)| - 1].ts
  }

  // Lock a was taken before all Ps on lock b and again after them.
  ghost predicate Encloses(g: seq<Grant>, a: nat, b: nat) {
    exists i, k :: 0 <= i < k < |g| && g[i].sub.lock == g[k].sub.lock == a
                   && forall j :: 0 <= j < |g| && g[j].sub.lock == b ==> i < j < k
  }

  // The first P on a lock and the last one.
  lemma {:induction false} Outermost(g: seq<Grant>, l: nat) returns (i: nat, k: nat)
    requires OnLock(g, l) != []
    ensures i <= k < |g| && g[i].sub.lock == g[k].sub.lock == l
    ensures forall j :: 0 <= j < |g| && g[j].sub.lock == l ==> i <= j <= k
    ensures OnLock(g, l)[0] == g[i] && OnLock(g, l)[|OnLock(g, l)| - 1] == g[k]
  {
    var n, init := |g| - 1, g[..|g| - 1];
    if OnLock(init, l) != [] {
      i, k := Outermost(init, l);
      k := if g[n].sub.lock == l then n else k;
    } else {
      i, k := n, n;
      OnLockAre(init, l);
      forall j | 0 <= j < n ensures g[j].sub.lock != l {
        assert init[j] in init;
      }
    }
  }

  // Last Ps come in the order of first Ps exactly if neither lock encloses the other.
  lemma {:induction false} FirstOrderIsLastOrder(g: seq<Grant>, a: nat, b: nat)
    requires Increasing(g) && a != b && OnLock(g, a) != [] && OnLock(g, b) != []
    ensures (LastP(g, a) < LastP(g, b) <==> FirstP(g, a) < FirstP(g, b)) <==> !Encloses(g, a, b) && !Encloses(g, b, a)
    ensures FirstP(g, a) != FirstP(g, b) && LastP(g, a) != LastP(g, b)
  {
    hide OnLock, Encloses, Increasing;
    var ia, ka := Outermost(g, a);
    var ib, kb := Outermost(g, b);
    EnclosesIff(g, a, b, ia, ka, ib, kb);
    EnclosesIff(g, b, a, ib, kb, ia, ka);
    TimesAreOrder(g, ia, ib);
    TimesAreOrder(g, ka, kb);
  }

  lemma {:induction false} TimesAreOrder(g: seq<Grant>, i: nat, j: nat)
    requires Increasing(g) && i < |g| && j < |g|
    ensures (g[i].ts < g[j].ts <==> i < j) && (g[i].ts == g[j].ts <==> i == j)
  {
  }

  lemma {:induction false} EnclosesIff(g: seq<Grant>, a: nat, b: nat, ia: nat, ka: nat, ib: nat, kb: nat)
    requires ia <= ka < |g| && g[ia].sub.lock == g[ka].sub.lock == a
    requires ib <= kb < |g| && g[ib].sub.lock == g[kb].sub.lock == b
    requires forall j :: 0 <= j < |g| && g[j].sub.lock == a ==> ia <= j <= ka
    requires forall j :: 0 <= j < |g| && g[j].sub.lock == b ==> ib <= j <= kb
    ensures Encloses(g, a, b) <==> ia < ib && kb < ka
  {
  }
}
