// What is true of the hypotheses mined from the lock combinations of a member
// (hypothesizer/hypothesizer.cc).

module Mining {
  import opened LockLists
  import opened Support
  import opened Selection
  import Lex

  // struct LockingHypothesisMatches
  datatype Matches = Matches(occurrences: nat, sorted: Hyp, orders: map<Hyp, nat>)

  ghost function Total(m: map<Hyp, nat>): nat {
    if m == map[] then 0
    else
      var k :| k in m;
      m[k] + Total(m - {k})
  }

  lemma {:induction false} TotalWithout(m: map<Hyp, nat>, k: Hyp)
    requires k in m
    ensures Total(m) == m[k] + Total(m - {k})
    decreases |m|
  {
    var j :| j in m && Total(m) == m[j] + Total(m - {j});
    if j != k {
      TotalWithout(m - {j}, k);
      TotalWithout(m - {k}, j);
      assert m - {j} - {k} == m - {k} - {j};
    }
  }

  // matches[o] += n
  function Raised(m: map<Hyp, nat>, o: Hyp, n: nat): map<Hyp, nat> {
    m[o := n + if o in m then m[o] else 0]
  }

  lemma {:induction false} TotalRaised(m: map<Hyp, nat>, o: Hyp, n: nat)
    ensures Total(Raised(m, o, n)) == Total(m) + n
  {
    var r := Raised(m, o, n);
    TotalWithout(r, o);
    if o in m {
      TotalWithout(m, o);
    } else {
      assert m - {o} == m;
    }
    assert r - {o} == m - {o};
  }

  // The tally of h over some combinations: each order with its count, and nothing else.
  ghost predicate Tallied(m: Matches, combos: seq<Combination>, h: Hyp) {
    && m.occurrences == Occurrences(combos, h) == Total(m.orders) && (m.occurrences > 0 ==> m.sorted == h)
    && forall o :: if o in m.orders then m.orders[o] == Count(combos, h, o) > 0 else Count(combos, h, o) == 0
  }

  // An entry of the table of hypotheses.
  ghost predicate Known(m: Matches, combos: seq<Combination>, h: Hyp) {
    Strict(h) && Seen(combos, h) && Tallied(m, combos, h)
  }

  lemma {:induction false} TallyOn(m: Matches, combos: seq<Combination>, h: Hyp, i: nat)
    requires Observed(combos) && i < |combos| && Tallied(m, combos[..i], h)
    ensures var c := combos[i];
      Tallied(if Holds(c, h) then Matches(m.occurrences + c.occurrences, h, Raised(m.orders, OrderIn(c, h), c.occurrences)) else m,
              combos[..i + 1], h)
  {
    var c, part := combos[i], combos[..i + 1];
    assert part[..i] == combos[..i] && part[i] == c;
    if Holds(c, h) {
      TotalRaised(m.orders, OrderIn(c, h), c.occurrences);
    }
    hide Total;
  }

  // What the recursive enumeration adds: the completions of cur by depth locks from next on.
  ghost predicate Completes(h: Hyp, cur: Hyp, depth: nat, sorted: seq<Lock>, next: nat)
    requires next <= |sorted|
  {
    Strict(h) && |h| == |cur| + depth && cur <= h && Within(h[|cur|..], sorted[next..])
  }

  lemma {:induction false} CompletesAt(h: Hyp, cur: Hyp, depth: nat, sorted: seq<Lock>, next: nat, p: nat)
    requires Ascending(sorted) && next <= p < |sorted| && depth > 0
    requires Completes(h, cur, depth, sorted, next) && h[|cur|] == sorted[p]
    ensures Completes(h, cur + [sorted[p]], depth - 1, sorted, p + 1)
  {
    var n := |cur|;
    assert h[..n + 1] == cur + [sorted[p]];
    var rest := h[n + 1..];
    forall x | x in rest
      ensures x in sorted[p + 1..]
    {
      var k :| n + 1 <= k < |h| && h[k] == x;
      assert h[n..][k - n] == x;
      assert x in sorted[next..];
      var q :| next <= q < |sorted| && sorted[q] == x;
      assert q > p;
      assert sorted[p + 1..][q - (p + 1)] == x;
    }
  }

  lemma {:induction false} CompletesBack(h: Hyp, cur: Hyp, depth: nat, sorted: seq<Lock>, next: nat, p: nat)
    requires Ascending(sorted) && next <= p < |sorted| && depth > 0
    requires Completes(h, cur + [sorted[p]], depth - 1, sorted, p + 1)
    ensures Completes(h, cur, depth, sorted, next) && h[|cur|] == sorted[p]
  {
    var n := |cur|;
    var rest := h[n..];
    forall x | x in rest
      ensures x in sorted[next..]
    {
      var k :| n <= k < |h| && h[k] == x;
      if k == n {
        assert sorted[next..][p - next] == x;
      } else {
        assert h[n + 1..][k - (n + 1)] == x;
        assert x in sorted[p + 1..];
        var q :| p + 1 <= q < |sorted| && sorted[q] == x;
        assert sorted[next..][q - next] == x;
      }
    }
  }

  lemma {:induction false} CompletesWanted(h: Hyp, combos: seq<Combination>, i: nat, depth: nat)
    requires Observed(combos) && i < |combos|
    ensures Completes(h, [], depth, combos[i].sorted, 0) <==> Strict(h) && |h| == depth && Holds(combos[i], h)
  {
    var c := combos[i];
    assert h[0..] == h && c.sorted[0..] == c.sorted;
    assert forall x :: x in c.sorted <==> x in multiset(c.sorted);
    assert forall x :: x in c.held <==> x in multiset(c.held);
  }

  lemma {:induction false} CompletesWhole(cur: Hyp, sorted: seq<Lock>, next: nat)
    requires next <= |sorted| && Strict(cur)
    ensures forall h :: Completes(h, cur, 0, sorted, next) <==> h == cur
  {
    forall h
      ensures Completes(h, cur, 0, sorted, next) <==> h == cur
    {
      if |h| == |cur| {
        assert h[|cur|..] == [];
      }
    }
  }

  // Those completions whose next lock is one of sorted[next..p].
  ghost predicate Begun(h: Hyp, cur: Hyp, depth: nat, sorted: seq<Lock>, next: nat, p: nat)
    requires next <= p <= |sorted| && depth > 0
  {
    Completes(h, cur, depth, sorted, next) && h[|cur|] in sorted[next..p]
  }

  lemma {:induction false} BegunEnds(cur: Hyp, depth: nat, sorted: seq<Lock>, next: nat)
    requires next <= |sorted| && depth > 0
    ensures forall h :: !Begun(h, cur, depth, sorted, next, next)
    ensures forall h :: Begun(h, cur, depth, sorted, next, |sorted|) <==> Completes(h, cur, depth, sorted, next)
  {
    assert sorted[next..|sorted|] == sorted[next..];
    forall h | Completes(h, cur, depth, sorted, next)
      ensures h[|cur|] in sorted[next..]
    {
      assert h[|cur|..][0] == h[|cur|];
    }
  }

  // Locks come in ascending order, so a lock of cur cannot come again.
  lemma {:induction false} BegunOnce(h: Hyp, cur: Hyp, depth: nat, sorted: seq<Lock>, next: nat, p: nat)
    requires Ascending(sorted) && next <= p < |sorted| && depth > 0
    ensures Begun(h, cur, depth, sorted, next, p + 1) <==>
      Begun(h, cur, depth, sorted, next, p) || (sorted[p] !in cur && Completes(h, cur + [sorted[p]], depth - 1, sorted, p + 1))
  {
    assert sorted[next..p + 1] == sorted[next..p] + [sorted[p]];
    if Completes(h, cur, depth, sorted, next) && h[|cur|] == sorted[p] {
      CompletesAt(h, cur, depth, sorted, next, p);
      assert forall k :: 0 <= k < |cur| ==> cur[k] == h[k] < h[|cur|];
    }
    if Completes(h, cur + [sorted[p]], depth - 1, sorted, p + 1) {
      CompletesBack(h, cur, depth, sorted, next, p);
    }
    hide Completes;
  }

  lemma {:induction false} BegunNext(cur: Hyp, depth: nat, sorted: seq<Lock>, next: nat, p: nat)
    requires Ascending(sorted) && next <= p < |sorted| && depth > 0
    ensures forall h :: Begun(h, cur, depth, sorted, next, p + 1) <==>
      Begun(h, cur, depth, sorted, next, p) || (sorted[p] !in cur && Completes(h, cur + [sorted[p]], depth - 1, sorted, p + 1))
  {
    hide Begun, Completes;
    forall h
      ensures Begun(h, cur, depth, sorted, next, p + 1) <==>
        Begun(h, cur, depth, sorted, next, p) || (sorted[p] !in cur && Completes(h, cur + [sorted[p]], depth - 1, sorted, p + 1))
    {
      BegunOnce(h, cur, depth, sorted, next, p);
    }
  }

  // cur was taken from the locks before next.
  ghost predicate Chosen(c: Combination, cur: Hyp, next: nat) {
    Strict(cur) && Holds(c, cur) && forall x, q :: x in cur && next <= q < |c.sorted| ==> x <= c.sorted[q]
  }

  lemma {:induction false} ChosenIs(combos: seq<Combination>, i: nat, cur: Hyp, next: nat)
    requires Observed(combos) && i < |combos| && Chosen(combos[i], cur, next)
    ensures combos[i].Valid() && Ascending(combos[i].sorted) && Strict(cur) && Seen(combos, cur) && Wanted(combos, 0, cur)
  {
  }

  lemma {:induction false} ChosenNext(c: Combination, cur: Hyp, next: nat, p: nat)
    requires c.Valid() && Chosen(c, cur, next) && next <= p < |c.sorted| && c.sorted[p] !in cur
    ensures Chosen(c, cur + [c.sorted[p]], p + 1)
  {
    var x := c.sorted[p];
    assert x in multiset(c.sorted);
    assert x in multiset(c.held);
    assert forall i :: 0 <= i < |cur| ==> cur[i] in cur;
  }

  // Depth limits ---------------------------------------------------------------------------------------

  ghost function Longest(combos: seq<Combination>): nat {
    if combos == [] then 0
    else
      var n := Longest(combos[1..]);
      if |combos[0].held| > n then |combos[0].held| else n
  }

  lemma {:induction false} LongestBounds(combos: seq<Combination>, i: nat)
    requires i < |combos|
    ensures |combos[i].held| <= Longest(combos)
  {
    if i > 0 {
      LongestBounds(combos[1..], i - 1);
    }
  }

  lemma {:induction false} WantedSize(combos: seq<Combination>, limit: nat, h: Hyp)
    requires Wanted(combos, limit, h)
    ensures |h| <= Longest(combos)
  {
    var i :| 0 <= i < |combos| && Holds(combos[i], h);
    LongestBounds(combos, i);
    StrictWithin(h, combos[i].held);
    var m, n := multiset(h), multiset(combos[i].held);
    assert n == m + (n - m);
    assert |m| <= |n|;
  }

  lemma {:induction false} PrefixWanted(combos: seq<Combination>, h: Hyp, d: nat)
    requires Wanted(combos, 0, h) && d <= |h|
    ensures Wanted(combos, 0, h[..d])
  {
    assert PartAt(h[..d], h, 0);
    PartWanted(combos, 0, h[..d], h);
  }

  lemma {:induction false} SameSize<T>(a: set<T>, b: set<T>)
    requires a <= b && |a| == |b|
    ensures a == b
  {
    assert |b - a| == |b| - |a|;
    assert b == a + (b - a);
  }

  // Everything wanted that is shorter than size is there; nothing else is.
  ghost predicate Filled(combos: seq<Combination>, keys: set<Hyp>, size: nat) {
    forall h {:trigger Wanted(combos, 0, h)} {:trigger h in keys} :: Wanted(combos, 0, h) && |h| < size ==> h in keys
  }

  ghost predicate Exactly(combos: seq<Combination>, keys: set<Hyp>, size: nat) {
    forall h {:trigger Wanted(combos, 0, h)} {:trigger h in keys} :: h in keys <==> Wanted(combos, 0, h) && |h| < size
  }

  lemma {:induction false} FilledStays(combos: seq<Combination>, keys: set<Hyp>, more: set<Hyp>, size: nat)
    requires Filled(combos, keys, size) && forall h :: h in keys ==> h in more
    ensures Filled(combos, more, size)
  {
    hide Wanted;
  }

  // On the way from one size to the next: the first i combinations are done.
  ghost predicate Partly(combos: seq<Combination>, before: set<Hyp>, keys: set<Hyp>, size: nat, i: nat)
    requires i <= |combos|
  {
    forall h {:trigger h in keys} :: h in keys <==> h in before || (Strict(h) && |h| == size && SeenIn(combos, i, h))
  }

  ghost predicate SeenIn(combos: seq<Combination>, i: nat, h: Hyp)
    requires i <= |combos|
  {
    exists j :: 0 <= j < i && Holds(combos[j], h)
  }

  lemma {:induction false} PartlyNext(combos: seq<Combination>, before: set<Hyp>, keys: set<Hyp>, after: set<Hyp>,
      size: nat, i: nat)
    requires Observed(combos) && i < |combos| && Partly(combos, before, keys, size, i)
    requires forall h :: h in after <==> h in keys || Completes(h, [], size, combos[i].sorted, 0)
    ensures Partly(combos, before, after, size, i + 1)
  {
    forall h
      ensures h in after <==> h in before || (Strict(h) && |h| == size && SeenIn(combos, i + 1, h))
    {
      CompletesWanted(h, combos, i, size);
      assert SeenIn(combos, i + 1, h) <==> SeenIn(combos, i, h) || Holds(combos[i], h);
      hide Completes, Holds, Strict, SeenIn;
    }
  }

  lemma {:induction false} PartlyDone(combos: seq<Combination>, before: set<Hyp>, keys: set<Hyp>, size: nat)
    requires Exactly(combos, before, size) && Partly(combos, before, keys, size, |combos|)
    ensures Exactly(combos, keys, size + 1)
  {
    forall h
      ensures h in keys <==> Wanted(combos, 0, h) && |h| < size + 1
    {
      assert SeenIn(combos, |combos|, h) <==> Seen(combos, h);
      hide SeenIn, Seen, Strict;
    }
  }

  // A level that brings nothing new is the end: longer hypotheses have parts on that level.
  lemma {:induction false} NoMore(combos: seq<Combination>, keys: set<Hyp>, size: nat, h: Hyp)
    requires Exactly(combos, keys, size) && Exactly(combos, keys, size + 1) && Wanted(combos, 0, h)
    ensures h in keys && |h| < size
  {
    if |h| >= size {
      PrefixWanted(combos, h, size);
    }
  }

  lemma {:induction false} LevelsEnd(combos: seq<Combination>, limit: nat, before: set<Hyp>, after: set<Hyp>, size: nat)
    requires before <= after && Exactly(combos, before, size) && Exactly(combos, after, size + 1)
    requires |before| == |after| || (limit > 0 && size >= limit)
    requires limit > 0 ==> size <= limit
    ensures forall h :: h in after <==> Wanted(combos, limit, h)
  {
    if |before| == |after| {
      SameSize(before, after);
      forall h | Wanted(combos, 0, h)
        ensures h in after && |h| < size
      {
        NoMore(combos, after, size, h);
      }
    }
    forall h
      ensures h in after <==> Wanted(combos, limit, h)
    {
      assert Wanted(combos, limit, h) <==> Wanted(combos, 0, h) && (limit == 0 || |h| <= limit);
      hide Wanted;
    }
  }

  lemma {:induction false} LevelsBound(combos: seq<Combination>, before: set<Hyp>, after: set<Hyp>, size: nat)
    requires before <= after && Exactly(combos, before, size) && Exactly(combos, after, size + 1) && |before| != |after|
    ensures size <= Longest(combos)
  {
    hide Wanted;
    forall h | h in after
      ensures h in before || size <= Longest(combos)
    {
      WantedSize(combos, 0, h);
    }
    assert size > Longest(combos) ==> before == after;
  }

  // From mining to selection ----------------------------------------------------------------------------

  ghost function SpaceOf(combos: seq<Combination>, hyps: set<Hyp>, total: nat): Space
    requires Observed(combos) && forall h :: h in hyps ==> Seen(combos, h)
  {
    Space(map h | h in hyps :: Best(combos, h), map h | h in hyps :: Representative(combos, h), total)
  }

  lemma {:induction false} RootCount(combos: seq<Combination>, o: Hyp)
    ensures Count(combos, [], o) == if o == [] then Occurrences(combos, []) else 0
  {
    if combos != [] {
      var c := combos[|combos| - 1];
      RootCount(combos[..|combos| - 1], o);
      OrderLocks(c.held, multiset{});
      assert multiset(OrderIn(c, [])) == multiset{};
      assert OrderIn(c, []) == [] by {
        assert |OrderIn(c, [])| == |multiset(OrderIn(c, []))|;
      }
    }
  }

  lemma {:induction false} RootSupport(combos: seq<Combination>)
    requires Observed(combos) && combos != []
    ensures Seen(combos, []) && Best(combos, []) == Occurrences(combos, []) > 0 && Representative(combos, []) == []
  {
    assert Holds(combos[0], []);
    var k := BestMet(combos, [], 0);
    RootCount(combos, OrderIn(combos[k], []));
    RootCount(combos, Representative(combos, []));
  }

  lemma {:induction false} MinedParts(combos: seq<Combination>, limit: nat, h: Hyp)
    requires Wanted(combos, limit, h) && h != []
    ensures Wanted(combos, limit, h[..|h| - 1]) && Wanted(combos, limit, h[1..])
  {
    ExtendsIsPart(h[..|h| - 1], h);
    ExtendsIsPart(h[1..], h);
    PartWanted(combos, limit, h[..|h| - 1], h);
    PartWanted(combos, limit, h[1..], h);
  }

  // What was mined meets all that selection relies on.
  lemma {:induction false} MinedIsSound(combos: seq<Combination>, limit: nat, hyps: set<Hyp>)
    requires Observed(combos) && combos != [] && forall h :: h in hyps <==> Wanted(combos, limit, h)
    ensures forall h :: h in hyps ==> Seen(combos, h)
    ensures Sound(SpaceOf(combos, hyps, Occurrences(combos, [])))
  {
    var s := SpaceOf(combos, hyps, Occurrences(combos, []));
    RootSupport(combos);
    assert Wanted(combos, limit, []);
    forall h | h in hyps
      ensures 0 < s.best[h] && (h != [] ==> PartsIn(s, h))
    {
      var i :| 0 <= i < |combos| && Holds(combos[i], h);
      var k := BestMet(combos, h, i);
      if h != [] {
        MinedParts(combos, limit, h);
      }
    }
    forall h, k | h in hyps && k in hyps && Extends(h, k)
      ensures s.best[k] <= s.best[h]
    {
      ExtendsIsPart(h, k);
      PartWanted(combos, limit, h, k);
      SupportShrinks(combos, k, h);
    }
    forall h, k | h in hyps && k in hyps && s.rep[h] == s.rep[k]
      ensures h == k
    {
      RepresentativeTells(combos, h, k);
    }
  }

  // The orders looked at so far, of all orders in the order of the map.
  ghost predicate Picked(keys: seq<Hyp>, orders: map<Hyp, nat>, i: nat, o: Hyp, n: nat)
    requires forall k :: k in keys ==> k in orders
  {
    && i <= |keys|
    && (i == 0 ==> n == 0 && o == [])
    && (i > 0 ==> exists p :: 0 <= p < i && PickedAt(keys, orders, i, o, n, p))
  }

  ghost predicate PickedAt(keys: seq<Hyp>, orders: map<Hyp, nat>, i: nat, o: Hyp, n: nat, p: nat)
    requires p < i <= |keys| && forall k :: k in keys ==> k in orders
  {
    && keys[p] == o && orders[o] == n
    && (forall j :: 0 <= j < p ==> orders[keys[j]] < n)
    && (forall j :: p <= j < i ==> orders[keys[j]] <= n)
  }

  lemma {:induction false} PickedNext(keys: seq<Hyp>, orders: map<Hyp, nat>, i: nat, o: Hyp, n: nat)
    requires forall k :: k in keys ==> k in orders && orders[k] > 0
    requires Picked(keys, orders, i, o, n) && i < |keys|
    ensures var m := orders[keys[i]]; if m > n then Picked(keys, orders, i + 1, keys[i], m) else Picked(keys, orders, i + 1, o, n)
  {
    var m := orders[keys[i]];
    if i > 0 {
      var p :| 0 <= p < i && PickedAt(keys, orders, i, o, n, p);
      if m > n {
        assert forall j :: 0 <= j < i ==> orders[keys[j]] <= n;
        assert PickedAt(keys, orders, i + 1, keys[i], m, i);
      } else {
        assert PickedAt(keys, orders, i + 1, o, n, p);
      }
    } else {
      assert PickedAt(keys, orders, i + 1, keys[i], m, i);
    }
  }

  // The first of the most frequent orders is the representative.
  lemma {:induction false} PickedIsRepresentative(m: Matches, combos: seq<Combination>, h: Hyp, keys: seq<Hyp>,
      o: Hyp, n: nat)
    requires Observed(combos) && Known(m, combos, h) && Lex.Rising(keys) && forall k :: k in keys <==> k in m.orders
    requires Picked(keys, m.orders, |keys|, o, n)
    ensures o == Representative(combos, h) && n == Best(combos, h) && o in m.orders && m.orders[o] == n
  {
    var i :| 0 <= i < |combos| && Holds(combos[i], h);
    var k := BestMet(combos, h, i);
    var b := OrderIn(combos[k], h);
    assert b in keys;
    var q :| 0 <= q < |keys| && keys[q] == b;
    var p :| 0 <= p < |keys| && PickedAt(keys, m.orders, |keys|, o, n, p);
    BestBounds(combos, h, o);
    assert m.orders[keys[q]] <= n;
    assert n == Best(combos, h);
    forall x | Count(combos, h, x) == Best(combos, h) && x != o
      ensures Lex.Below(o, x)
    {
      assert x in keys;
      var j :| 0 <= j < |keys| && keys[j] == x;
      assert j > p;
    }
    RepresentsOnce(combos, h, o, Representative(combos, h));
  }

  // Accesses with at least one lock held.
  ghost function WithLocks(combos: seq<Combination>): nat {
    if combos == [] then 0
    else
      var n := |combos| - 1;
      WithLocks(combos[..n]) + if combos[n].held != [] then combos[n].occurrences else 0
  }

  // Accesses without any.
  ghost function Unlocked(combos: seq<Combination>): nat {
    if combos == [] then 0
    else
      var n := |combos| - 1;
      Unlocked(combos[..n]) + if combos[n].held == [] then combos[n].occurrences else 0
  }

  lemma {:induction false} LockedOrNot(combos: seq<Combination>)
    ensures WithLocks(combos) == Occurrences(combos, []) - Unlocked(combos)
  {
    if combos != [] {
      LockedOrNot(combos[..|combos| - 1]);
    }
  }

  // The results of the two globally optimal strategies, in terms of what was observed -----------------

  // One lock alone was held often enough.
  ghost predicate SomeAccepted(combos: seq<Combination>, limit: nat, accept: real) {
    exists h {:trigger Wanted(combos, limit, h)} ::
      Wanted(combos, limit, h) && |h| == 1 && AtLeast(Best(combos, h), accept, Occurrences(combos, []))
  }

  // The best supported of all non-empty hypotheses, with the most locks among those, in its order.
  ghost predicate BestSupported(combos: seq<Combination>, limit: nat, e: (Hyp, Hyp)) {
    && Observed(combos) && Wanted(combos, limit, e.0) && e.0 != [] && e.1 == Representative(combos, e.0)
    && forall h {:trigger Wanted(combos, limit, h)} :: Wanted(combos, limit, h) && h != [] ==>
      Best(combos, h) < Best(combos, e.0) || (Best(combos, h) == Best(combos, e.0) && |h| <= |e.0|)
  }

  // The largest of the hypotheses held in one order at every access.
  ghost predicate LargestFull(combos: seq<Combination>, limit: nat, e: (Hyp, Hyp)) {
    && Observed(combos) && Wanted(combos, limit, e.0) && e.1 == Representative(combos, e.0)
    && Best(combos, e.0) == Occurrences(combos, [])
    && forall h {:trigger Wanted(combos, limit, h)} ::
      Wanted(combos, limit, h) && Best(combos, h) == Occurrences(combos, []) ==> |h| <= |e.0|
  }

  lemma {:induction false} TopDownWinners(combos: seq<Combination>, limit: nat, hyps: set<Hyp>, accept: real, t: Standing)
    requires Observed(combos) && combos != [] && forall h :: h in hyps <==> Wanted(combos, limit, h)
    requires forall h :: h in hyps ==> Seen(combos, h)
    requires var s := SpaceOf(combos, hyps, Occurrences(combos, [])); Sound(s) && TopDownResult(s, accept, t) && t.found
    ensures t.conflicts != [] && Distinct(t.conflicts)
    ensures forall e :: e in t.conflicts <==> BestSupported(combos, limit, e)
  {
    hide Sound, Sup, Best, Wanted, Representative, Occurrences, Distinct;
    var s := SpaceOf(combos, hyps, Occurrences(combos, []));
    var c := t.conflicts;
    TopsFront(s, s.best.Keys - {[]}, c, t.rel, []);
    forall e
      ensures e in c <==> BestSupported(combos, limit, e)
    {
      if e in c {
        forall h | Wanted(combos, limit, h) && h != []
          ensures Best(combos, h) < Best(combos, e.0) || (Best(combos, h) == Best(combos, e.0) && |h| <= |e.0|)
        {
          SupFacts(s, h, e.0);
          SupFacts(s, e.0, h);
        }
      }
      if BestSupported(combos, limit, e) {
        SupFacts(s, c[0].0, e.0);
        SupFacts(s, e.0, c[0].0);
        assert c[0] in c && c[0].0 in hyps && c[0].0 != [];
      }
    }
  }

  // One winner of bottom-up selection: accepted or held in one order at every access, and each hypothesis
  // with a lock more is neither accepted nor as frequent.
  ghost predicate BottomUpChoice(combos: seq<Combination>, limit: nat, accept: real, e: (Hyp, Hyp)) {
    && Observed(combos) && Wanted(combos, limit, e.0) && e.1 == Representative(combos, e.0)
    && (AtLeast(Best(combos, e.0), accept, Occurrences(combos, [])) || Best(combos, e.0) == Occurrences(combos, []))
    && forall k {:trigger Wanted(combos, limit, k)} :: Wanted(combos, limit, k) && Extends(e.0, k) ==>
      Best(combos, k) < Best(combos, e.0) && !AtLeast(Best(combos, k), accept, Occurrences(combos, []))
  }

  // One winner of sharpening: at most the factor is lost per lock, and more with any further one.
  ghost predicate SharpenChoice(combos: seq<Combination>, limit: nat, factor: real, e: (Hyp, Hyp)) {
    && Observed(combos) && Wanted(combos, limit, e.0) && e.1 == Representative(combos, e.0)
    && AtLeast(Best(combos, e.0), RealPower(1.0 - factor, |e.0|), Occurrences(combos, []))
    && forall k {:trigger Wanted(combos, limit, k)} :: Wanted(combos, limit, k) && Extends(e.0, k) ==>
      !AtLeast(Best(combos, k), 1.0 - factor, Best(combos, e.0))
  }

  // The winners are equally frequent and of one size.
  ghost predicate OneRank(combos: seq<Combination>, c: seq<(Hyp, Hyp)>) {
    forall i, j :: 0 <= i < |c| && 0 <= j < |c| ==>
      |c[i].0| == |c[j].0| && Best(combos, c[i].0) == Best(combos, c[j].0)
  }

  lemma {:induction false} EqualsRank(combos: seq<Combination>, limit: nat, hyps: set<Hyp>, t: Standing)
    requires Observed(combos) && combos != [] && forall h :: h in hyps <==> Wanted(combos, limit, h)
    requires forall h :: h in hyps ==> Seen(combos, h)
    requires var s := SpaceOf(combos, hyps, Occurrences(combos, [])); Sound(s) && Equals(s, t.conflicts, t.rel)
    ensures t.conflicts != [] && Distinct(t.conflicts) && OneRank(combos, t.conflicts)
    ensures forall e :: e in t.conflicts ==>
      e.0 in hyps && e.1 == Representative(combos, e.0) && Sup(SpaceOf(combos, hyps, Occurrences(combos, [])), e.0) == t.rel
  {
    hide Sound, Sup, Best, Wanted, Representative, Occurrences, Distinct;
    var s := SpaceOf(combos, hyps, Occurrences(combos, []));
    var c := t.conflicts;
    forall i, j | 0 <= i < |c| && 0 <= j < |c|
      ensures |c[i].0| == |c[j].0| && Best(combos, c[i].0) == Best(combos, c[j].0)
    {
      assert c[i] in c && c[j] in c;
      SupFacts(s, c[i].0, c[j].0);
      SupFacts(s, c[j].0, c[i].0);
    }
  }

  lemma {:induction false} BottomUpWinners(combos: seq<Combination>, limit: nat, hyps: set<Hyp>, accept: real, t: Standing)
    requires Observed(combos) && combos != [] && forall h :: h in hyps <==> Wanted(combos, limit, h)
    requires forall h :: h in hyps ==> Seen(combos, h)
    requires var s := SpaceOf(combos, hyps, Occurrences(combos, [])); Sound(s) && BottomUpResult(s, accept, t)
    requires Occurrences(combos, []) > 0
    ensures t.conflicts != [] && Distinct(t.conflicts) && OneRank(combos, t.conflicts)
    ensures forall e :: e in t.conflicts ==> BottomUpChoice(combos, limit, accept, e)
  {
    hide Sound, Sup, Best, Wanted, Representative, Occurrences, Distinct, Fraction, AtLeast, Extends, Equals, OneRank;
    var total := Occurrences(combos, []);
    var s := SpaceOf(combos, hyps, total);
    EqualsRank(combos, limit, hyps, t);
    forall e | e in t.conflicts ensures BottomUpChoice(combos, limit, accept, e) {
      var i :| 0 <= i < |t.conflicts| && t.conflicts[i] == e;
      SupIs(s, e.0);
      FractionReaches(Best(combos, e.0), total, accept);
      FullSupport(Best(combos, e.0), total);
      forall k | Wanted(combos, limit, k) && Extends(e.0, k)
        ensures Best(combos, k) < Best(combos, e.0) && !AtLeast(Best(combos, k), accept, total)
      {
        assert k in s.best && Extends(t.conflicts[i].0, k);
        SupIs(s, k);
        FractionReaches(Best(combos, k), total, accept);
        SupFacts(s, e.0, k);
      }
    }
  }

  lemma {:induction false} SupIs(s: Space, h: Hyp)
    requires Sound(s) && h in s.best
    ensures s.total > 0 && Sup(s, h) == Fraction(s.best[h], s.total)
  {
  }

  lemma {:induction false} FullSupport(n: nat, d: nat)
    requires d > 0
    ensures Fraction(n, d) == 1.0 <==> n == d
  {
    hide Fraction;
    FractionOrder(n, d, d);
    FractionOrder(d, n, d);
  }

  lemma {:induction false} SharpenWinners(combos: seq<Combination>, limit: nat, hyps: set<Hyp>, factor: real, t: Standing)
    requires Observed(combos) && combos != [] && forall h :: h in hyps <==> Wanted(combos, limit, h)
    requires forall h :: h in hyps ==> Seen(combos, h)
    requires var s := SpaceOf(combos, hyps, Occurrences(combos, [])); Sound(s) && SharpenResult(s, factor, t)
    requires Occurrences(combos, []) > 0
    ensures t.conflicts != [] && Distinct(t.conflicts) && OneRank(combos, t.conflicts)
    ensures forall e :: e in t.conflicts ==> SharpenChoice(combos, limit, factor, e)
  {
    hide Sound, Sup, Best, Wanted, Representative, Occurrences, Distinct, Fraction, AtLeast, Extends, Equals, OneRank;
    hide Kept, Power, RealPower;
    var total := Occurrences(combos, []);
    var s := SpaceOf(combos, hyps, total);
    EqualsRank(combos, limit, hyps, t);
    forall e | e in t.conflicts ensures SharpenChoice(combos, limit, factor, e) {
      var i :| 0 <= i < |t.conflicts| && t.conflicts[i] == e;
      SameRank(combos, t.conflicts, i);
      SupIs(s, e.0);
      PowerIs(factor, |e.0|);
      FractionReaches(Best(combos, e.0), total, RealPower(1.0 - factor, |e.0|));
      forall k | Wanted(combos, limit, k) && Extends(e.0, k)
        ensures !AtLeast(Best(combos, k), 1.0 - factor, Best(combos, e.0))
      {
        assert k in s.best && Extends(t.conflicts[i].0, k);
        SupIs(s, k);
        FractionBelow(Best(combos, k), Best(combos, e.0), total, factor);
      }
    }
  }

  lemma {:induction false} SameRank(combos: seq<Combination>, c: seq<(Hyp, Hyp)>, i: nat)
    requires OneRank(combos, c) && i < |c|
    ensures |c[i].0| == |c[0].0|
  {
    hide Best;
  }

  lemma {:induction false} LockSetWinners(combos: seq<Combination>, limit: nat, hyps: set<Hyp>, t: Standing)
    requires Observed(combos) && combos != [] && forall h :: h in hyps <==> Wanted(combos, limit, h)
    requires forall h :: h in hyps ==> Seen(combos, h)
    requires var s := SpaceOf(combos, hyps, Occurrences(combos, [])); Sound(s) && Tops(s, s.best.Keys, t.conflicts, 1.0)
    ensures t.conflicts != [] && Distinct(t.conflicts)
    ensures forall e :: e in t.conflicts <==> LargestFull(combos, limit, e)
  {
    hide Sound, Sup, Best, Wanted, Representative, Occurrences, Distinct;
    var s := SpaceOf(combos, hyps, Occurrences(combos, []));
    var c := t.conflicts;
    TopsFront(s, s.best.Keys, c, 1.0, []);
    forall e
      ensures e in c <==> LargestFull(combos, limit, e)
    {
      if e in c {
        SupFacts(s, e.0, e.0);
        forall h | Wanted(combos, limit, h) && Best(combos, h) == Occurrences(combos, [])
          ensures |h| <= |e.0|
        {
          SupFacts(s, h, h);
        }
      }
      if LargestFull(combos, limit, e) {
        SupFacts(s, e.0, e.0);
        SupFacts(s, c[0].0, c[0].0);
        assert c[0] in c && c[0].0 in hyps;
      }
    }
  }
}
