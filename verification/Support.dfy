// How often each order of each set of locks was observed (hypothesizer/hypothesizer.cc, struct
// LockingHypothesisMatches), and which sets of locks there are to ask about.

module Support {
  import opened LockLists
  import Lex

  // A hypothesis names its locks in ascending order.
  type Hyp = seq<Lock>

  ghost predicate Observed(combos: seq<Combination>) {
    forall i :: 0 <= i < |combos| ==> combos[i].Valid()
  }

  ghost predicate Holds(c: Combination, h: Hyp) {
    Within(h, c.held)
  }

  ghost function OrderIn(c: Combination, h: Hyp): Hyp {
    Order(c.held, multiset(h))
  }

  // How often the locks of h were held, in any order, and in the order o.
  ghost function Occurrences(combos: seq<Combination>, h: Hyp): nat {
    if combos == [] then 0
    else
      var n := |combos| - 1;
      Occurrences(combos[..n], h) + if Holds(combos[n], h) then combos[n].occurrences else 0
  }

  ghost function Count(combos: seq<Combination>, h: Hyp, o: Hyp): nat {
    if combos == [] then 0
    else
      var n := |combos| - 1;
      Count(combos[..n], h, o) +
      if Holds(combos[n], h) && OrderIn(combos[n], h) == o then combos[n].occurrences else 0
  }

  // The count of the most frequent order: what the source calls the support, before division.
  ghost function Best(combos: seq<Combination>, h: Hyp): nat {
    BestAmong(combos, combos, h)
  }

  ghost function BestAmong(combos: seq<Combination>, part: seq<Combination>, h: Hyp): nat {
    if part == [] then 0
    else
      var n := |part| - 1;
      var before := BestAmong(combos, part[..n], h);
      var here := if Holds(part[n], h) then Count(combos, h, OrderIn(part[n], h)) else 0;
      if here > before then here else before
  }

  lemma {:induction false} CountWitness(combos: seq<Combination>, h: Hyp, o: Hyp) returns (i: nat)
    requires Count(combos, h, o) > 0
    ensures i < |combos| && Holds(combos[i], h) && OrderIn(combos[i], h) == o
  {
    var n := |combos| - 1;
    if Holds(combos[n], h) && OrderIn(combos[n], h) == o {
      i := n;
    } else {
      i := CountWitness(combos[..n], h, o);
    }
  }

  lemma {:induction false} CountPositive(combos: seq<Combination>, h: Hyp, i: nat)
    requires Observed(combos) && i < |combos| && Holds(combos[i], h)
    ensures Count(combos, h, OrderIn(combos[i], h)) > 0
  {
    var n := |combos| - 1;
    if i < n {
      CountPositive(combos[..n], h, i);
    }
  }

  lemma {:induction false} BestAmongBounds(combos: seq<Combination>, part: seq<Combination>, h: Hyp, i: nat)
    requires i < |part| && Holds(part[i], h)
    ensures Count(combos, h, OrderIn(part[i], h)) <= BestAmong(combos, part, h)
  {
    var n := |part| - 1;
    if i < n {
      BestAmongBounds(combos, part[..n], h, i);
    }
  }

  lemma {:induction false} BestAmongMet(combos: seq<Combination>, part: seq<Combination>, h: Hyp) returns (i: nat)
    requires BestAmong(combos, part, h) > 0
    ensures i < |part| && Holds(part[i], h) && Count(combos, h, OrderIn(part[i], h)) == BestAmong(combos, part, h)
  {
    var n := |part| - 1;
    if Holds(part[n], h) && Count(combos, h, OrderIn(part[n], h)) == BestAmong(combos, part, h) {
      i := n;
    } else {
      i := BestAmongMet(combos, part[..n], h);
    }
  }

  // Best is the maximum over all orders.
  lemma {:induction false} BestBounds(combos: seq<Combination>, h: Hyp, o: Hyp)
    ensures Count(combos, h, o) <= Best(combos, h)
  {
    if Count(combos, h, o) > 0 {
      var i := CountWitness(combos, h, o);
      BestAmongBounds(combos, combos, h, i);
    }
  }

  lemma {:induction false} BestMet(combos: seq<Combination>, h: Hyp, i: nat) returns (k: nat)
    requires Observed(combos) && i < |combos| && Holds(combos[i], h)
    ensures k < |combos| && Holds(combos[k], h) && Count(combos, h, OrderIn(combos[k], h)) == Best(combos, h) > 0
  {
    CountPositive(combos, h, i);
    BestBounds(combos, h, OrderIn(combos[i], h));
    k := BestAmongMet(combos, combos, h);
  }

  // Every observation of h in order o is one of each sub-hypothesis, in the order o gives it.
  lemma {:induction false} CountProjects(combos: seq<Combination>, h: Hyp, k: Hyp, o: Hyp)
    requires Strict(h) && Strict(k) && Within(k, h)
    ensures Count(combos, h, o) <= Count(combos, k, Project(o, multiset(k)))
  {
    if combos != [] {
      var c := combos[|combos| - 1];
      CountProjects(combos[..|combos| - 1], h, k, o);
      if Holds(c, h) && OrderIn(c, h) == o {
        StrictOnce(h);
        StrictWithin(k, h);
        OrderProjects(c.held, multiset(h), multiset(k));
      }
    }
  }

  // Adding locks to a hypothesis never raises its support.
  lemma {:induction false} SupportShrinks(combos: seq<Combination>, h: Hyp, k: Hyp)
    requires Strict(h) && Strict(k) && Within(k, h)
    ensures Best(combos, h) <= Best(combos, k) && Occurrences(combos, h) <= Occurrences(combos, k)
  {
    if Best(combos, h) > 0 {
      var i := BestAmongMet(combos, combos, h);
      var o := OrderIn(combos[i], h);
      CountProjects(combos, h, k, o);
      BestBounds(combos, k, Project(o, multiset(k)));
    }
    OccurrencesShrink(combos, h, k);
  }

  lemma {:induction false} OccurrencesShrink(combos: seq<Combination>, h: Hyp, k: Hyp)
    requires Within(k, h)
    ensures Occurrences(combos, h) <= Occurrences(combos, k)
  {
    if combos != [] {
      OccurrencesShrink(combos[..|combos| - 1], h, k);
    }
  }

  // The orders of h are permutations of h.
  lemma {:induction false} OrderPermutes(c: Combination, h: Hyp)
    requires Strict(h) && Holds(c, h)
    ensures multiset(OrderIn(c, h)) == multiset(h)
  {
    StrictWithin(h, c.held);
    OrderLocks(c.held, multiset(h));
  }

  // The order a hypothesis is reported in: the first, as std::map sorts them, of the most frequent ones.
  ghost predicate Represents(combos: seq<Combination>, h: Hyp, o: Hyp) {
    && Count(combos, h, o) == Best(combos, h)
    && forall p :: Count(combos, h, p) == Best(combos, h) && p != o ==> Lex.Below(o, p)
  }

  ghost predicate Seen(combos: seq<Combination>, h: Hyp) {
    exists i :: 0 <= i < |combos| && Holds(combos[i], h)
  }

  ghost function Representative(combos: seq<Combination>, h: Hyp): Hyp
    requires Observed(combos) && Seen(combos, h)
  {
    RepresentativeExists(combos, h);
    var o :| Represents(combos, h, o);
    o
  }

  lemma {:induction false} LeastExists(s: set<Hyp>) returns (m: Hyp)
    requires s != {}
    ensures m in s && forall x :: x in s && x != m ==> Lex.Below(m, x)
    decreases s
  {
    m :| m in s;
    if s != {m} {
      var l := LeastExists(s - {m});
      Lex.Trichotomy(l, m);
      if Lex.Below(l, m) {
        m := l;
      } else {
        forall x | x in s && x != m
          ensures Lex.Below(m, x)
        {
          if x != l {
            Lex.Transitive(m, l, x);
          }
        }
      }
    }
  }

  lemma {:induction false} RepresentativeExists(combos: seq<Combination>, h: Hyp)
    requires Observed(combos) && Seen(combos, h)
    ensures exists o :: Represents(combos, h, o)
  {
    var i :| 0 <= i < |combos| && Holds(combos[i], h);
    var k := BestMet(combos, h, i);
    var s := set j | 0 <= j < |combos| && Count(combos, h, OrderIn(combos[j], h)) == Best(combos, h) :: OrderIn(combos[j], h);
    assert OrderIn(combos[k], h) in s;
    var o := LeastExists(s);
    forall p | Count(combos, h, p) == Best(combos, h) && p != o
      ensures Lex.Below(o, p)
    {
      var j := CountWitness(combos, h, p);
      assert p in s;
    }
    assert Represents(combos, h, o);
  }

  lemma {:induction false} RepresentsOnce(combos: seq<Combination>, h: Hyp, o: Hyp, p: Hyp)
    requires Represents(combos, h, o) && Represents(combos, h, p)
    ensures o == p
  {
    Lex.Trichotomy(o, p);
  }

  lemma {:induction false} RepresentativePermutes(combos: seq<Combination>, h: Hyp)
    requires Observed(combos) && Seen(combos, h) && Strict(h)
    ensures multiset(Representative(combos, h)) == multiset(h)
  {
    var o := Representative(combos, h);
    var i :| 0 <= i < |combos| && Holds(combos[i], h);
    var k := BestMet(combos, h, i);
    var j := CountWitness(combos, h, o);
    OrderPermutes(combos[j], h);
  }

  lemma {:induction false} RepresentativeTells(combos: seq<Combination>, h: Hyp, k: Hyp)
    requires Observed(combos) && Seen(combos, h) && Seen(combos, k) && Strict(h) && Strict(k)
    requires Representative(combos, h) == Representative(combos, k)
    ensures h == k
  {
    RepresentativePermutes(combos, h);
    RepresentativePermutes(combos, k);
    assert forall x :: x in h <==> x in multiset(h);
    assert forall x :: x in k <==> x in multiset(k);
    StrictUnique(h, k);
  }

  // The hypotheses the enumeration is to produce.
  ghost predicate Wanted(combos: seq<Combination>, limit: nat, h: Hyp) {
    Strict(h) && (limit == 0 || |h| <= limit) && Seen(combos, h)
  }

  ghost predicate PartAt(l: Hyp, r: Hyp, i: int) {
    0 <= i <= |r| - |l| && r[i..i + |l|] == l
  }

  // l is a contiguous part of r.
  ghost predicate Part(l: Hyp, r: Hyp) {
    exists i :: PartAt(l, r, i)
  }

  // r has one lock more than l, at its end or at its start.
  ghost predicate Extends(l: Hyp, r: Hyp) {
    r != [] && (l == r[..|r| - 1] || l == r[1..])
  }

  lemma {:induction false} PartWanted(combos: seq<Combination>, limit: nat, l: Hyp, r: Hyp)
    requires Wanted(combos, limit, r) && Part(l, r)
    ensures Wanted(combos, limit, l) && Within(l, r)
  {
    var i :| PartAt(l, r, i);
    forall k | 0 <= k < |l|
      ensures l[k] == r[i + k]
    {
    }
    var c :| 0 <= c < |combos| && Holds(combos[c], r);
    assert Holds(combos[c], l);
  }

  lemma {:induction false} ExtendsIsPart(l: Hyp, r: Hyp)
    ensures Extends(l, r) <==> Part(l, r) && |l| + 1 == |r|
  {
    if r != [] {
      assert r[0..|r| - 1] == r[..|r| - 1] && r[1..1 + (|r| - 1)] == r[1..];
      assert Extends(l, r) ==> PartAt(l, r, 0) || PartAt(l, r, 1);
    }
  }

  lemma {:induction false} PartOfPart(a: Hyp, b: Hyp, c: Hyp)
    requires Part(a, b) && Part(b, c)
    ensures Part(a, c)
  {
    var i :| PartAt(a, b, i);
    var j :| PartAt(b, c, j);
    forall k | 0 <= k < |a|
      ensures c[j + i..j + i + |a|][k] == a[k]
    {
      assert a[k] == b[i + k] == c[j + (i + k)];
    }
    assert PartAt(a, c, j + i);
  }
}
