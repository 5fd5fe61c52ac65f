// Lists of lock ids (hypothesizer/hypothesizer.cc): the order std::set and std::map keep them in, the
// ascending lists hypotheses are, and the order in which an observed combination takes their locks.

module Lex {

  // operator< on std::vector, and strcmp() < 0 on strings.
  predicate Below(a: seq<int>, b: seq<int>) {
    if b == [] then false
    else if a == [] then true
    else a[0] < b[0] || (a[0] == b[0] && Below(a[1..], b[1..]))
  }

  lemma {:induction false} Trichotomy(a: seq<int>, b: seq<int>)
    ensures Below(a, b) || a == b || Below(b, a)
    ensures !(Below(a, b) && Below(b, a))
    ensures a == b ==> !Below(a, b)
  {
    if a != [] && b != [] {
      Trichotomy(a[1..], b[1..]);
      if a[0] == b[0] && a[1..] == b[1..] {
        assert a == [a[0]] + a[1..] && b == [b[0]] + b[1..];
      }
    }
  }

  // Up to place k the lists agree; there the first one ends or has the smaller entry.
  predicate DiffersAt(a: seq<int>, b: seq<int>, k: nat) {
    k <= |a| && k < |b| && a[..k] == b[..k] && (k == |a| || a[k] < b[k])
  }

  lemma {:induction false} DiffersFirst(a: seq<int>, b: seq<int>, k: nat)
    ensures DiffersAt(a, b, k) ==> b != [] && (a == [] || a[0] <= b[0]) && (k == 0 ==> a == [] || a[0] < b[0])
    ensures DiffersAt(a, b, k) && k > 0 ==> a != [] && a[0] == b[0]
  {
    if DiffersAt(a, b, k) && k > 0 {
      assert a[..k][0] == b[..k][0];
    }
  }

  lemma {:induction false} BelowIff(a: seq<int>, b: seq<int>)
    ensures Below(a, b) <==> exists k: nat :: DiffersAt(a, b, k)
  {
    if b != [] && a != [] && a[0] == b[0] {
      BelowIff(a[1..], b[1..]);
      if k: nat :| DiffersAt(a[1..], b[1..], k) {
        assert a[..k + 1] == [a[0]] + a[1..][..k] && b[..k + 1] == [b[0]] + b[1..][..k];
        assert DiffersAt(a, b, k + 1);
      }
      if k: nat :| DiffersAt(a, b, k) {
        assert k > 0;
        assert a[1..][..k - 1] == a[..k][1..] && b[1..][..k - 1] == b[..k][1..];
        assert DiffersAt(a[1..], b[1..], k - 1);
      }
    } else if b != [] && (a == [] || a[0] < b[0]) {
      assert DiffersAt(a, b, 0);
    } else {
      forall k: nat ensures !DiffersAt(a, b, k) { DiffersFirst(a, b, k); }
    }
  }

  lemma {:induction false} Transitive(a: seq<int>, b: seq<int>, c: seq<int>)
    requires Below(a, b) && Below(b, c)
    ensures Below(a, c)
  {
    if a != [] && a[0] == b[0] == c[0] {
      Transitive(a[1..], b[1..], c[1..]);
    }
  }

  ghost predicate Rising(r: seq<seq<int>>) {
    forall i, j :: 0 <= i < j < |r| ==> Below(r[i], r[j])
  }

  method Least(s: set<seq<int>>) returns (m: seq<int>)
    requires s != {}
    ensures m in s && forall x :: x in s && x != m ==> Below(m, x)
  {
    var rest := s;
    m :| m in rest;
    rest := rest - {m};
    while rest != {}
      invariant m in s && rest <= s && m !in rest
      invariant forall x :: x in s && x !in rest && x != m ==> Below(m, x)
      decreases rest
    {
      var x :| x in rest;
      rest := rest - {x};
      Trichotomy(x, m);
      if Below(x, m) {
        forall y | y in s && y !in rest && y != x
          ensures Below(x, y)
        {
          if y != m {
            Transitive(x, m, y);
          }
        }
        m := x;
      }
    }
  }

  // What a range-for over a std::set sees.
  method Sorted(s: set<seq<int>>) returns (r: seq<seq<int>>)
    ensures Rising(r) && forall x :: x in r <==> x in s
  {
    var rest := s;
    r := [];
    while rest != {}
      invariant rest <= s && forall x :: x in s <==> x in rest || x in r
      invariant Rising(r) && forall x, y :: x in r && y in rest ==> Below(x, y)
      decreases rest
    {
      var m := Least(rest);
      r, rest := r + [m], rest - {m};
    }
  }
}

module LockLists {

  type Lock = int

  ghost predicate Ascending(l: seq<Lock>) {
    forall i, j :: 0 <= i < j < |l| ==> l[i] <= l[j]
  }

  ghost predicate Strict(l: seq<Lock>) {
    forall i, j :: 0 <= i < j < |l| ==> l[i] < l[j]
  }

  ghost predicate Within(l: seq<Lock>, held: seq<Lock>) {
    forall x :: x in l ==> x in held
  }

  lemma {:induction false} StrictOnce(l: seq<Lock>)
    requires Strict(l)
    ensures forall x :: multiset(l)[x] <= 1
  {
    if l != [] {
      var n := |l| - 1;
      StrictOnce(l[..n]);
      assert l == l[..n] + [l[n]];
      assert l[n] !in l[..n];
    }
  }

  // For a hypothesis, being a sub-multiset of a combination is being a subset.
  lemma {:induction false} StrictWithin(l: seq<Lock>, held: seq<Lock>)
    requires Strict(l)
    ensures multiset(l) <= multiset(held) <==> Within(l, held)
  {
    StrictOnce(l);
    if multiset(l) <= multiset(held) {
      forall x | x in l
        ensures x in held
      {
        assert x in multiset(l);
        assert x in multiset(held);
      }
    }
    if Within(l, held) {
      forall x
        ensures multiset(l)[x] <= multiset(held)[x]
      {
        if x in multiset(l) {
          assert x in l;
          assert x in multiset(held);
        }
      }
    }
  }

  lemma {:induction false} HeadIn(s: seq<Lock>)
    requires s != []
    ensures s[0] in s
  {
  }

  // A hypothesis is determined by its set of locks.
  lemma {:induction false} StrictUnique(a: seq<Lock>, b: seq<Lock>)
    requires Strict(a) && Strict(b) && forall x :: x in a <==> x in b
    ensures a == b
  {
    if a == [] {
      if b != [] {
        HeadIn(b);
      }
    } else {
      assert a[0] in b && b[0] in a;
      assert a[0] == b[0];
      forall x
        ensures x in a[1..] <==> x in b[1..]
      {
        assert x in a[1..] <==> x in a && x != a[0];
        assert x in b[1..] <==> x in b && x != b[0];
      }
      StrictUnique(a[1..], b[1..]);
      assert a == [a[0]] + a[1..] && b == [b[0]] + b[1..];
    }
  }

  // The locks of wanted in the order held takes them, each as often as it is wanted.
  ghost function Order(held: seq<Lock>, wanted: multiset<Lock>): seq<Lock> {
    if held == [] then []
    else if held[0] in wanted then [held[0]] + Order(held[1..], wanted - multiset{held[0]})
    else Order(held[1..], wanted)
  }

  lemma {:induction false} OrderLocks(held: seq<Lock>, wanted: multiset<Lock>)
    ensures multiset(Order(held, wanted)) == multiset(held) * wanted
  {
    if held != [] {
      var x := held[0];
      assert held == [x] + held[1..];
      if x in wanted {
        OrderLocks(held[1..], wanted - multiset{x});
      } else {
        OrderLocks(held[1..], wanted);
      }
    }
  }

  ghost function First(held: seq<Lock>, x: Lock): nat
    requires x in held
  {
    if held[0] == x then 0 else 1 + First(held[1..], x)
  }

  lemma {:induction false} OrderHas(held: seq<Lock>, wanted: multiset<Lock>, x: Lock)
    ensures x in Order(held, wanted) <==> x in held && x in wanted
  {
    OrderLocks(held, wanted);
    assert x in Order(held, wanted) <==> x in multiset(Order(held, wanted));
    assert x in held <==> x in multiset(held);
  }

  // A lock held more than once counts from when it was first taken.
  lemma {:induction false} OrderFollowsFirst(held: seq<Lock>, wanted: multiset<Lock>, i: nat, j: nat)
    requires (forall x :: wanted[x] <= 1) && i < j < |Order(held, wanted)|
    ensures var o := Order(held, wanted); o[i] in held && o[j] in held && First(held, o[i]) < First(held, o[j])
  {
    var o := Order(held, wanted);
    OrderHas(held, wanted, o[i]);
    OrderHas(held, wanted, o[j]);
    var x := held[0];
    if x in wanted {
      var rest := Order(held[1..], wanted - multiset{x});
      assert o == [x] + rest;
      OrderHas(held[1..], wanted - multiset{x}, o[j]);
      assert o[j] != x;
      if i > 0 {
        assert rest[i - 1] == o[i] && rest[j - 1] == o[j];
        OrderHas(held[1..], wanted - multiset{x}, o[i]);
        OrderFollowsFirst(held[1..], wanted - multiset{x}, i - 1, j - 1);
      }
    } else {
      OrderFollowsFirst(held[1..], wanted, i, j);
    }
  }

  ghost function Project(o: seq<Lock>, kept: multiset<Lock>): seq<Lock> {
    if o == [] then [] else if o[0] in kept then [o[0]] + Project(o[1..], kept) else Project(o[1..], kept)
  }

  lemma {:induction false} ProjectWithout(o: seq<Lock>, kept: multiset<Lock>, x: Lock)
    requires x !in o
    ensures Project(o, kept - multiset{x}) == Project(o, kept)
  {
    if o != [] {
      ProjectWithout(o[1..], kept, x);
    }
  }

  // Taking fewer locks into account leaves the order of the others.
  lemma {:induction false} OrderProjects(held: seq<Lock>, wanted: multiset<Lock>, kept: multiset<Lock>)
    requires kept <= wanted && forall x :: wanted[x] <= 1
    ensures Order(held, kept) == Project(Order(held, wanted), kept)
  {
    if held != [] {
      var x, rest := held[0], held[1..];
      if x in wanted {
        var o := Order(rest, wanted - multiset{x});
        assert Order(held, wanted) == [x] + o;
        OrderHas(rest, wanted - multiset{x}, x);
        if x in kept {
          OrderProjects(rest, wanted - multiset{x}, kept - multiset{x});
          ProjectWithout(o, kept, x);
        } else {
          OrderProjects(rest, wanted - multiset{x}, kept);
        }
        assert ([x] + o)[1..] == o;
      } else {
        OrderProjects(rest, wanted, kept);
      }
    }
  }

  // One observed combination of locks; sorted is held after std::sort.
  datatype Combination = Combination(occurrences: nat, held: seq<Lock>, sorted: seq<Lock>) {

    ghost predicate Valid() {
      occurrences > 0 && Ascending(sorted) && multiset(sorted) == multiset(held)
    }

    // The first j locks of l were matched among the first i held, and l[j] was not missed there.
    ghost predicate Walk(l: seq<Lock>, j: nat, i: nat) {
      && j < |l| && i <= |sorted|
      && multiset(l[..j]) <= multiset(sorted[..i])
      && multiset(l[..j])[l[j]] == multiset(sorted[..i])[l[j]]
    }

    lemma {:induction false} Counts(s: seq<Lock>, i: nat, x: Lock)
      requires Ascending(s) && i < |s|
      ensures multiset(s[..i + 1]) == multiset(s[..i]) + multiset{s[i]}
      ensures s[i] < x ==> multiset(s[..i + 1])[x] == 0
    {
      assert s[..i + 1] == s[..i] + [s[i]];
      if s[i] < x {
        assert x !in s[..i + 1];
      }
    }

    lemma {:induction false} WalkOn(l: seq<Lock>, j: nat, i: nat)
      requires Ascending(l) && Ascending(sorted) && Walk(l, j, i) && i < |sorted|
      ensures sorted[i] != l[j] ==> Walk(l, j, i + 1)
      ensures sorted[i] == l[j] && j + 1 < |l| ==> Walk(l, j + 1, i + 1)
      ensures sorted[i] == l[j] && j + 1 == |l| ==> multiset(l) <= multiset(sorted)
    {
      var x := if j + 1 < |l| then l[j + 1] else l[j];
      Counts(l, j, x);
      Counts(sorted, i, x);
      var m, n := multiset(l[..j]), multiset(sorted[..i]);
      if sorted[i] == l[j] && j + 1 == |l| {
        assert l[..j + 1] == l;
        assert sorted == sorted[..i + 1] + sorted[i + 1..];
      }
    }

    lemma {:induction false} WalkEnds(l: seq<Lock>, j: nat)
      requires Walk(l, j, |sorted|)
      ensures !(multiset(l) <= multiset(sorted))
    {
      assert sorted[..|sorted|] == sorted;
      assert l == l[..j] + ([l[j]] + l[j + 1..]);
      assert multiset(l)[l[j]] > multiset(sorted)[l[j]];
    }

    lemma {:induction false} WalkBegins(l: seq<Lock>)
      requires l != []
      ensures Walk(l, 0, 0)
    {
    }

    method ContainsLocks(l: seq<Lock>) returns (b: bool)
      requires Valid() && Ascending(l)
      ensures b <==> multiset(l) <= multiset(held)
    {
      hide Walk, Ascending;
      var j := 0;
      if j == |l| {
        return true;
      }
      WalkBegins(l);
      for i := 0 to |sorted|
        invariant j < |l| && Walk(l, j, i)
      {
        WalkOn(l, j, i);
        if sorted[i] == l[j] {
          j := j + 1;
          if j == |l| {
            return true;
          }
        }
      }
      WalkEnds(l, j);
      return false;
    }

    // The order from held[i] on, when the locks left are still wanted.
    ghost function OrderFrom(i: nat, left: seq<Lock>): seq<Lock>
      requires i <= |held|
    {
      Order(held[i..], multiset(left))
    }

    lemma {:induction false} OrderEnds(i: nat, left: seq<Lock>)
      requires i <= |held|
      ensures OrderFrom(0, left) == Order(held, multiset(left))
      ensures left == [] || i == |held| ==> OrderFrom(i, left) == []
    {
      assert held[0..] == held;
      if left == [] {
        OrderLocks(held[i..], multiset{});
        assert |multiset(Order(held[i..], multiset{}))| == 0;
      }
    }

    lemma {:induction false} OrderNext(i: nat, left: seq<Lock>, k: nat)
      requires i < |held|
      requires held[i] in left ==> k < |left| && left[k] == held[i]
      ensures held[i] in left ==> OrderFrom(i, left) == [held[i]] + OrderFrom(i + 1, left[..k] + left[k + 1..])
      ensures held[i] !in left ==> OrderFrom(i, left) == OrderFrom(i + 1, left)
    {
      assert held[i..][1..] == held[i + 1..];
      if held[i] in left {
        assert left == left[..k] + [left[k]] + left[k + 1..];
        assert multiset(left[..k] + left[k + 1..]) == multiset(left) - multiset{held[i]};
        assert held[i] in multiset(left);
      }
    }

    method LockOrder(l: seq<Lock>) returns (r: seq<Lock>)
      ensures r == Order(held, multiset(l))
    {
      hide *;
      r := [];
      OrderEnds(0, l);
      if l == [] {
        return;
      }
      var left := l;
      for i := 0 to |held|
        invariant OrderFrom(0, l) == r + OrderFrom(i, left)
      {
        if held[i] in left {
          var k := Find(left, held[i]);
          OrderNext(i, left, k);
          r := r + [held[i]];
          left := left[..k] + left[k + 1..];
          if left == [] {
            OrderEnds(i + 1, left);
            return;
          }
        } else {
          OrderNext(i, left, 0);
        }
      }
      OrderEnds(|held|, left);
    }
  }

  // std::find
  method Find(l: seq<Lock>, x: Lock) returns (k: nat)
    requires x in l
    ensures k < |l| && l[k] == x && x !in l[..k]
  {
    k := 0;
    while l[k] != x
      invariant k < |l| && x !in l[..k] && x in l[k..]
      decreases |l| - k
    {
      k := k + 1;
    }
  }
}
