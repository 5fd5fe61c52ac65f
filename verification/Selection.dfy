// Winner selection (hypothesizer/hypothesizer.cc, determine_winning_hypothesis and its callbacks): what
// each strategy keeps true while it walks the graph of hypotheses, and what that makes of the winner.

module Selection {
  import opened Support

  // What selection sees of a member: the support and the reported order of each hypothesis.
  datatype Space = Space(best: map<Hyp, nat>, rep: map<Hyp, Hyp>, total: nat)

  ghost predicate PartsIn(s: Space, h: Hyp)
    requires h != []
  {
    h[..|h| - 1] in s.best && h[1..] in s.best
  }

  ghost predicate Sound(s: Space) {
    && s.rep.Keys == s.best.Keys
    && [] in s.best && s.best[[]] == s.total && s.rep[[]] == []
    && (forall h :: h in s.best ==> 0 < s.best[h])
    && (forall h {:trigger PartsIn(s, h)} :: h in s.best && h != [] ==> PartsIn(s, h))
    && (forall h, k :: h in s.best && k in s.best && Extends(h, k) ==> s.best[k] <= s.best[h])
    && (forall h, k :: h in s.best && k in s.best && s.rep[h] == s.rep[k] ==> h == k)
  }

  // Relative support, as an exact fraction.
  function Fraction(n: int, d: nat): real
    requires d > 0
  {
    n as real / d as real
  }

  ghost function Sup(s: Space, h: Hyp): real
    requires Sound(s) && h in s.best
  {
    Fraction(s.best[h], s.total)
  }

  lemma {:induction false} FractionOrder(a: nat, b: nat, d: nat)
    requires d > 0
    ensures a <= b <==> Fraction(a, d) <= Fraction(b, d)
    ensures a == d ==> Fraction(a, d) == 1.0
    ensures a > 0 ==> Fraction(a, d) > 0.0
  {
    hide Fraction, Times;
    var x, y, e := Fraction(a, d), Fraction(b, d), d as real;
    FractionTimes(a, d);
    FractionTimes(b, d);
    ScalesOrder(x, y, e);
    UnitScale(x, e);
  }

  // A product as such, away from the solver's arithmetic.
  function Times(x: real, y: real): real {
    x * y
  }

  lemma {:induction false} FractionTimes(n: int, d: nat)
    requires d > 0
    ensures Times(Fraction(n, d), d as real) == n as real
  {
    QuotientTimes(n as real, d as real);
  }

  // n of d are at least the part x.
  predicate AtLeast(n: int, x: real, d: nat) {
    n as real >= x * d as real
  }

  lemma {:induction false} FractionReaches(n: int, d: nat, x: real)
    requires d > 0
    ensures Fraction(n, d) >= x <==> AtLeast(n, x, d)
  {
    hide Fraction;
    FractionTimes(n, d);
    ScalesOrder(x, Fraction(n, d), d as real);
  }

  // Support below a part of another one.
  lemma {:induction false} FractionBelow(n: nat, m: nat, d: nat, factor: real)
    requires d > 0
    ensures Fraction(n, d) < Kept(factor, Fraction(m, d)) <==> !AtLeast(n, 1.0 - factor, m)
  {
    hide Fraction, Kept, Times;
    FractionTimes(n, d);
    FractionTimes(m, d);
    KeptTimes(factor, Fraction(m, d), d as real);
    ScalesOrder(Kept(factor, Fraction(m, d)), Fraction(n, d), d as real);
  }

  lemma {:induction false} KeptTimes(factor: real, x: real, d: real)
    ensures Times(Kept(factor, x), d) == (1.0 - factor) * Times(x, d)
  {
    var y := 1.0 - factor;
    assert (y * x) * d == y * (x * d);
  }

  function RealPower(x: real, n: nat): real {
    if n == 0 then 1.0 else x * RealPower(x, n - 1)
  }

  lemma {:induction false} PowerIs(factor: real, n: nat)
    ensures Power(factor, n) == RealPower(1.0 - factor, n)
  {
    if n > 0 {
      PowerIs(factor, n - 1);
    }
  }

  lemma {:induction false} UnitScale(x: real, d: real)
    requires d > 0.0
    ensures Times(x, d) == d ==> x == 1.0
    ensures Times(x, d) > 0.0 ==> x > 0.0
  {
    hide Times;
    assert Times(1.0, d) == d && Times(0.0, d) == 0.0 by { TimesUnits(d); }
    ScalesOrder(x, 1.0, d);
    ScalesOrder(1.0, x, d);
    ScalesOrder(x, 0.0, d);
  }

  lemma {:induction false} QuotientTimes(x: real, d: real)
    requires d > 0.0
    ensures Times(x / d, d) == x
  {
  }

  lemma {:induction false} TimesUnits(d: real)
    ensures Times(1.0, d) == d && Times(0.0, d) == 0.0
  {
  }

  lemma {:induction false} Multiplied(x: real, y: real, d: real)
    requires x < y && d > 0.0
    ensures Times(x, d) < Times(y, d)
  {
    var e := y - x;
    assert e * d > 0.0;
    assert y * d == x * d + e * d;
  }

  lemma {:induction false} ScalesOrder(x: real, q: real, d: real)
    requires d > 0.0
    ensures x <= q <==> Times(x, d) <= Times(q, d)
  {
    hide Times;
    if x < q {
      Multiplied(x, q, d);
    } else if q < x {
      Multiplied(q, x, d);
    }
  }

  lemma {:induction false} SupFacts(s: Space, h: Hyp, k: Hyp)
    requires Sound(s) && h in s.best && k in s.best
    ensures s.best[h] <= s.best[k] <==> Sup(s, h) <= Sup(s, k)
    ensures s.best[h] == s.total <==> Sup(s, h) == 1.0
    ensures Extends(h, k) ==> Sup(s, k) <= Sup(s, h)
    ensures Sup(s, []) == 1.0 && 0.0 < Sup(s, h) <= 1.0
  {
    FractionOrder(s.best[h], s.best[k], s.total);
    FractionOrder(s.best[k], s.best[h], s.total);
    RootIsBest(s, h);
    FractionOrder(s.best[h], s.total, s.total);
    FractionOrder(s.total, s.total, s.total);
  }

  lemma {:induction false} RootIsBest(s: Space, h: Hyp)
    requires Sound(s) && h in s.best
    ensures s.best[h] <= s.total
  {
    if h != [] {
      assert PartsIn(s, h) && Extends(h[..|h| - 1], h);
      RootIsBest(s, h[..|h| - 1]);
    }
  }

  // A non-empty hypothesis has no more support than that of its first lock.
  lemma {:induction false} FirstLockIsBest(s: Space, h: Hyp)
    requires Sound(s) && h in s.best && h != []
    ensures h[..1] in s.best && Sup(s, h) <= Sup(s, h[..1])
  {
    if |h| > 1 {
      var p := h[..|h| - 1];
      assert PartsIn(s, h) && Extends(p, h);
      FirstLockIsBest(s, p);
      assert p[..1] == h[..1];
      SupFacts(s, p, h);
    } else {
      assert h[..1] == h;
    }
  }

  type Conflicts = seq<(Hyp, Hyp)>

  // The conflict list is exactly the largest hypotheses of v with support rel, each once.
  ghost predicate Tops(s: Space, v: set<Hyp>, c: Conflicts, rel: real)
    requires Sound(s)
  {
    && c != [] && v <= s.best.Keys && Distinct(c)
    && AllTop(s, v, c, |c[0].0|, rel)
    && Reported(s, v, c, |c[0].0|, rel)
  }

  ghost predicate Distinct(c: Conflicts) {
    forall i, j :: 0 <= i < j < |c| ==> c[i] != c[j]
  }

  ghost predicate AllTop(s: Space, v: set<Hyp>, c: Conflicts, size: nat, rel: real)
    requires Sound(s)
  {
    forall e :: e in c ==> e.0 in v && e.0 in s.best && e.1 == s.rep[e.0] && Sup(s, e.0) == rel && |e.0| == size
  }

  ghost predicate Reported(s: Space, v: set<Hyp>, c: Conflicts, size: nat, rel: real)
    requires Sound(s) && v <= s.best.Keys
  {
    forall h {:trigger h in v} {:trigger Sup(s, h)} :: h in v && Sup(s, h) == rel ==> |h| <= size && (|h| == size ==> (h, s.rep[h]) in c)
  }

  // The list after in_conflict_list has been asked.
  function Added(c: Conflicts, e: (Hyp, Hyp)): (r: Conflicts)
    ensures forall x :: x in c ==> x in r
    ensures forall x :: x in r ==> x in c || x == e
    ensures Distinct(c) ==> Distinct(r)
    ensures exists x :: x in r && x.1 == e.1
    ensures r != [] && (c != [] ==> r[0] == c[0])
  {
    if exists x :: x in c && x.1 == e.1 then c
    else
      assert e in c + [e];
      c + [e]
  }

  lemma {:induction false} TopsJoin(s: Space, v: set<Hyp>, c: Conflicts, rel: real, h: Hyp)
    requires Sound(s) && Tops(s, v, c, rel) && h in s.best && Sup(s, h) == rel && |h| == |c[0].0|
    ensures Tops(s, v + {h}, Added(c, (h, s.rep[h])), rel)
  {
    hide Sup, Added, Distinct;
    var e := (h, s.rep[h]);
    var r := Added(c, e);
    var x :| x in r && x.1 == e.1;
    assert x.0 == h;
    assert x == e;
    assert AllTop(s, v + {h}, r, |c[0].0|, rel);
    assert Reported(s, v + {h}, r, |c[0].0|, rel);
  }

  lemma {:induction false} TopsSkip(s: Space, v: set<Hyp>, c: Conflicts, rel: real, h: Hyp)
    requires Sound(s) && Tops(s, v, c, rel) && h in s.best && (Sup(s, h) != rel || |h| < |c[0].0|)
    ensures Tops(s, v + {h}, c, rel)
  {
    hide Sup, Distinct;
    assert AllTop(s, v + {h}, c, |c[0].0|, rel);
    assert Reported(s, v + {h}, c, |c[0].0|, rel);
  }

  lemma {:induction false} TopsReplace(s: Space, v: set<Hyp>, h: Hyp)
    requires Sound(s) && v <= s.best.Keys && h in s.best
    requires forall k {:trigger k in v} :: k in v && Sup(s, k) == Sup(s, h) ==> |k| < |h|
    ensures Tops(s, v + {h}, [(h, s.rep[h])], Sup(s, h))
  {
    hide Sup;
  }

  lemma {:induction false} TopsFront(s: Space, v: set<Hyp>, c: Conflicts, rel: real, h: Hyp)
    requires Sound(s) && Tops(s, v, c, rel)
    ensures v <= s.best.Keys && c != [] && c[0].0 in v && c[0].0 in s.best && Sup(s, c[0].0) == rel
    ensures h in v && Sup(s, h) == rel ==> |h| <= |c[0].0|
  {
    assert c[0] in c;
  }

  // A list that is right for what was visited is right for more, when nothing else has its support.
  lemma {:induction false} TopsWiden(s: Space, v: set<Hyp>, w: set<Hyp>, c: Conflicts, rel: real)
    requires Sound(s) && Tops(s, v, c, rel) && v <= w <= s.best.Keys
    requires forall h :: h in w && Sup(s, h) == rel ==> h in v
    ensures Tops(s, w, c, rel)
  {
    hide Sup, Distinct;
  }

  // h has nothing left to queue: its children were visited or are in the queue.
  ghost predicate Covered(s: Space, h: Hyp, v: set<Hyp>, nodes: seq<Hyp>) {
    forall k :: k in s.best && Extends(h, k) ==> k in v || k in nodes
  }

  ghost predicate Children(s: Space, h: Hyp, r: seq<Hyp>) {
    forall k :: k in r <==> k in s.best && Extends(h, k)
  }

  lemma {:induction false} CoveredStays(s: Space, x: Hyp, v: set<Hyp>, nodes: seq<Hyp>, pushed: seq<Hyp>)
    requires Covered(s, x, v, nodes) && nodes != []
    ensures Covered(s, x, v + {nodes[0]}, nodes[1..] + pushed)
  {
    forall k | k in s.best && Extends(x, k)
      ensures k in v + {nodes[0]} || k in nodes[1..] + pushed
    {
      if k in nodes {
        assert k == nodes[0] || k in nodes[1..];
      }
    }
  }

  // Strategies, with their thresholds.
  datatype Strategy = BottomUp(accept: real) | Sharpen(factor: real) | TopDown(accept: real, nolock: real) | LockSet

  // The state of a search besides its queue.
  datatype Standing = Standing(conflicts: Conflicts, found: bool, rel: real)

  // The least support that is within the reduction factor of rel.
  ghost function Kept(factor: real, rel: real): real {
    (1.0 - factor) * rel
  }

  // (1 - factor) to the power of n.
  ghost function Power(factor: real, n: nat): real {
    if n == 0 then 1.0 else Kept(factor, Power(factor, n - 1))
  }

  const ROOT: Conflicts := [([], [])]

  ghost predicate TopDownStands(s: Space, accept: real, v: set<Hyp>, t: Standing)
    requires Sound(s)
  {
    && v <= s.best.Keys
    && (t.found ==> Tops(s, v - {[]}, t.conflicts, t.rel) && accept <= t.rel
                    && forall h :: h in v && h != [] ==> Sup(s, h) <= t.rel)
    && (!t.found ==> t.rel == 0.0 && t.conflicts == ROOT && forall h :: h in v && h != [] ==> Sup(s, h) < accept)
  }

  ghost predicate LockSetStands(s: Space, v: set<Hyp>, t: Standing)
    requires Sound(s)
  {
    Tops(s, v + {[]}, t.conflicts, 1.0) && t.found
  }

  ghost predicate BottomUpStands(s: Space, accept: real, v: set<Hyp>, t: Standing)
    requires Sound(s)
  {
    && Tops(s, v + {[]}, t.conflicts, t.rel) && t.found && (accept <= t.rel || t.rel == 1.0)
    && forall h :: h in v && accept <= Sup(s, h) ==> t.rel <= Sup(s, h)
  }

  ghost predicate SharpenStands(s: Space, factor: real, v: set<Hyp>, t: Standing)
    requires Sound(s)
  {
    && Tops(s, v + {[]}, t.conflicts, t.rel) && t.found
    && 0.0 < t.rel && Power(factor, |t.conflicts[0].0|) <= t.rel
    && forall h :: h in v ==>
      && (|h| == |t.conflicts[0].0| ==> Sup(s, h) <= t.rel)
      && (|h| > |t.conflicts[0].0| ==> Sup(s, h) < Kept(factor, t.rel))
  }

  // Top-down ------------------------------------------------------------------------------------------

  // A hypothesis top-down selection may still report.
  ghost predicate Leading(s: Space, accept: real, h: Hyp)
    requires Sound(s) && h in s.best
  {
    accept <= Sup(s, h) && forall k :: k in s.best && k != [] ==> Sup(s, k) <= Sup(s, h)
  }

  ghost predicate TopDownCovers(s: Space, accept: real, v: set<Hyp>, nodes: seq<Hyp>)
    requires Sound(s) && v <= s.best.Keys
  {
    && ([] in v || [] in nodes)
    && forall h :: h in v && (h == [] || Leading(s, accept, h)) ==> Covered(s, h, v, nodes)
  }

  ghost predicate LevelSoFar(v: set<Hyp>, h: Hyp) {
    forall k {:trigger k in v} :: k in v ==> |k| <= |h|
  }

  lemma {:induction false} TopDownRoot(s: Space, accept: real, v: set<Hyp>, t: Standing)
    requires Sound(s) && TopDownStands(s, accept, v, t)
    ensures TopDownStands(s, accept, v + {[]}, t)
  {
    hide Sup, Tops;
    assert (v + {[]}) - {[]} == v - {[]};
  }

  lemma {:induction false} TopDownJoin(s: Space, accept: real, v: set<Hyp>, t: Standing, h: Hyp)
    requires Sound(s) && TopDownStands(s, accept, v, t) && h in s.best && h != []
    requires |t.conflicts[0].0| == |h| && Sup(s, h) == t.rel
    ensures TopDownStands(s, accept, v + {h}, t.(conflicts := Added(t.conflicts, (h, s.rep[h]))))
  {
    hide Sup;
    TopsJoin(s, v - {[]}, t.conflicts, t.rel, h);
    hide Tops;
    assert (v + {h}) - {[]} == (v - {[]}) + {h};
  }

  lemma {:induction false} TopDownReplace(s: Space, accept: real, v: set<Hyp>, t: Standing, h: Hyp)
    requires Sound(s) && TopDownStands(s, accept, v, t) && h in s.best && h != [] && LevelSoFar(v, h)
    requires !(|t.conflicts[0].0| == |h| && Sup(s, h) == t.rel) && accept <= Sup(s, h) && t.rel <= Sup(s, h)
    ensures TopDownStands(s, accept, v + {h}, Standing([(h, s.rep[h])], true, Sup(s, h)))
  {
    hide Sup, Tops;
    forall k | k in v - {[]} && Sup(s, k) == Sup(s, h)
      ensures |k| < |h|
    {
      if t.found {
        TopsFront(s, v - {[]}, t.conflicts, t.rel, k);
      }
    }
    TopsReplace(s, v - {[]}, h);
    assert (v + {h}) - {[]} == (v - {[]}) + {h};
  }

  lemma {:induction false} TopDownSkip(s: Space, accept: real, v: set<Hyp>, t: Standing, h: Hyp)
    requires Sound(s) && TopDownStands(s, accept, v, t) && h in s.best && h != [] && LevelSoFar(v, h)
    requires !(|t.conflicts[0].0| == |h| && Sup(s, h) == t.rel)
    requires !(accept <= Sup(s, h) && t.rel <= Sup(s, h) && |t.conflicts[0].0| <= |h|)
    ensures TopDownStands(s, accept, v + {h}, t) && !Leading(s, accept, h)
  {
    SupFacts(s, h, h);
    hide Sup;
    assert (v + {h}) - {[]} == (v - {[]}) + {h};
    hide Tops;
    if t.found {
      TopsFront(s, v - {[]}, t.conflicts, t.rel, h);
      TopsSkip(s, v - {[]}, t.conflicts, t.rel, h);
    }
  }

  lemma {:induction false} TopDownCoversNext(s: Space, accept: real, v: set<Hyp>, nodes: seq<Hyp>, pushed: seq<Hyp>)
    requires Sound(s) && v <= s.best.Keys && nodes != [] && nodes[0] in s.best && TopDownCovers(s, accept, v, nodes)
    requires nodes[0] == [] || Leading(s, accept, nodes[0]) ==> Children(s, nodes[0], pushed)
    ensures TopDownCovers(s, accept, v + {nodes[0]}, nodes[1..] + pushed)
  {
    var h, w, rest := nodes[0], v + {nodes[0]}, nodes[1..] + pushed;
    forall x | x in w && (x == [] || Leading(s, accept, x))
      ensures Covered(s, x, w, rest)
    {
      if x in v {
        CoveredStays(s, x, v, nodes, pushed);
      }
    }
  }

  // The chain of prefixes leads to every hypothesis that can win.
  lemma {:induction false} TopDownReaches(s: Space, accept: real, v: set<Hyp>, h: Hyp)
    requires Sound(s) && v <= s.best.Keys && TopDownCovers(s, accept, v, [])
    requires h in s.best && (|h| <= 1 || Leading(s, accept, h))
    ensures h in v
  {
    if h != [] {
      var p := h[..|h| - 1];
      assert PartsIn(s, h) && Extends(p, h);
      SupFacts(s, p, h);
      hide Sup;
      TopDownReaches(s, accept, v, p);
      assert Covered(s, p, v, []);
    }
  }

  // With some one-lock hypothesis above the threshold, the conflict list is exactly the largest of the
  // best-supported non-empty hypotheses; otherwise there is no winner.
  ghost predicate TopDownResult(s: Space, accept: real, t: Standing)
    requires Sound(s)
  {
    && (t.found <==> exists h :: h in s.best && |h| == 1 && accept <= Sup(s, h))
    && (t.found ==>
      && Tops(s, s.best.Keys - {[]}, t.conflicts, t.rel)
      && forall h :: h in s.best && h != [] ==> Sup(s, h) <= t.rel)
  }

  lemma {:induction false} BestSingle(s: Space, cs: set<Hyp>) returns (m: Hyp)
    requires Sound(s) && cs <= s.best.Keys && cs != {}
    ensures m in cs && forall h :: h in cs ==> Sup(s, h) <= Sup(s, m)
    decreases cs
  {
    m :| m in cs;
    if cs != {m} {
      var k := BestSingle(s, cs - {m});
      if Sup(s, k) > Sup(s, m) {
        m := k;
      }
    }
  }

  lemma {:induction false} SomeLeader(s: Space, accept: real, h: Hyp) returns (m: Hyp)
    requires Sound(s) && h in s.best && |h| == 1 && accept <= Sup(s, h)
    ensures m in s.best && |m| == 1 && Leading(s, accept, m)
  {
    var cs := set k | k in s.best && |k| == 1;
    assert h in cs;
    m := BestSingle(s, cs);
    forall k | k in s.best && k != []
      ensures Sup(s, k) <= Sup(s, m)
    {
      FirstLockIsBest(s, k);
      assert k[..1] in cs;
    }
  }

  lemma {:induction false} TopDownIsOptimal(s: Space, accept: real, v: set<Hyp>, t: Standing)
    requires Sound(s) && TopDownStands(s, accept, v, t) && TopDownCovers(s, accept, v, [])
    ensures TopDownResult(s, accept, t)
  {
    hide Sup, Tops;
    if h :| h in s.best && |h| == 1 && accept <= Sup(s, h) {
      var m := SomeLeader(s, accept, h);
      TopDownReaches(s, accept, v, m);
      TopsFront(s, v - {[]}, t.conflicts, t.rel, m);
      forall h | h in s.best && h != [] && Sup(s, h) == t.rel
        ensures h in v - {[]}
      {
        TopDownReaches(s, accept, v, h);
      }
      TopsWiden(s, v - {[]}, s.best.Keys - {[]}, t.conflicts, t.rel);
    } else if t.found {
      TopsFront(s, v - {[]}, t.conflicts, t.rel, []);
      FirstLockIsBest(s, t.conflicts[0].0);
    }
  }

  // Lockset -------------------------------------------------------------------------------------------

  ghost predicate LockSetCovers(s: Space, v: set<Hyp>, nodes: seq<Hyp>)
    requires Sound(s) && v <= s.best.Keys
  {
    forall h :: h in v + {[]} && Sup(s, h) == 1.0 ==> Covered(s, h, v, nodes)
  }

  lemma {:induction false} LockSetCoversNext(s: Space, v: set<Hyp>, nodes: seq<Hyp>, pushed: seq<Hyp>)
    requires Sound(s) && v <= s.best.Keys && nodes != [] && nodes[0] in s.best && LockSetCovers(s, v, nodes)
    requires Sup(s, nodes[0]) == 1.0 ==> Children(s, nodes[0], pushed)
    ensures LockSetCovers(s, v + {nodes[0]}, nodes[1..] + pushed)
  {
    hide Sup;
    var h, w, rest := nodes[0], v + {nodes[0]}, nodes[1..] + pushed;
    forall x | x in w + {[]} && Sup(s, x) == 1.0
      ensures Covered(s, x, w, rest)
    {
      if x in v + {[]} {
        CoveredStays(s, x, v, nodes, pushed);
      }
    }
  }

  // However the walk is pruned, every hypothesis held at each access is visited.
  lemma {:induction false} LockSetReaches(s: Space, v: set<Hyp>, h: Hyp)
    requires Sound(s) && v <= s.best.Keys && LockSetCovers(s, v, []) && h in s.best && Sup(s, h) == 1.0
    ensures h in v + {[]}
  {
    if h != [] {
      var p := h[..|h| - 1];
      assert PartsIn(s, h) && Extends(p, h);
      SupFacts(s, p, h);
      SupFacts(s, p, p);
      hide Sup;
      LockSetReaches(s, v, p);
      assert Covered(s, p, v, []);
    }
  }

  lemma {:induction false} LockSetJoin(s: Space, v: set<Hyp>, t: Standing, h: Hyp)
    requires Sound(s) && LockSetStands(s, v, t) && h in s.best && |t.conflicts[0].0| == |h| && Sup(s, h) == 1.0
    ensures LockSetStands(s, v + {h}, t.(conflicts := Added(t.conflicts, (h, s.rep[h]))))
  {
    hide Sup;
    TopsJoin(s, v + {[]}, t.conflicts, 1.0, h);
    hide Tops;
    assert v + {h} + {[]} == v + {[]} + {h};
  }

  lemma {:induction false} LockSetSkip(s: Space, v: set<Hyp>, t: Standing, h: Hyp)
    requires Sound(s) && LockSetStands(s, v, t) && h in s.best && (Sup(s, h) != 1.0 || |h| < |t.conflicts[0].0|)
    ensures LockSetStands(s, v + {h}, t)
  {
    hide Sup;
    TopsSkip(s, v + {[]}, t.conflicts, 1.0, h);
    hide Tops;
    assert v + {h} + {[]} == v + {[]} + {h};
  }

  lemma {:induction false} LockSetReplace(s: Space, v: set<Hyp>, t: Standing, h: Hyp)
    requires Sound(s) && LockSetStands(s, v, t) && h in s.best && |t.conflicts[0].0| < |h| && Sup(s, h) == 1.0
    ensures LockSetStands(s, v + {h}, Standing([(h, s.rep[h])], true, t.rel))
  {
    hide Sup, Tops;
    TopsFront(s, v + {[]}, t.conflicts, 1.0, h);
    forall k | k in v + {[]} && Sup(s, k) == Sup(s, h)
      ensures |k| < |h|
    {
      TopsFront(s, v + {[]}, t.conflicts, 1.0, k);
    }
    TopsReplace(s, v + {[]}, h);
    assert v + {h} + {[]} == v + {[]} + {h};
  }

  // Nothing of full support is passed over: what is visited is at least as large as the winner.
  lemma {:induction false} LockSetLevel(s: Space, v: set<Hyp>, t: Standing, h: Hyp)
    requires Sound(s) && LockSetStands(s, v, t) && LevelSoFar(v, h)
    ensures |t.conflicts[0].0| <= |h|
  {
    TopsFront(s, v + {[]}, t.conflicts, 1.0, h);
  }

  lemma {:induction false} LockSetIsOptimal(s: Space, v: set<Hyp>, t: Standing)
    requires Sound(s) && v <= s.best.Keys && LockSetStands(s, v, t) && LockSetCovers(s, v, [])
    ensures t.found && Tops(s, s.best.Keys, t.conflicts, 1.0)
  {
    hide Sup, Tops;
    forall h | h in s.best && Sup(s, h) == 1.0
      ensures h in v + {[]}
    {
      LockSetReaches(s, v, h);
    }
    TopsWiden(s, v + {[]}, s.best.Keys, t.conflicts, 1.0);
  }

  // Bottom-up and sharpen ---------------------------------------------------------------------------

  ghost predicate WinnersCovered(s: Space, v: set<Hyp>, nodes: seq<Hyp>, c: Conflicts) {
    forall i :: 0 <= i < |c| ==> Covered(s, c[i].0, v, nodes)
  }

  lemma {:induction false} WinnersCoveredNext(s: Space, v: set<Hyp>, nodes: seq<Hyp>, pushed: seq<Hyp>, c: Conflicts,
      d: Conflicts)
    requires Sound(s) && nodes != [] && WinnersCovered(s, v, nodes, c)
    requires forall i :: 0 <= i < |d| ==> d[i] in c || (d[i].0 == nodes[0] && Children(s, nodes[0], pushed))
    ensures WinnersCovered(s, v + {nodes[0]}, nodes[1..] + pushed, d)
  {
    forall i | 0 <= i < |d|
      ensures Covered(s, d[i].0, v + {nodes[0]}, nodes[1..] + pushed)
    {
      if d[i] in c {
        var j :| 0 <= j < |c| && c[j] == d[i];
        CoveredStays(s, c[j].0, v, nodes, pushed);
      }
    }
  }

  lemma {:induction false} BottomUpReplace(s: Space, accept: real, v: set<Hyp>, t: Standing, h: Hyp)
    requires Sound(s) && BottomUpStands(s, accept, v, t) && h in s.best && h != [] && LevelSoFar(v, h)
    requires (accept <= Sup(s, h) && Sup(s, h) < t.rel) || (|h| > |t.conflicts[0].0| && Sup(s, h) == t.rel)
    ensures BottomUpStands(s, accept, v + {h}, Standing([(h, s.rep[h])], true, Sup(s, h)))
  {
    SupFacts(s, h, h);
    hide Sup, Tops;
    forall k | k in v + {[]} && Sup(s, k) == Sup(s, h)
      ensures |k| < |h|
    {
      TopsFront(s, v + {[]}, t.conflicts, t.rel, k);
    }
    TopsReplace(s, v + {[]}, h);
    assert v + {h} + {[]} == v + {[]} + {h};
  }

  lemma {:induction false} BottomUpJoin(s: Space, accept: real, v: set<Hyp>, t: Standing, h: Hyp)
    requires Sound(s) && BottomUpStands(s, accept, v, t) && h in s.best
    requires |t.conflicts[0].0| == |h| && Sup(s, h) == t.rel
    ensures BottomUpStands(s, accept, v + {h}, t.(conflicts := Added(t.conflicts, (h, s.rep[h]))))
  {
    hide Sup;
    TopsJoin(s, v + {[]}, t.conflicts, t.rel, h);
    hide Tops;
    assert v + {h} + {[]} == v + {[]} + {h};
  }

  lemma {:induction false} BottomUpSkip(s: Space, accept: real, v: set<Hyp>, t: Standing, h: Hyp)
    requires Sound(s) && BottomUpStands(s, accept, v, t) && h in s.best
    requires !(|t.conflicts[0].0| == |h| && Sup(s, h) == t.rel)
    requires !(accept <= Sup(s, h) && Sup(s, h) < t.rel) && !(|h| > |t.conflicts[0].0| && Sup(s, h) == t.rel)
    ensures BottomUpStands(s, accept, v + {h}, t)
  {
    hide Sup;
    TopsSkip(s, v + {[]}, t.conflicts, t.rel, h);
    hide Tops;
    assert v + {h} + {[]} == v + {[]} + {h};
  }

  // Hypotheses considered equal: same size, same support, each in its reported order, each once.
  ghost predicate Equals(s: Space, c: Conflicts, rel: real)
    requires Sound(s)
  {
    c != [] && Distinct(c) && AllTop(s, s.best.Keys, c, |c[0].0|, rel)
  }

  lemma {:induction false} TopsEquals(s: Space, v: set<Hyp>, c: Conflicts, rel: real)
    requires Sound(s) && Tops(s, v, c, rel)
    ensures Equals(s, c, rel)
  {
    hide Sup, Distinct;
  }

  // A visited child of a winner has other support.
  lemma {:induction false} VisitedChild(s: Space, v: set<Hyp>, c: Conflicts, rel: real, i: nat, k: Hyp)
    requires Sound(s) && Tops(s, v + {[]}, c, rel) && WinnersCovered(s, v, [], c)
    requires i < |c| && k in s.best && Extends(c[i].0, k)
    ensures k in v && |k| == |c[0].0| + 1 && Sup(s, k) < rel
  {
    assert c[i] in c && Covered(s, c[i].0, v, []);
    SupFacts(s, c[i].0, k);
    TopsFront(s, v + {[]}, c, rel, k);
    hide Sup;
  }

  // The winner is above the threshold (or is the root), and no child of a winner is.
  ghost predicate BottomUpResult(s: Space, accept: real, t: Standing)
    requires Sound(s)
  {
    && t.found && Equals(s, t.conflicts, t.rel) && (accept <= t.rel || t.rel == 1.0)
    && forall i, k :: 0 <= i < |t.conflicts| && k in s.best && Extends(t.conflicts[i].0, k) ==> Sup(s, k) < accept && Sup(s, k) < t.rel
  }

  lemma {:induction false} BottomUpIsLocal(s: Space, accept: real, v: set<Hyp>, t: Standing)
    requires Sound(s) && BottomUpStands(s, accept, v, t) && WinnersCovered(s, v, [], t.conflicts)
    ensures BottomUpResult(s, accept, t)
  {
    hide Sup;
    TopsEquals(s, v + {[]}, t.conflicts, t.rel);
    forall i, k | 0 <= i < |t.conflicts| && k in s.best && Extends(t.conflicts[i].0, k)
      ensures Sup(s, k) < accept && Sup(s, k) < t.rel
    {
      VisitedChild(s, v, t.conflicts, t.rel, i, k);
    }
  }

  // delta in the source
  function Loss(sup: real, rel: real): real
    requires rel > 0.0
  {
    1.0 - sup / rel
  }

  lemma {:induction false} LossWithin(sup: real, rel: real, factor: real)
    requires rel > 0.0
    ensures Loss(sup, rel) <= factor <==> Kept(factor, rel) <= sup
  {
    QuotientTimes(sup, rel);
    ScalesOrder(1.0 - factor, sup / rel, rel);
    assert Kept(factor, rel) == Times(1.0 - factor, rel);
  }

  lemma {:induction false} KeptOrder(factor: real, a: real, b: real)
    requires 0.0 <= factor <= 1.0 && 0.0 <= a <= b
    ensures 0.0 <= Kept(factor, a) <= Kept(factor, b) <= b
  {
    var x := 1.0 - factor;
    assert 0.0 <= x * a;
    assert 0.0 <= x * (b - a) && x * b == x * a + x * (b - a);
    assert 0.0 <= factor * b && b == x * b + factor * b;
  }

  lemma {:induction false} PowerFalls(factor: real, a: nat, b: nat)
    requires 0.0 <= factor <= 1.0 && a <= b
    ensures 0.0 <= Power(factor, b) <= Power(factor, a)
  {
    if a < b {
      PowerFalls(factor, a, b - 1);
      var p := Power(factor, b - 1);
      KeptOrder(factor, p, p);
    } else if b > 0 {
      PowerFalls(factor, b - 1, b - 1);
      var p := Power(factor, b - 1);
      KeptOrder(factor, p, p);
    }
    hide Kept;
  }

  lemma {:induction false} PowerStep(factor: real, a: nat, b: nat, rel: real, sup: real)
    requires 0.0 <= factor <= 1.0 && a < b && Power(factor, a) <= rel && Kept(factor, rel) <= sup
    ensures Power(factor, b) <= sup
  {
    hide Kept;
    PowerFalls(factor, a + 1, b);
    PowerFalls(factor, a, a);
    KeptOrder(factor, Power(factor, a), rel);
  }

  lemma {:induction false} SharpenJoin(s: Space, factor: real, v: set<Hyp>, t: Standing, h: Hyp)
    requires Sound(s) && SharpenStands(s, factor, v, t) && h in s.best
    requires |t.conflicts[0].0| == |h| && Sup(s, h) == t.rel
    ensures SharpenStands(s, factor, v + {h}, t.(conflicts := Added(t.conflicts, (h, s.rep[h]))))
  {
    hide Sup, Power, Kept;
    TopsJoin(s, v + {[]}, t.conflicts, t.rel, h);
    hide Tops;
    assert v + {h} + {[]} == v + {[]} + {h};
  }

  lemma {:induction false} SharpenSkip(s: Space, factor: real, v: set<Hyp>, t: Standing, h: Hyp)
    requires Sound(s) && SharpenStands(s, factor, v, t) && h in s.best
    requires !(|t.conflicts[0].0| == |h| && Sup(s, h) == t.rel)
    requires !(|t.conflicts[0].0| == |h| && Sup(s, h) > t.rel)
    requires !(|h| > |t.conflicts[0].0| && (Sup(s, h) == t.rel || Loss(Sup(s, h), t.rel) <= factor))
    ensures SharpenStands(s, factor, v + {h}, t)
  {
    LossWithin(Sup(s, h), t.rel, factor);
    hide Sup, Power, Loss, Kept;
    TopsSkip(s, v + {[]}, t.conflicts, t.rel, h);
    hide Tops;
    assert v + {h} + {[]} == v + {[]} + {h};
  }

  // The two ways a hypothesis replaces the winner: more support at the same size, or more locks at
  // hardly less support.
  lemma {:induction false} SharpenReplace(s: Space, factor: real, v: set<Hyp>, t: Standing, h: Hyp)
    requires Sound(s) && SharpenStands(s, factor, v, t) && h in s.best && h != [] && LevelSoFar(v, h) && 0.0 <= factor <= 1.0
    requires
      || (|t.conflicts[0].0| == |h| && Sup(s, h) > t.rel)
      || (|h| > |t.conflicts[0].0| && (Sup(s, h) == t.rel || Loss(Sup(s, h), t.rel) <= factor))
    ensures SharpenStands(s, factor, v + {h}, Standing([(h, s.rep[h])], true, Sup(s, h)))
  {
    LossWithin(Sup(s, h), t.rel, factor);
    SupFacts(s, h, h);
    hide Sup, Loss, Tops, Power, Kept;
    var y := |t.conflicts[0].0|;
    KeptOrder(factor, t.rel, t.rel);
    forall k | k in v + {[]} && Sup(s, k) == Sup(s, h)
      ensures |k| < |h|
    {
      TopsFront(s, v + {[]}, t.conflicts, t.rel, k);
    }
    if |h| > y {
      PowerStep(factor, y, |h|, t.rel, Sup(s, h));
    }
    TopsReplace(s, v + {[]}, h);
    assert v + {h} + {[]} == v + {[]} + {h};
  }

  // The support of the winner is bounded below, and every extension of a winner by one lock loses more
  // than the factor.
  ghost predicate SharpenResult(s: Space, factor: real, t: Standing)
    requires Sound(s)
  {
    && t.found && Equals(s, t.conflicts, t.rel)
    && Power(factor, |t.conflicts[0].0|) <= t.rel
    && forall i, k :: 0 <= i < |t.conflicts| && k in s.best && Extends(t.conflicts[i].0, k) ==> Sup(s, k) < Kept(factor, t.rel)
  }

  lemma {:induction false} SharpenIsLocal(s: Space, factor: real, v: set<Hyp>, t: Standing)
    requires Sound(s) && SharpenStands(s, factor, v, t) && WinnersCovered(s, v, [], t.conflicts)
    ensures SharpenResult(s, factor, t)
  {
    hide Sup, Power, Kept;
    TopsEquals(s, v + {[]}, t.conflicts, t.rel);
    forall i, k | 0 <= i < |t.conflicts| && k in s.best && Extends(t.conflicts[i].0, k)
      ensures Sup(s, k) < Kept(factor, t.rel)
    {
      VisitedChild(s, v, t.conflicts, t.rel, i, k);
    }
  }

  // All strategies ----------------------------------------------------------------------------------

  lemma {:induction false} RootStands(s: Space)
    requires Sound(s)
    ensures Tops(s, {[]}, ROOT, 1.0)
  {
    SupFacts(s, [], []);
    TopsReplace(s, {}, []);
    var none: set<Hyp> := {};
    assert none + {[]} == {[]};
  }

  // What holds between two rounds of the loop; v is what was visited, idle says that accesses without
  // locks are too frequent for top-down selection.
  ghost predicate Progress(g: Strategy, idle: bool, s: Space, v: set<Hyp>, nodes: seq<Hyp>, t: Standing)
    requires Sound(s)
  {
    && v <= s.best.Keys && (forall h :: h in nodes ==> h in s.best)
    && match g
       case TopDown(accept, _) =>
         if idle then t.conflicts == ROOT && (if v == {} then nodes == [[]] else t.found && nodes == [])
         else TopDownStands(s, accept, v, t) && TopDownCovers(s, accept, v, nodes)
       case LockSet => [] !in nodes && LockSetStands(s, v, t) && LockSetCovers(s, v, nodes)
       case BottomUp(accept) =>
         [] !in nodes && BottomUpStands(s, accept, v, t) && WinnersCovered(s, v, nodes, t.conflicts)
       case Sharpen(factor) =>
         [] !in nodes && SharpenStands(s, factor, v, t) && WinnersCovered(s, v, nodes, t.conflicts)
  }

  // What each strategy makes of a member.
  ghost predicate Result(g: Strategy, idle: bool, s: Space, t: Standing)
    requires Sound(s)
  {
    match g
    case TopDown(accept, _) => if idle then t.found && t.conflicts == ROOT else TopDownResult(s, accept, t)
    case LockSet => t.found && Tops(s, s.best.Keys, t.conflicts, 1.0)
    case BottomUp(accept) => BottomUpResult(s, accept, t)
    case Sharpen(factor) => SharpenResult(s, factor, t)
  }

  lemma {:induction false} ResultListed(g: Strategy, idle: bool, s: Space, t: Standing)
    requires Sound(s) && Result(g, idle, s, t)
    ensures t.found ==> t.conflicts != []
  {
    hide Sup, Distinct, AllTop, Reported;
  }

  lemma {:induction false} ProgressEnds(g: Strategy, idle: bool, s: Space, v: set<Hyp>, t: Standing)
    requires Sound(s) && Progress(g, idle, s, v, [], t)
    ensures Result(g, idle, s, t)
  {
    match g
    case TopDown(accept, _) =>
      if !idle {
        TopDownIsOptimal(s, accept, v, t);
      }
    case LockSet => LockSetIsOptimal(s, v, t);
    case BottomUp(accept) => BottomUpIsLocal(s, accept, v, t);
    case Sharpen(factor) => SharpenIsLocal(s, factor, v, t);
  }

  lemma {:induction false} ProgressStarts(g: Strategy, idle: bool, s: Space, nodes: seq<Hyp>)
    requires Sound(s) && Children(s, [], nodes)
    requires g.Sharpen? ==> 0.0 <= g.factor <= 1.0
    ensures !g.TopDown? ==> Progress(g, idle, s, {}, nodes, Standing(ROOT, true, 1.0))
    ensures g.TopDown? ==> Progress(g, idle, s, {}, [[]], Standing(ROOT, false, 0.0))
  {
    RootStands(s);
    hide Tops, Sup;
    assert forall k :: k in nodes ==> Extends([], k);
  }

  lemma {:induction false} ProgressOpens(g: Strategy, s: Space, v: set<Hyp>, nodes: seq<Hyp>, t: Standing)
    requires Sound(s) && Progress(g, false, s, v, nodes, t)
    ensures t.conflicts != [] && v <= s.best.Keys
    ensures g.TopDown? ==> TopDownStands(s, g.accept, v, t)
    ensures g.BottomUp? ==> BottomUpStands(s, g.accept, v, t)
    ensures g.Sharpen? ==> SharpenStands(s, g.factor, v, t) && t.rel > 0.0
    ensures g.LockSet? ==> LockSetStands(s, v, t)
    ensures g.TopDown? || (nodes != [] ==> nodes[0] != [])
  {
    hide Sup, Sound, Distinct, AllTop, Reported;
    assert nodes != [] ==> nodes[0] in nodes;
  }

  // The queue after a round.
  ghost predicate Pushed(s: Space, h: Hyp, pushed: seq<Hyp>) {
    forall k :: k in pushed ==> k in s.best && Extends(h, k)
  }

  lemma {:induction false} QueueKeeps(s: Space, nodes: seq<Hyp>, pushed: seq<Hyp>)
    requires nodes != [] && (forall h :: h in nodes ==> h in s.best) && Pushed(s, nodes[0], pushed)
    ensures forall h :: h in nodes[1..] + pushed ==> h in s.best
    ensures [] !in nodes ==> [] !in nodes[1..] + pushed
  {
    forall h | h in nodes[1..] + pushed
      ensures h in s.best && ([] !in nodes ==> h != [])
    {
      assert h in nodes[1..] || h in pushed;
    }
  }

  lemma {:induction false} TopDownProgress(g: Strategy, s: Space, v: set<Hyp>, nodes: seq<Hyp>, pushed: seq<Hyp>,
      t: Standing, u: Standing)
    requires Sound(s) && g.TopDown? && nodes != [] && Progress(g, false, s, v, nodes, t)
    requires nodes[0] in s.best && TopDownStands(s, g.accept, v + {nodes[0]}, u) && Pushed(s, nodes[0], pushed)
    requires nodes[0] == [] || Leading(s, g.accept, nodes[0]) ==> Children(s, nodes[0], pushed)
    ensures Progress(g, false, s, v + {nodes[0]}, nodes[1..] + pushed, u)
  {
    QueueKeeps(s, nodes, pushed);
    TopDownCoversNext(s, g.accept, v, nodes, pushed);
    hide TopDownStands, TopDownCovers, Leading, Children, Pushed;
  }

  // With too many accesses without locks the walk ends where it begins, with the root as the winner.
  lemma {:induction false} IdleProgress(g: Strategy, s: Space, v: set<Hyp>, nodes: seq<Hyp>, t: Standing)
    requires Sound(s) && g.TopDown? && nodes != [] && Progress(g, true, s, v, nodes, t)
    ensures t.conflicts != [] && nodes[0] == []
    ensures Progress(g, true, s, v + {nodes[0]}, nodes[1..] + [], t.(found := true))
  {
    assert v == {};
    assert nodes[1..] + [] == [];
    assert v + {nodes[0]} == {[]} != {};
  }

  lemma {:induction false} LockSetProgress(s: Space, v: set<Hyp>, nodes: seq<Hyp>, pushed: seq<Hyp>, t: Standing,
      u: Standing)
    requires Sound(s) && nodes != [] && Progress(LockSet, false, s, v, nodes, t)
    requires nodes[0] in s.best && LockSetStands(s, v + {nodes[0]}, u) && Pushed(s, nodes[0], pushed)
    requires Sup(s, nodes[0]) == 1.0 ==> Children(s, nodes[0], pushed)
    ensures Progress(LockSet, false, s, v + {nodes[0]}, nodes[1..] + pushed, u)
  {
    QueueKeeps(s, nodes, pushed);
    LockSetCoversNext(s, v, nodes, pushed);
    hide LockSetStands, LockSetCovers, Children, Pushed, Sup;
  }

  // Winners are old ones, or the node just visited with all its children.
  ghost predicate Inherits(c: Conflicts, d: Conflicts, h: Hyp, expanded: bool) {
    forall e :: e in d ==> e in c || (e.0 == h && expanded)
  }

  lemma {:induction false} WinnersProgress(g: Strategy, s: Space, v: set<Hyp>, nodes: seq<Hyp>, pushed: seq<Hyp>,
      t: Standing, u: Standing)
    requires Sound(s) && (g.BottomUp? || g.Sharpen?) && nodes != [] && Progress(g, false, s, v, nodes, t)
    requires nodes[0] in s.best && Pushed(s, nodes[0], pushed)
    requires g.BottomUp? ==> BottomUpStands(s, g.accept, v + {nodes[0]}, u)
    requires g.Sharpen? ==> SharpenStands(s, g.factor, v + {nodes[0]}, u)
    requires Inherits(t.conflicts, u.conflicts, nodes[0], Children(s, nodes[0], pushed))
    ensures Progress(g, false, s, v + {nodes[0]}, nodes[1..] + pushed, u)
  {
    QueueKeeps(s, nodes, pushed);
    WinnersCoveredNext(s, v, nodes, pushed, t.conflicts, u.conflicts);
    hide BottomUpStands, SharpenStands, WinnersCovered, Children, Pushed;
  }

  // Queues of the two breadth-first walks -------------------------------------------------------------

  // The first n nodes have level locks, the others one more.
  ghost predicate Queue(nodes: seq<Hyp>, level: nat, n: nat) {
    && n <= |nodes| && (nodes != [] ==> n > 0)
    && forall i :: 0 <= i < |nodes| ==> |nodes[i]| == if i < n then level else level + 1
  }

  // A node is replaced by larger ones, so that a walk over finitely many sizes ends although the same
  // node may be queued again and again.
  lemma {:induction false} QueueNext(nodes: seq<Hyp>, level: nat, n: nat, pushed: seq<Hyp>) returns (l: nat, m: nat)
    requires Queue(nodes, level, n) && nodes != [] && forall k {:trigger k in pushed} :: k in pushed ==> |k| == level + 1
    ensures Queue(nodes[1..] + pushed, l, m)
    ensures (l == level && m < n) || l == level + 1
  {
    var rest := nodes[1..] + pushed;
    forall i | 0 <= i < |rest|
      ensures |rest[i]| == if i < n - 1 then level else level + 1
    {
      if i < |nodes| - 1 {
        assert rest[i] == nodes[i + 1];
      } else {
        assert rest[i] in pushed;
      }
    }
    l, m := if n > 1 then level else level + 1, if n > 1 then n - 1 else |rest|;
  }

  ghost predicate Reached(v: set<Hyp>, level: nat) {
    forall k {:trigger k in v} :: k in v ==> |k| <= level
  }

  lemma {:induction false} ReachedNone(level: nat)
    ensures Reached({}, level)
  {
  }

  lemma {:induction false} FrontNode(g: Strategy, idle: bool, s: Space, v: set<Hyp>, nodes: seq<Hyp>, t: Standing,
      level: nat, n: nat)
    requires Sound(s) && Progress(g, idle, s, v, nodes, t) && Queue(nodes, level, n) && Reached(v, level) && nodes != []
    ensures nodes[0] in s.best && |nodes[0]| == level && LevelSoFar(v, nodes[0])
  {
    assert nodes[0] in nodes;
  }

  lemma {:induction false} NextLevel(s: Space, v: set<Hyp>, nodes: seq<Hyp>, level: nat, n: nat,
      pushed: seq<Hyp>) returns (l: nat, m: nat)
    requires Queue(nodes, level, n) && nodes != [] && Reached(v, level) && Pushed(s, nodes[0], pushed)
    ensures Queue(nodes[1..] + pushed, l, m) && Reached(v + {nodes[0]}, l)
    ensures (l == level && m < n) || l == level + 1
  {
    assert |nodes[0]| == level;
    forall k | k in pushed
      ensures |k| == level + 1
    {
      ExtendsIsPart(nodes[0], k);
    }
    l, m := QueueNext(nodes, level, n, pushed);
    hide Queue, Pushed;
  }

  lemma {:induction false} QueueStarts(s: Space, nodes: seq<Hyp>)
    requires Children(s, [], nodes)
    ensures Queue(nodes, 1, |nodes|) && Queue([[]], 0, 1)
  {
    forall i | 0 <= i < |nodes|
      ensures |nodes[i]| == 1
    {
      assert nodes[i] in nodes;
    }
  }
}
