// One member of a data structure: its observed lock combinations, the hypotheses mined from them, the
// graph they form, and the winner (hypothesizer/hypothesizer.cc, struct Member and the functions on it).

module Hypothesizer {
  import opened LockLists
  import opened Support
  import opened Selection
  import opened Mining
  import Lex

  // The number of locks rhs has besides lhs when lhs is a contiguous part of it, else -1.
  method DiffHypotheses(lhs: Hyp, rhs: Hyp) returns (diff: int)
    requires |rhs| >= |lhs|
    ensures diff == if Part(lhs, rhs) then |rhs| - |lhs| else -1
  {
    diff := |rhs| - |lhs|;
    for i := 0 to diff + 1
      invariant forall j :: 0 <= j < i ==> !PartAt(lhs, rhs, j)
    {
      var found := 0;
      for k := 0 to |lhs|
        invariant 0 <= found <= k
        invariant found == k <==> lhs[..k] == rhs[i..i + k]
      {
        assert lhs[..k + 1] == lhs[..k] + [lhs[k]] && rhs[i..i + (k + 1)] == rhs[i..i + k] + [rhs[k + i]];
        if lhs[k] == rhs[k + i] {
          found := found + 1;
        }
      }
      assert lhs[..|lhs|] == lhs;
      if found == |lhs| {
        assert PartAt(lhs, rhs, i);
        return;
      }
    }
    return -1;
  }

  method InConflictList(conflicts: Conflicts, hypothesis: Hyp) returns (b: bool)
    ensures b <==> exists e :: e in conflicts && e.1 == hypothesis
  {
    for i := 0 to |conflicts|
      invariant forall e :: e in conflicts[..i] ==> e.1 != hypothesis
    {
      if conflicts[i].1 == hypothesis {
        return true;
      }
    }
    assert conflicts[..|conflicts|] == conflicts;
    return false;
  }

  // The walk of AddHypothesisToGraph has what it needs: nodes it saw, and nodes it still has.
  ghost predicate Walked(h: Hyp, v: set<Hyp>, nodes: seq<Hyp>) {
    && ([] in v || [] in nodes)
    && forall x, k {:trigger Extends(x, k)} :: x in v && Part(k, h) && |k| < |h| && Extends(x, k) ==> k in v || k in nodes
  }

  lemma {:induction false} WalkReaches(h: Hyp, v: set<Hyp>, k: Hyp)
    requires Walked(h, v, []) && Part(k, h) && |k| < |h|
    ensures k in v
  {
    if k != [] {
      var p := k[..|k| - 1];
      ExtendsIsPart(p, k);
      PartOfPart(p, k, h);
      WalkReaches(h, v, p);
    }
  }

  lemma {:induction false} WalkOn(h: Hyp, v: set<Hyp>, nodes: seq<Hyp>, pushed: seq<Hyp>)
    requires Walked(h, v, nodes) && nodes != []
    requires forall k {:trigger Extends(nodes[0], k)} {:trigger k in pushed} :: Part(k, h) && |k| < |h| && Extends(nodes[0], k) ==> k in pushed
    ensures Walked(h, v + {nodes[0]}, nodes[1..] + pushed)
  {
    var w, rest := v + {nodes[0]}, nodes[1..] + pushed;
    assert forall k :: k in nodes ==> k == nodes[0] || k in nodes[1..];
  }

  lemma {:induction false} WalkPushed(h: Hyp, cur: Hyp, keys: set<Hyp>, pushed: seq<Hyp>)
    requires |cur| < |h| && forall k {:trigger Part(k, h)} {:trigger k in keys} :: Part(k, h) && |k| < |h| ==> k in keys
    requires Part(cur, h) && |cur| + 1 < |h| ==> forall k :: k in pushed <==> k in keys && Extends(cur, k)
    requires !(Part(cur, h) && |cur| + 1 < |h|) ==> pushed == []
    ensures forall k {:trigger Extends(cur, k)} {:trigger k in pushed} :: Part(k, h) && |k| < |h| && Extends(cur, k) ==> k in pushed
    ensures forall k {:trigger k in pushed} :: k in pushed ==> |k| == |cur| + 1 < |h|
  {
    forall k | Extends(cur, k)
      ensures |k| == |cur| + 1 && (Part(k, h) ==> Part(cur, h))
    {
      ExtendsIsPart(cur, k);
      if Part(k, h) {
        PartOfPart(cur, k, h);
      }
    }
    hide Extends, Part;
  }

  class Member {
    var occurrences: nat
    var occurrencesWithLocks: nat
    var combinations: seq<Combination>
    var hypotheses: map<Hyp, Matches>
    var graph: map<Hyp, set<Hyp>>
    var conflicts: Conflicts
    var winner: Hyp
    var winnerFound: bool

    ghost function Kids(h: Hyp): set<Hyp>
      reads this`graph
    {
      if h in graph then graph[h] else {}
    }

    // The graph has exactly the edges to each hypothesis of keys from those with one lock less, at its
    // end or at its start.
    ghost predicate Linked(keys: set<Hyp>)
      reads this`graph
    {
      forall x, k :: k in Kids(x) <==> k in keys && Extends(x, k)
    }

    lemma {:induction false} LinkedRoot(keys: set<Hyp>)
      requires Linked(keys - {[]})
      ensures Linked(keys)
    {
      forall x, k
        ensures k in Kids(x) <==> k in keys && Extends(x, k)
      {
        assert k in Kids(x) <==> k in keys - {[]} && Extends(x, k);
      }
    }

    // graph[h] creates the entry it does not find.
    method Children(h: Hyp) returns (r: seq<Hyp>)
      modifies this`graph
      ensures forall x :: Kids(x) == old(Kids(x))
      ensures Lex.Rising(r) && forall k :: k in r <==> k in Kids(h)
    {
      if h !in graph {
        graph := graph[h := {}];
      }
      r := Lex.Sorted(graph[h]);
    }

    // graph[h].emplace(k)
    method Emplace(h: Hyp, k: Hyp)
      modifies this`graph
      ensures forall x :: Kids(x) == old(Kids(x)) + if x == h then {k} else {}
    {
      graph := graph[h := (if h in graph then graph[h] else {}) + {k}];
    }

    // Linked, but to h only from the nodes of v.
    ghost predicate Linking(keys: set<Hyp>, h: Hyp, v: set<Hyp>)
      reads this`graph
    {
      forall x, k :: k in Kids(x) <==> Extends(x, k) && (k in keys || (k == h && x in v))
    }

    lemma {:induction false} LinkingDone(keys: set<Hyp>, h: Hyp, v: set<Hyp>)
      requires Linking(keys, h, v) && Walked(h, v, [])
      ensures Linked(keys + {h})
    {
      forall x | Extends(x, h)
        ensures x in v
      {
        ExtendsIsPart(x, h);
        WalkReaches(h, v, x);
      }
      hide Extends;
    }

    // One node of that walk; its children are queued if more than one lock is missing.
    method VisitNode(cur: Hyp, hypothesis: Hyp, ghost keys: set<Hyp>, ghost v: set<Hyp>) returns (pushed: seq<Hyp>)
      requires |cur| < |hypothesis| && Linking(keys, hypothesis, v)
      modifies this`graph
      ensures Linking(keys, hypothesis, v + {cur})
      ensures Part(cur, hypothesis) && |cur| + 1 < |hypothesis| ==> forall k :: k in pushed <==> k in keys && Extends(cur, k)
      ensures !(Part(cur, hypothesis) && |cur| + 1 < |hypothesis|) ==> pushed == []
    {
      pushed := [];
      var ret := DiffHypotheses(cur, hypothesis);
      ExtendsIsPart(cur, hypothesis);
      hide Extends, Part;
      assert ret != 0;
      if ret > 0 {
        if ret == 1 {
          Emplace(cur, hypothesis);
        } else {
          pushed := Children(cur);
        }
      }
    }

    method AddHypothesisToGraph(hypothesis: Hyp)
      requires hypothesis in hypotheses && Linked(hypotheses.Keys - {hypothesis})
      requires forall k {:trigger Part(k, hypothesis)} {:trigger k in hypotheses} :: Part(k, hypothesis) && |k| < |hypothesis| ==> k in hypotheses
      modifies this`graph
      ensures Linked(hypotheses.Keys)
    {
      if |hypothesis| == 0 {
        assert hypothesis == [];
        LinkedRoot(hypotheses.Keys);
        return;
      }
      var nodes := [[]];
      ghost var level, n, v: set<Hyp> := 0, 1, {};
      ghost var keys := hypotheses.Keys - {hypothesis};
      hide Extends, Part;
      while |nodes| > 0
        invariant Queue(nodes, level, n) && forall k {:trigger k in nodes} :: k in nodes ==> |k| < |hypothesis|
        invariant Walked(hypothesis, v, nodes)
        invariant Linking(keys, hypothesis, v)
        decreases |hypothesis| - level, n
      {
        var cur := nodes[0];
        assert cur in nodes && forall k :: k in nodes[1..] ==> k in nodes;
        var pushed := VisitNode(cur, hypothesis, keys, v);
        WalkPushed(hypothesis, cur, keys, pushed);
        WalkOn(hypothesis, v, nodes, pushed);
        hide Walked;
        level, n := QueueNext(nodes, level, n, pushed);
        v := v + {cur};
        nodes := nodes[1..] + pushed;
      }
      LinkingDone(keys, hypothesis, v);
      assert keys + {hypothesis} == hypotheses.Keys;
    }

    // Every entry of the table is right.
    ghost predicate Tabled()
      reads this`combinations, this`hypotheses
    {
      Observed(combinations) && forall h :: h in hypotheses ==> Known(hypotheses[h], combinations, h)
    }

    ghost predicate Valid()
      reads this`combinations, this`hypotheses, this`graph
    {
      Tabled() && Linked(hypotheses.Keys)
    }

    method Tally(hypothesis: Hyp) returns (matches: Matches)
      requires Observed(combinations) && Strict(hypothesis)
      ensures Tallied(matches, combinations, hypothesis)
    {
      matches := Matches(0, [], map[]);
      for i := 0 to |combinations|
        invariant Tallied(matches, combinations[..i], hypothesis)
      {
        var lc := combinations[i];
        TallyOn(matches, combinations, hypothesis, i);
        hide Tallied;
        StrictWithin(hypothesis, lc.held);
        var b := lc.ContainsLocks(hypothesis);
        if b {
          var order := lc.LockOrder(hypothesis);
          matches := Matches(matches.occurrences + lc.occurrences, hypothesis, Raised(matches.orders, order, lc.occurrences));
        }
      }
      assert combinations[..|combinations|] == combinations;
    }

    method EvaluateHypothesis(hypothesis: Hyp)
      requires Valid() && Strict(hypothesis) && Seen(combinations, hypothesis)
      requires forall k {:trigger Part(k, hypothesis)} {:trigger k in hypotheses} :: Part(k, hypothesis) && |k| < |hypothesis| ==> k in hypotheses
      modifies this`hypotheses, this`graph
      ensures Valid() && hypotheses.Keys == old(hypotheses.Keys) + {hypothesis}
      ensures forall h :: h in old(hypotheses) ==> hypotheses[h] == old(hypotheses[h])
    {
      if hypothesis in hypotheses {
        return;
      }
      var matches := Tally(hypothesis);
      assert Known(matches, combinations, hypothesis);
      hide Known, Part, Linked, Observed, Seen, Strict;
      hypotheses := hypotheses[hypothesis := matches];
      assert hypotheses.Keys - {hypothesis} == old(hypotheses.Keys);
      AddHypothesisToGraph(hypothesis);
    }

    lemma {:induction false} FilledParts(h: Hyp)
      requires Filled(combinations, hypotheses.Keys, |h|) && Wanted(combinations, 0, h)
      ensures forall k {:trigger Part(k, h)} {:trigger k in hypotheses} :: Part(k, h) && |k| < |h| ==> k in hypotheses
    {
      forall k | Part(k, h) && |k| < |h|
        ensures k in hypotheses
      {
        PartWanted(combinations, 0, k, h);
      }
    }

    method FindHypothesesRek(ghost i: nat, lc: Combination, nextLockpos: nat, cur: Hyp, depth: nat)
      requires Valid() && i < |combinations| && combinations[i] == lc && nextLockpos <= |lc.sorted|
      requires Chosen(lc, cur, nextLockpos)
      requires Filled(combinations, hypotheses.Keys, |cur| + depth)
      modifies this`hypotheses, this`graph
      ensures Valid()
      ensures forall h :: h in hypotheses <==> h in old(hypotheses) || Completes(h, cur, depth, lc.sorted, nextLockpos)
      decreases depth
    {
      hide Completes, Begun, Known, Part, Linked, Chosen, Wanted, Observed, Seen, Strict, Combination.Valid, Filled;
      ChosenIs(combinations, i, cur, nextLockpos);
      if depth == 0 {
        FilledParts(cur);
        CompletesWhole(cur, lc.sorted, nextLockpos);
        EvaluateHypothesis(cur);
        return;
      }
      BegunEnds(cur, depth, lc.sorted, nextLockpos);
      for lockpos := nextLockpos to |lc.sorted|
        invariant Valid() && Filled(combinations, hypotheses.Keys, |cur| + depth)
        invariant forall h :: h in hypotheses <==>
          h in old(hypotheses) || Begun(h, cur, depth, lc.sorted, nextLockpos, lockpos)
      {
        var x := lc.sorted[lockpos];
        BegunNext(cur, depth, lc.sorted, nextLockpos, lockpos);
        if x in cur {
          continue;
        }
        ChosenNext(lc, cur, nextLockpos, lockpos);
        ghost var keys := hypotheses.Keys;
        FindHypothesesRek(i, lc, lockpos + 1, cur + [x], depth - 1);
        FilledStays(combinations, keys, hypotheses.Keys, |cur| + depth);
      }
    }

    // All hypotheses of depth locks, combination by combination.
    method FindLevel(depth: nat)
      requires Valid() && Exactly(combinations, hypotheses.Keys, depth)
      modifies this`hypotheses, this`graph
      ensures Valid() && Exactly(combinations, hypotheses.Keys, depth + 1) && old(hypotheses.Keys) <= hypotheses.Keys
    {
      ghost var before := hypotheses.Keys;
      for i := 0 to |combinations|
        invariant Valid() && Filled(combinations, hypotheses.Keys, depth) && before <= hypotheses.Keys
        invariant Partly(combinations, before, hypotheses.Keys, depth, i)
      {
        ghost var keys := hypotheses.Keys;
        assert combinations[i].Valid() && Chosen(combinations[i], [], 0);
        hide Completes, Known, Linked, Chosen, Wanted, Partly;
        FindHypothesesRek(i, combinations[i], 0, [], depth);
        PartlyNext(combinations, before, keys, hypotheses.Keys, depth, i);
      }
      PartlyDone(combinations, before, hypotheses.Keys, depth);
    }

    method FindHypotheses(maxHypoLen: nat)
      requires Observed(combinations) && hypotheses == map[] && graph == map[]
      modifies this`hypotheses, this`graph
      ensures Valid() && forall h :: h in hypotheses <==> Wanted(combinations, maxHypoLen, h)
    {
      var depth := 0;
      while true
        invariant Valid() && (maxHypoLen > 0 ==> depth <= maxHypoLen) && depth <= Longest(combinations) + 1
        invariant Exactly(combinations, hypotheses.Keys, depth)
        decreases Longest(combinations) + 1 - depth
      {
        var prev := |hypotheses|;
        ghost var before := hypotheses.Keys;
        FindLevel(depth);
        hide Exactly, Known, Linked, Wanted;
        assert |hypotheses| == |hypotheses.Keys| && prev == |before|;
        if prev == |hypotheses| || (maxHypoLen > 0 && depth >= maxHypoLen) {
          LevelsEnd(combinations, maxHypoLen, before, hypotheses.Keys, depth);
          break;
        }
        LevelsBound(combinations, before, hypotheses.Keys, depth);
        depth := depth + 1;
      }
    }

    // What the input provides: every access counted in one combination.
    ghost predicate Counted()
      reads this`combinations, this`occurrences, this`occurrencesWithLocks
    {
      && Observed(combinations) && combinations != []
      && occurrences == Occurrences(combinations, []) && occurrencesWithLocks == WithLocks(combinations)
    }

    ghost predicate Mined(limit: nat)
      reads this`combinations, this`occurrences, this`occurrencesWithLocks, this`hypotheses
    {
      Counted() && Tabled() && forall h :: h in hypotheses <==> Wanted(combinations, limit, h)
    }

    ghost function AsSpace(): Space
      requires Tabled()
      reads this`combinations, this`hypotheses, this`occurrences
    {
      SpaceOf(combinations, hypotheses.Keys, occurrences)
    }

    lemma {:induction false} MinedSpace(limit: nat)
      requires Mined(limit)
      ensures forall h :: h in hypotheses ==> Seen(combinations, h)
      ensures Tabled() && Sound(AsSpace()) && AsSpace().best.Keys == hypotheses.Keys && AsSpace().total == occurrences > 0
      ensures forall h :: h in hypotheses ==>
        && Known(hypotheses[h], combinations, h)
        && AsSpace().best[h] == Best(combinations, h) && AsSpace().rep[h] == Representative(combinations, h)
    {
      MinedIsSound(combinations, limit, hypotheses.Keys);
      hide Sound, Known;
    }

    // The most frequent order, and how often it occurs.
    method MostFrequent(h: Hyp) returns (ordered: Hyp, count: nat)
      requires Tabled() && h in hypotheses
      ensures Seen(combinations, h) && ordered == Representative(combinations, h) && count == Best(combinations, h)
    {
      var matches := hypotheses[h].orders;
      ordered, count := [], 0;
      var keys := Lex.Sorted(matches.Keys);
      assert Known(hypotheses[h], combinations, h);
      assert forall k :: k in keys ==> k in matches && matches[k] > 0;
      for i := 0 to |keys|
        invariant Picked(keys, matches, i, ordered, count)
      {
        PickedNext(keys, matches, i, ordered, count);
        hide Picked;
        if matches[keys[i]] > count {
          count := matches[keys[i]];
          ordered := keys[i];
        }
      }
      PickedIsRepresentative(hypotheses[h], combinations, h, keys, ordered, count);
      count := matches[ordered];
    }

    // Selection ------------------------------------------------------------------------------------------

    ghost function Now(rel: real): Standing
      reads this`conflicts, this`winnerFound
    {
      Standing(conflicts, winnerFound, rel)
    }

    lemma {:induction false} NowParts(rel: real)
      ensures Now(rel).found == winnerFound && Now(rel).conflicts == conflicts && Now(rel).rel == rel
    {
    }

    // What determine_winning_hypothesis hands to a callback.
    ghost predicate Called(s: Space, v: set<Hyp>, nodes: seq<Hyp>, cur: Hyp, ordered: Hyp, sup: real)
      reads this`graph
    {
      && Sound(s) && Linked(s.best.Keys) && nodes != [] && nodes[0] == cur && cur in s.best
      && ordered == s.rep[cur] && sup == Sup(s, cur) && LevelSoFar(v, cur)
    }

    // Save an equal hypothesis, unless it is in the list already.
    method Save(cur: Hyp, ordered: Hyp)
      modifies this`conflicts
      ensures conflicts == Added(old(conflicts), (cur, ordered))
    {
      var known := InConflictList(conflicts, ordered);
      if !known {
        conflicts := conflicts + [(cur, ordered)];
      }
    }

    // The callbacks return the children they queue, and the new support of the winner.
    method EvaluateTopDown(accept: real, nolock: real, ghost nodes: seq<Hyp>, cur: Hyp, ordered: Hyp, rel: real, sup: real,
                           ghost s: Space, ghost v: set<Hyp>)
      returns (pushed: seq<Hyp>, newRel: real)
      requires Called(s, v, nodes, cur, ordered, sup) && occurrences > 0
      requires Progress(TopDown(accept, nolock), TooManyUnlocked(nolock), s, v, nodes, Now(rel))
      modifies this`graph, this`conflicts, this`winnerFound
      ensures Linked(s.best.Keys) && Pushed(s, cur, pushed)
      ensures Progress(TopDown(accept, nolock), TooManyUnlocked(nolock), s, v + {cur}, nodes[1..] + pushed, Now(newRel))
    {
      pushed, newRel := [], rel;
      var nolockFraction := Fraction(occurrences - occurrencesWithLocks, occurrences);
      var nolockIsWinner := nolockFraction >= nolock;
      if !nolockIsWinner {
        hide Progress, Linked, Pushed;
        pushed, newRel := CompareTopDown(accept, nolock, nodes, cur, ordered, rel, sup, s, v);
      } else {
        IdleProgress(TopDown(accept, nolock), s, v, nodes, Now(rel));
        hide Progress, Linked;
        winnerFound := true;
        conflicts := if |conflicts| == 0 then ROOT else conflicts;
      }
    }

    // The branch for members that are mostly accessed with locks held.
    method CompareTopDown(accept: real, ghost nolock: real, ghost nodes: seq<Hyp>, cur: Hyp, ordered: Hyp, rel: real,
        sup: real,
                          ghost s: Space, ghost v: set<Hyp>)
      returns (pushed: seq<Hyp>, newRel: real)
      requires Called(s, v, nodes, cur, ordered, sup)
      requires Progress(TopDown(accept, nolock), false, s, v, nodes, Now(rel))
      modifies this`graph, this`conflicts, this`winnerFound
      ensures Linked(s.best.Keys) && Pushed(s, cur, pushed)
      ensures Progress(TopDown(accept, nolock), false, s, v + {cur}, nodes[1..] + pushed, Now(newRel))
    {
      hide BottomUpStands, TopDownStands, SharpenStands, LockSetStands, WinnersCovered, TopDownCovers, Leading, Progress;
      hide Sound, Sup, Tops, LevelSoFar, Extends, Added;
      pushed, newRel := [], rel;
      ghost var t := Now(rel);
      ProgressOpens(TopDown(accept, nolock), s, v, nodes, t);
      if cur == [] {
        TopDownRoot(s, accept, v, t);
        pushed := Children(cur);
      } else if |conflicts[0].0| == |cur| && sup == rel {
        TopDownJoin(s, accept, v, t, cur);
        Save(cur, ordered);
        pushed := Children(cur);
      } else if accept <= sup && sup >= rel && |conflicts[0].0| <= |cur| {
        TopDownReplace(s, accept, v, t, cur);
        winnerFound := true;
        conflicts := [(cur, ordered)];
        newRel := sup;
        pushed := Children(cur);
      } else {
        TopDownSkip(s, accept, v, t, cur);
      }
      TopDownProgress(TopDown(accept, nolock), s, v, nodes, pushed, t, Now(newRel));
    }

    predicate TooManyUnlocked(nolock: real)
      requires occurrences > 0
      reads this`occurrences, this`occurrencesWithLocks
    {
      Fraction(occurrences - occurrencesWithLocks, occurrences) >= nolock
    }

    method EvaluateLockSet(ghost nodes: seq<Hyp>, cur: Hyp, ordered: Hyp, rel: real, sup: real, ghost s: Space,
        ghost v: set<Hyp>)
      returns (pushed: seq<Hyp>)
      requires Called(s, v, nodes, cur, ordered, sup)
      requires Progress(LockSet, false, s, v, nodes, Now(rel))
      modifies this`graph, this`conflicts, this`winnerFound
      ensures Linked(s.best.Keys) && Pushed(s, cur, pushed)
      ensures Progress(LockSet, false, s, v + {cur}, nodes[1..] + pushed, Now(rel))
    {
      hide BottomUpStands, TopDownStands, SharpenStands, LockSetStands, WinnersCovered, TopDownCovers, Leading, Progress;
      hide Sound, Sup, Tops, LevelSoFar, Extends, Added;
      pushed := [];
      ghost var t := Now(rel);
      ProgressOpens(LockSet, s, v, nodes, t);
      LockSetLevel(s, v, t, cur);
      SupFacts(s, cur, cur);
      if sup < 1.0 {
        LockSetSkip(s, v, t, cur);
        LockSetProgress(s, v, nodes, pushed, t, Now(rel));
        return;
      }
      if |conflicts[0].0| == |cur| {
        LockSetJoin(s, v, t, cur);
        Save(cur, ordered);
        pushed := Children(cur);
      } else if |conflicts[0].0| <= |cur| {
        LockSetReplace(s, v, t, cur);
        winnerFound := true;
        conflicts := [(cur, ordered)];
        pushed := Children(cur);
      }
      LockSetProgress(s, v, nodes, pushed, t, Now(rel));
    }

    method EvaluateBottomUp(accept: real, ghost nodes: seq<Hyp>, cur: Hyp, ordered: Hyp, rel: real, sup: real,
                            ghost s: Space, ghost v: set<Hyp>)
      returns (pushed: seq<Hyp>, newRel: real)
      requires Called(s, v, nodes, cur, ordered, sup)
      requires Progress(BottomUp(accept), false, s, v, nodes, Now(rel))
      modifies this`graph, this`conflicts, this`winnerFound
      ensures Linked(s.best.Keys) && Pushed(s, cur, pushed)
      ensures Progress(BottomUp(accept), false, s, v + {cur}, nodes[1..] + pushed, Now(newRel))
    {
      hide BottomUpStands, TopDownStands, SharpenStands, LockSetStands, WinnersCovered, TopDownCovers, Leading, Progress;
      hide Sound, Sup, Tops, LevelSoFar, Extends, Added;
      pushed, newRel := [], rel;
      ghost var t := Now(rel);
      ProgressOpens(BottomUp(accept), s, v, nodes, t);
      if |conflicts[0].0| == |cur| && sup == rel {
        BottomUpJoin(s, accept, v, t, cur);
        Save(cur, ordered);
        pushed := Children(cur);
      } else if (accept <= sup && sup < rel) || (|cur| > |conflicts[0].0| && sup == rel) {
        BottomUpReplace(s, accept, v, t, cur);
        winnerFound := true;
        conflicts := [(cur, ordered)];
        newRel := sup;
        pushed := Children(cur);
      } else {
        BottomUpSkip(s, accept, v, t, cur);
      }
      WinnersProgress(BottomUp(accept), s, v, nodes, pushed, t, Now(newRel));
    }

    method EvaluateSharpen(factor: real, ghost nodes: seq<Hyp>, cur: Hyp, ordered: Hyp, rel: real, sup: real,
                           ghost s: Space, ghost v: set<Hyp>)
      returns (pushed: seq<Hyp>, newRel: real)
      requires Called(s, v, nodes, cur, ordered, sup) && 0.0 <= factor <= 1.0
      requires Progress(Sharpen(factor), false, s, v, nodes, Now(rel))
      modifies this`graph, this`conflicts, this`winnerFound
      ensures Linked(s.best.Keys) && Pushed(s, cur, pushed)
      ensures Progress(Sharpen(factor), false, s, v + {cur}, nodes[1..] + pushed, Now(newRel))
    {
      hide BottomUpStands, TopDownStands, SharpenStands, LockSetStands, WinnersCovered, TopDownCovers, Leading, Progress;
      hide Sound, Sup, Tops, LevelSoFar, Extends, Added;
      pushed, newRel := [], rel;
      ghost var t := Now(rel);
      ProgressOpens(Sharpen(factor), s, v, nodes, t);
      var delta := Loss(sup, rel);
      if |conflicts[0].0| == |cur| && sup == rel {
        SharpenJoin(s, factor, v, t, cur);
        Save(cur, ordered);
        pushed := Children(cur);
      } else if (|conflicts[0].0| == |cur| && sup > rel) || (|cur| > |conflicts[0].0| && (sup == rel || delta <= factor)) {
        SharpenReplace(s, factor, v, t, cur);
        winnerFound := true;
        conflicts := [(cur, ordered)];
        newRel := sup;
        pushed := Children(cur);
      } else {
        SharpenSkip(s, factor, v, t, cur);
      }
      WinnersProgress(Sharpen(factor), s, v, nodes, pushed, t, Now(newRel));
    }

    predicate Idle(g: Strategy)
      requires occurrences > 0
      reads this`occurrences, this`occurrencesWithLocks
    {
      g.TopDown? && TooManyUnlocked(g.nolock)
    }

    // eval_cb
    method Evaluate(g: Strategy, ghost nodes: seq<Hyp>, cur: Hyp, ordered: Hyp, rel: real, sup: real, ghost s: Space,
        ghost v: set<Hyp>)
      returns (pushed: seq<Hyp>, newRel: real)
      requires Called(s, v, nodes, cur, ordered, sup) && occurrences > 0 && (g.Sharpen? ==> 0.0 <= g.factor <= 1.0)
      requires Progress(g, Idle(g), s, v, nodes, Now(rel))
      modifies this`graph, this`conflicts, this`winnerFound
      ensures Linked(s.best.Keys) && Pushed(s, cur, pushed)
      ensures Progress(g, Idle(g), s, v + {cur}, nodes[1..] + pushed, Now(newRel))
    {
      hide Progress, Linked, Pushed, Called;
      match g
      case TopDown(accept, nolock) =>
        pushed, newRel := EvaluateTopDown(accept, nolock, nodes, cur, ordered, rel, sup, s, v);
      case LockSet =>
        pushed := EvaluateLockSet(nodes, cur, ordered, rel, sup, s, v);
        newRel := rel;
      case BottomUp(accept) =>
        pushed, newRel := EvaluateBottomUp(accept, nodes, cur, ordered, rel, sup, s, v);
      case Sharpen(factor) =>
        pushed, newRel := EvaluateSharpen(factor, nodes, cur, ordered, rel, sup, s, v);
    }

    // The root as the default winner, its children as the first nodes; then init_cb.
    method Start(g: Strategy, ghost s: Space) returns (nodes: seq<Hyp>, rel: real)
      requires Sound(s) && Linked(s.best.Keys) && occurrences > 0 && (g.Sharpen? ==> 0.0 <= g.factor <= 1.0)
      modifies this`graph, this`conflicts, this`winnerFound
      ensures Linked(s.best.Keys) && Progress(g, Idle(g), s, {}, nodes, Now(rel))
      ensures Queue(nodes, if g.TopDown? then 0 else 1, |nodes|)
    {
      rel := 1.0;
      conflicts := ROOT;
      winnerFound := true;
      nodes := Children([]);
      ProgressStarts(g, Idle(g), s, nodes);
      QueueStarts(s, nodes);
      hide Progress, Queue;
      if g.TopDown? {
        rel := 0.0;
        winnerFound := false;
        nodes := [[]];
      }
    }

    // The node to look at next, its reported order and its relative support.
    method Examine(ghost g: Strategy, ghost limit: nat, ghost s: Space, ghost v: set<Hyp>, nodes: seq<Hyp>,
        ghost t: Standing,
                   ghost level: nat, ghost n: nat)
      returns (cur: Hyp, ordered: Hyp, sup: real)
      requires Mined(limit) && occurrences > 0 && s == AsSpace() && Sound(s) && Linked(s.best.Keys)
      requires nodes != [] && Progress(g, Idle(g), s, v, nodes, t) && Queue(nodes, level, n) && Reached(v, level)
      ensures nodes[0] == cur && Called(s, v, nodes, cur, ordered, sup) && level <= Longest(combinations)
    {
      cur := nodes[0];
      FrontNode(g, Idle(g), s, v, nodes, t, level, n);
      WantedSize(combinations, limit, cur);
      MinedSpace(limit);
      hide Progress, Queue, Reached, Known, Sound, Linked, LevelSoFar;
      var count;
      ordered, count := MostFrequent(cur);
      sup := Fraction(count, occurrences);
    }

    // The search; nodes may be queued again and again.
    method Search(g: Strategy, ghost limit: nat, ghost s: Space, start: seq<Hyp>, startRel: real) returns (rel: real)
      requires Mined(limit) && occurrences > 0 && s == AsSpace() && Sound(s) && Linked(s.best.Keys)
      requires g.Sharpen? ==> 0.0 <= g.factor <= 1.0
      requires Progress(g, Idle(g), s, {}, start, Now(startRel))
      requires Queue(start, if g.TopDown? then 0 else 1, |start|)
      modifies this`graph, this`conflicts, this`winnerFound
      ensures Linked(s.best.Keys) && Result(g, Idle(g), s, Now(rel))
    {
      hide *;
      var nodes := start;
      rel := startRel;
      ghost var v: set<Hyp> := {};
      ghost var level: nat := if g.TopDown? then 0 else 1;
      ghost var n: nat := |nodes|;
      ReachedNone(level);
      while |nodes| > 0
        invariant Queue(nodes, level, n) && Linked(s.best.Keys)
        invariant Progress(g, Idle(g), s, v, nodes, Now(rel))
        invariant Reached(v, level)
        decreases Longest(combinations) - level, n
      {
        var cur, ordered, sup := Examine(g, limit, s, v, nodes, Now(rel), level, n);
        var pushed;
        pushed, rel := Evaluate(g, nodes, cur, ordered, rel, sup, s, v);
        level, n := NextLevel(s, v, nodes, level, n, pushed);
        v := v + {cur};
        nodes := nodes[1..] + pushed;
      }
      ProgressEnds(g, Idle(g), s, v, Now(rel));
    }

    method DetermineWinningHypothesis(g: Strategy, ghost limit: nat) returns (rel: real)
      requires Mined(limit) && Linked(hypotheses.Keys) && (g.Sharpen? ==> 0.0 <= g.factor <= 1.0)
      modifies this`graph, this`conflicts, this`winnerFound, this`winner
      ensures Sound(AsSpace()) && occurrences > 0 && Linked(hypotheses.Keys)
      ensures Result(g, Idle(g), AsSpace(), Now(rel))
      ensures winner == if winnerFound then conflicts[0].1 else old(winner)
    {
      hide *;
      MinedSpace(limit);
      ghost var s := AsSpace();
      var nodes;
      nodes, rel := Start(g, s);
      rel := Search(g, limit, s, nodes, rel);
      ResultListed(g, Idle(g), s, Now(rel));
      NowParts(rel);
      if winnerFound {
        winner := conflicts[0].1;
      }
    }

    // What main does with each member.
    method Analyze(maxHypoLen: nat, g: Strategy) returns (rel: real)
      requires Counted() && hypotheses == map[] && graph == map[] && (g.Sharpen? ==> 0.0 <= g.factor <= 1.0)
      modifies this`hypotheses, this`graph, this`conflicts, this`winnerFound, this`winner
      ensures Mined(maxHypoLen) && Linked(hypotheses.Keys) && Sound(AsSpace()) && occurrences > 0
      ensures Result(g, Idle(g), AsSpace(), Now(rel))
      ensures winnerFound ==> conflicts != [] && winner == conflicts[0].1
      ensures g.TopDown? && AtLeast(Unlocked(combinations), g.nolock, occurrences) ==>
        winnerFound && conflicts == ROOT
      ensures g.TopDown? && !AtLeast(Unlocked(combinations), g.nolock, occurrences) ==>
        && (winnerFound <==> SomeAccepted(combinations, maxHypoLen, g.accept))
        && (winnerFound ==>
              Distinct(conflicts) && forall e :: e in conflicts <==> BestSupported(combinations, maxHypoLen, e))
      ensures g.LockSet? ==>
        winnerFound && Distinct(conflicts) && forall e :: e in conflicts <==> LargestFull(combinations, maxHypoLen, e)
      ensures g.BottomUp? || g.Sharpen? ==>
        winnerFound && conflicts != [] && Distinct(conflicts) && OneRank(combinations, conflicts)
      ensures g.BottomUp? ==> forall e :: e in conflicts ==> BottomUpChoice(combinations, maxHypoLen, g.accept, e)
      ensures g.Sharpen? ==> forall e :: e in conflicts ==> SharpenChoice(combinations, maxHypoLen, g.factor, e)
    {
      hide Counted, Linked, Wanted, Sound, Result, Known, Observed, Unlocked, SomeAccepted, AtLeast;
      hide BottomUpChoice, SharpenChoice, OneRank;
      CountedIs();
      FindHypotheses(maxHypoLen);
      rel := DetermineWinningHypothesis(g, maxHypoLen);
      ResultListed(g, Idle(g), AsSpace(), Now(rel));
      Winners(g, maxHypoLen, rel);
    }

    // Accesses without locks win exactly if they are frequent enough.
    lemma {:induction false} IdleIff(g: Strategy)
      requires Counted() && occurrences > 0 && g.TopDown?
      ensures Idle(g) <==> AtLeast(Unlocked(combinations), g.nolock, occurrences)
    {
      hide Fraction, AtLeast, Unlocked, WithLocks, Occurrences, Observed;
      LockedOrNot(combinations);
      FractionReaches(occurrences - occurrencesWithLocks, occurrences, g.nolock);
    }

    lemma {:induction false} CountedOccurrences()
      requires Counted()
      ensures occurrences == Occurrences(combinations, []) && combinations != [] && Observed(combinations)
    {
      hide Observed, Occurrences, WithLocks;
    }

    lemma {:induction false} Accepts(limit: nat, accept: real)
      requires Mined(limit) && Sound(AsSpace()) && occurrences > 0
      ensures SomeAccepted(combinations, limit, accept) <==>
        exists h :: h in AsSpace().best && |h| == 1 && accept <= Sup(AsSpace(), h)
    {
      hide Sound, Known, Wanted, Fraction, Best, Observed, AtLeast;
      MinedSpace(limit);
      forall h | h in AsSpace().best
        ensures accept <= Sup(AsSpace(), h) <==> AtLeast(Best(combinations, h), accept, occurrences)
      {
        FractionReaches(Best(combinations, h), occurrences, accept);
      }
      if h :| Wanted(combinations, limit, h) && |h| == 1 && AtLeast(Best(combinations, h), accept, occurrences) {
        assert h in AsSpace().best;
      }
    }

    // The results without the detour over a space.
    lemma {:induction false} Winners(g: Strategy, limit: nat, rel: real)
      requires Mined(limit) && Sound(AsSpace()) && occurrences > 0 && Result(g, Idle(g), AsSpace(), Now(rel))
      ensures g.TopDown? && AtLeast(Unlocked(combinations), g.nolock, occurrences) ==>
        winnerFound && conflicts == ROOT
      ensures g.TopDown? && !AtLeast(Unlocked(combinations), g.nolock, occurrences) ==>
        && (winnerFound <==> SomeAccepted(combinations, limit, g.accept))
        && (winnerFound ==>
              Distinct(conflicts) && forall e :: e in conflicts <==> BestSupported(combinations, limit, e))
      ensures g.LockSet? ==>
        winnerFound && Distinct(conflicts) && forall e :: e in conflicts <==> LargestFull(combinations, limit, e)
      ensures g.BottomUp? || g.Sharpen? ==>
        winnerFound && conflicts != [] && Distinct(conflicts) && OneRank(combinations, conflicts)
      ensures g.BottomUp? ==> forall e :: e in conflicts ==> BottomUpChoice(combinations, limit, g.accept, e)
      ensures g.Sharpen? ==> forall e :: e in conflicts ==> SharpenChoice(combinations, limit, g.factor, e)
    {
      hide Sound, Known, Tops, Distinct, BestSupported, LargestFull, Wanted, Unlocked, SomeAccepted, Sup, AtLeast, Idle;
      hide Counted, Observed, BottomUpChoice, SharpenChoice, OneRank, Equals, Power, Kept;
      MinedSpace(limit);
      CountedOccurrences();
      if g.TopDown? {
        IdleIff(g);
        if !Idle(g) {
          Accepts(limit, g.accept);
          if winnerFound {
            TopDownWinners(combinations, limit, hypotheses.Keys, g.accept, Now(rel));
          }
        }
      }
      if g.LockSet? {
        LockSetWinners(combinations, limit, hypotheses.Keys, Now(rel));
      }
      if g.BottomUp? {
        BottomUpWinners(combinations, limit, hypotheses.Keys, g.accept, Now(rel));
      }
      if g.Sharpen? {
        SharpenWinners(combinations, limit, hypotheses.Keys, g.factor, Now(rel));
      }
    }

    lemma {:induction false} CountedIs()
      requires Counted()
      ensures Observed(combinations)
    {
    }
  }
}
