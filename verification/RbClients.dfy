// The tables kept in red-black trees: the functions of a compilation unit (convert/dwarves/dwarves.c)
// and string lists (convert/dwarves/dutil.c).  rb_entry(), which finds the structure a tree node is
// embedded in, is a map from nodes to entries.

module RbLink {
  import opened RbShape
  import opened RbZipper
  import opened RbLaws
  import opened RbInsert
  import opened RbErase
  import opened RbOrder

  // rb_link_node at the link a descent ended at, then rb_insert_color.
  method LinkAndColor(node: RbNode, parent: RbNode?, goLeft: bool, root: RbRoot, ghost c: Path) returns (ghost r: Tree)
    requires At(root, c, Leaf) && IsRb(Plug(c, Leaf)) && node !in PathNodes(c)
    requires parent == Holder(c) && (goLeft <==> c.InLeft?)
    modifies root, node, PathNodes(c)
    ensures At(root, Top, r) && IsRb(r)
    ensures InOrder(r) == Before(c) + [node] + After(c) && Nodes(r) == PathNodes(c) + {node}
  {
    ghost var t := Node(Leaf, node, false, Leaf);
    ghost var m :| Bal(Plug(c, Leaf), m);
    ghost var n := Unplug(c, Leaf, m);
    PlugCalm(c, Leaf);
    PlugRoot(c, Leaf);
    assert OneClash(c, t, 0, m);
    PlugInOrder(c, t);
    assert InOrder(t) == [node];
    Link(node, parent, goLeft, root, c);
    assert Foot(c, t) == PathNodes(c) + {node};
    r := InsertColor(node, root, c, t, 0, m);
  }

  method Link(node: RbNode, parent: RbNode?, goLeft: bool, root: RbRoot, ghost c: Path)
    requires At(root, c, Leaf) && node !in PathNodes(c)
    requires parent == Holder(c) && (goLeft <==> c.InLeft?)
    modifies root, node, PathNodes(c)
    ensures At(root, c, Node(Leaf, node, false, Leaf))
  {
    assert allocated(PathNodes(c));
    assert !c.Top? ==> c.node in PathNodes(c);
    node.parent := parent;
    node.black := false;
    node.left := null;
    node.right := null;
    if parent == null {
      root.node := node;
    } else if goLeft {
      parent.left := node;
    } else {
      parent.right := node;
    }
  }

  // How many nodes are before the place, and how many are not after it.
  ghost function Lo(c: Path): nat {
    |Before(c)|
  }

  ghost function Hi(c: Path, t: Tree): nat {
    |Before(c)| + |InOrder(t)|
  }

  lemma {:induction false} Widths(c: Path, t: Tree)
    requires t.Node?
    ensures var cl, cr := InLeft(c, t.node, t.black, t.right), InRight(t.left, t.node, t.black, c);
      && Lo(cl) == Lo(c) && Lo(cr) == Lo(c) + |InOrder(t.left)| + 1
      && Hi(c, t) == Lo(c) + |InOrder(t.left)| + 1 + |InOrder(t.right)|
  {
    assert |InOrder(t)| == |InOrder(t.left)| + 1 + |InOrder(t.right)|;
  }

  lemma {:induction false} IndexAt(c: Path, t: Tree)
    requires t.Node?
    ensures var k := Lo(c) + |InOrder(t.left)|; k < |InOrder(Plug(c, t))| && InOrder(Plug(c, t))[k] == t.node
    ensures Hi(c, t) <= |InOrder(Plug(c, t))|
  {
    hide Before, After;
    PlugInOrder(c, t);
    Cut(Before(c), InOrder(t.left), t.node, InOrder(t.right), After(c));
  }

  // A descent narrows the positions left at that of the node at the place.
  lemma {:induction false} Positions(c: Path, t: Tree, w: Tree)
    requires Plug(c, t) == w && t.Node?
    ensures var k := Lo(c) + |InOrder(t.left)|;
      var cl, cr := InLeft(c, t.node, t.black, t.right), InRight(t.left, t.node, t.black, c);
      && Lo(c) <= k < Hi(c, t) <= |InOrder(w)| && InOrder(w)[k] == t.node
      && Plug(cl, t.left) == w && Plug(cr, t.right) == w
      && Lo(cl) == Lo(c) && Hi(cl, t.left) == k && Lo(cr) == k + 1 && Hi(cr, t.right) == Hi(c, t)
  {
    Widths(c, t);
    IndexAt(c, t);
    hide Before, After, InOrder;
  }

  lemma {:induction false} LookDown(root: RbRoot, c: Path, t: Tree)
    requires At(root, c, t) && t.Node?
    ensures t.node.left == Root(t.left) && t.node.right == Root(t.right)
  {
  }

  lemma {:induction false} LeafPosition(c: Path, w: Tree)
    requires Plug(c, Leaf) == w
    ensures Lo(c) == Hi(c, Leaf) == |Before(c)| && InOrder(w) == Before(c) + After(c)
  {
    PlugInOrder(c, Leaf);
  }

  // Where a leaf was found, all nodes are around it.
  lemma {:induction false} AllAround(c: Path, w: Tree)
    requires Plug(c, Leaf) == w
    ensures PathNodes(c) == Nodes(w) && PathNodes(Top) == {} && Nodes(Leaf) == {}
  {
    PlugNodes(c, Leaf);
  }

  lemma {:induction false} EmptyTree(root: RbRoot)
    requires root.node == null
    ensures At(root, Top, Leaf) && IsRb(Leaf) && Nodes(Leaf) == {} && InOrder(Leaf) == []
  {
    assert Bal(Leaf, 0);
  }

  lemma {:induction false} LoIs(c: Path)
    ensures Lo(c) == |Before(c)|
  {
  }

  lemma {:induction false} Whole(root: RbRoot, w: Tree)
    requires At(root, Top, w)
    ensures Plug(Top, w) == w && root.node == Root(w) && Lo(Top) == 0 && Hi(Top, w) == |InOrder(w)|
  {
  }

  // rb_entry() of each node
  function Entries<V>(m: map<RbNode, V>, s: seq<RbNode>): (r: seq<V>)
    requires forall i :: 0 <= i < |s| ==> s[i] in m
    ensures |r| == |s| && forall i :: 0 <= i < |s| ==> r[i] == m[s[i]]
  {
    seq(|s|, i requires 0 <= i < |s| => m[s[i]])
  }

  lemma {:induction false} EntryAdded<V>(m: map<RbNode, V>, o: seq<RbNode>, b: seq<RbNode>, a: seq<RbNode>,
      node: RbNode, f: V)
    requires o == b + a && node !in o && (forall i :: 0 <= i < |o| ==> o[i] in m)
    ensures var m', o', s, k := m[node := f], b + [node] + a, Entries(m, o), |b|;
      && (forall i :: 0 <= i < |o'| ==> o'[i] in m')
      && Entries(m', o') == s[..k] + [f] + s[k..]
  {
    var m', o', s, k := m[node := f], b + [node] + a, Entries(m, o), |b|;
    var s' := s[..k] + [f] + s[k..];
    forall i | 0 <= i < |o'|
      ensures o'[i] in m' && m'[o'[i]] == s'[i]
    {
      if i < k {
        assert o'[i] == o[i];
      } else if i > k {
        assert o'[i] == o[i - 1];
      }
    }
    assert Entries(m', o') == s';
  }

  lemma {:induction false} OrderIsNodes(t: Tree, x: RbNode)
    ensures x in InOrder(t) <==> x in Nodes(t)
  {
    if t.Node? {
      OrderIsNodes(t.left, x);
      OrderIsNodes(t.right, x);
    }
  }
}

module FunctionTables {
  import opened RbShape
  import opened RbZipper
  import opened RbLaws
  import opened RbLink
  import opened Unsigned

  datatype Function = Function(addr: nat, size: nat)

  ghost predicate Sorted(s: seq<Function>) {
    forall i, j :: 0 <= i < j < |s| ==> s[i].addr <= s[j].addr
  }

  // The first address behind a function, in the source's 64-bit arithmetic.
  function End(f: Function): nat {
    Add64(f.addr, f.size)
  }

  // Every function ends before the next one starts.
  ghost predicate Disjoint(s: seq<Function>) {
    forall i, j :: 0 <= i < j < |s| ==> End(s[i]) <= s[j].addr
  }

  predicate Contains(f: Function, addr: nat) {
    f.addr <= addr < End(f)
  }

  // A range that does not wrap contains what lies less than its size behind its start; one that does,
  // nothing.
  lemma {:induction false} ContainsIff(f: Function, addr: nat)
    requires f.addr < U64 && f.size < U64
    ensures Contains(f, addr) <==> f.addr + f.size < U64 && f.addr <= addr && addr - f.addr < f.size
  {
    AddsUp(f.addr, f.size);
  }

  // Everything at or below k starts no later than f, everything above it starts later.
  ghost predicate Between(s: seq<Function>, k: int, addr: nat) {
    0 <= k <= |s| && (forall i :: 0 <= i < k ==> s[i].addr <= addr) && (forall i :: k <= i < |s| ==> addr < s[i].addr)
  }

  class FunctionTable {
    const functions: RbRoot
    var entry: map<RbNode, Function>
    ghost var tree: Tree

    ghost predicate Valid()
      reads this, functions, Nodes(tree)
    {
      && At(functions, Top, tree) && IsRb(tree)
      && (forall i :: 0 <= i < |InOrder(tree)| ==> InOrder(tree)[i] in entry)
      && Sorted(Contents())
    }

    ghost function Contents(): seq<Function>
      requires forall i :: 0 <= i < |InOrder(tree)| ==> InOrder(tree)[i] in entry
      reads this
    {
      Entries(entry, InOrder(tree))
    }

    constructor ()
      ensures Valid() && Contents() == [] && fresh(functions)
    {
      functions := new RbRoot();
      entry := map[];
      tree := Leaf;
      new;
      assert Bal(Leaf, 0);
    }

    // Down from the root to the free link where a function at addr belongs.
    method Descend(addr: nat) returns (parent: RbNode?, goLeft: bool, ghost c: Path)
      requires Valid()
      ensures At(functions, c, Leaf) && Plug(c, Leaf) == tree && parent == Holder(c) && (goLeft <==> c.InLeft?)
      ensures InOrder(tree) == Before(c) + After(c) && Between(Contents(), |Before(c)|, addr)
    {
      hide At, InOrder, IsRb, Before, After, Nodes, PathNodes, Plug, Lo, Hi, Foot, Rep, PathRep, Narrowed, Sorted, Between;
      ghost var s := Contents();
      NarrowedAll(s, addr);
      var cur := functions.node;
      parent, goLeft := null, false;
      ghost var t := tree;
      c := Top;
      Whole(functions, tree);
      while cur != null
        invariant At(functions, c, t) && Root(t) == cur && Plug(c, t) == tree
        invariant parent == Holder(c) && (goLeft <==> c.InLeft?)
        invariant Narrowed(s, Lo(c), Hi(c, t), addr)
        decreases t
      {
        parent := cur;
        Positions(c, t, tree);
        StepIff(functions, c, t.left, cur, t.black, t.right);
        LookDown(functions, c, t);
        Narrow(s, Lo(c), Lo(c) + |InOrder(t.left)|, Hi(c, t), addr);
        if addr < entry[parent].addr {
          c, t := InLeft(c, cur, t.black, t.right), t.left;
          cur, goLeft := cur.left, true;
        } else {
          c, t := InRight(t.left, cur, t.black, c), t.right;
          cur, goLeft := cur.right, false;
        }
      }
      LeafPosition(c, tree);
      NarrowedDown(s, Lo(c), addr);
    }

    // cu__insert_function: behind every function that starts at the same address or before it.
    method Insert(f: Function) returns (ghost k: int)
      requires Valid()
      modifies this, functions, Nodes(tree)
      ensures Valid() && fresh(Nodes(tree) - old(Nodes(tree)))
      ensures Between(old(Contents()), k, f.addr)
      ensures Contents() == old(Contents())[..k] + [f] + old(Contents())[k..]
    {
      hide At, IsRb, InOrder, Before, After, Nodes, PathNodes, Sorted, Plug;
      ghost var s := Contents();
      assert allocated(Nodes(tree));
      var parent, goLeft;
      ghost var c;
      parent, goLeft, c := Descend(f.addr);
      k := |Before(c)|;
      AllAround(c, tree);
      assert allocated(PathNodes(c));
      var node := new RbNode();
      OrderIsNodes(tree, node);
      Inserted(entry, InOrder(tree), Before(c), After(c), node, f);
      entry := entry[node := f];
      ghost var w, r := Nodes(tree), Leaf;
      r := LinkAndColor(node, parent, goLeft, functions, c);
      assert Nodes(r) == w + {node} && allocated(Nodes(r));
      tree := r;
      assert At(functions, Top, tree);
      assert IsRb(tree);
      assert Nodes(tree) - old(Nodes(tree)) <= {node};
    }

    // cu__find_function_at_addr: what is found contains the address; when no two functions overlap,
    // a function is found iff one contains it.
    method FindFunctionAt(addr: nat) returns (found: bool, f: Function)
      requires Valid()
      ensures found ==> f in Contents() && Contains(f, addr)
      ensures Disjoint(Contents()) ==> (found <==> exists i :: 0 <= i < |Contents()| && Contains(Contents()[i], addr))
    {
      hide At, InOrder, IsRb, Before, After, Nodes, PathNodes, Plug, Lo, Hi, Foot, Rep, PathRep, OnlyWithin, Sorted, Disjoint, Contains;
      ghost var s := Contents();
      var n := functions.node;
      ghost var c: Path, t := Top, tree;
      Whole(functions, tree);
      found, f := false, Function(0, 0);
      AllWithin(s, addr);
      while n != null
        invariant At(functions, c, t) && Root(t) == n && Plug(c, t) == tree
        invariant Disjoint(s) ==> OnlyWithin(s, Lo(c), Hi(c, t), addr)
        decreases t
      {
        Positions(c, t, tree);
        ghost var k := Lo(c) + |InOrder(t.left)|;
        f := entry[n];
        assert s[k] == f;
        StepIff(functions, c, t.left, n, t.black, t.right);
        LookDown(functions, c, t);
        if Disjoint(s) {
          Exclude(s, Lo(c), k, Hi(c, t), addr);
        }
        if addr < f.addr {
          c, t := InLeft(c, n, t.black, t.right), t.left;
          n := n.left;
        } else if addr >= End(f) {
          c, t := InRight(t.left, n, t.black, c), t.right;
          n := n.right;
        } else {
          InRange(s[k], addr);
          return true, f;
        }
      }
      LeafPosition(c, tree);
      if Disjoint(s) {
        NoneWithin(s, Lo(c), addr);
      }
    }
  }

  // Only the functions at positions lo to hi can contain addr.
  ghost predicate OnlyWithin(s: seq<Function>, lo: int, hi: int, addr: nat) {
    0 <= lo <= hi <= |s| && forall i :: 0 <= i < |s| && Contains(s[i], addr) ==> lo <= i < hi
  }

  lemma {:induction false} AllWithin(s: seq<Function>, addr: nat)
    ensures OnlyWithin(s, 0, |s|, addr)
  {
  }

  lemma {:induction false} NoneWithin(s: seq<Function>, k: int, addr: nat)
    requires OnlyWithin(s, k, k, addr)
    ensures forall i :: 0 <= i < |s| ==> !Contains(s[i], addr)
  {
  }

  lemma {:induction false} InRange(f: Function, addr: nat)
    requires f.addr <= addr < End(f)
    ensures Contains(f, addr)
  {
  }

  lemma {:induction false} Exclude(s: seq<Function>, lo: int, k: int, hi: int, addr: nat)
    requires Sorted(s) && Disjoint(s) && OnlyWithin(s, lo, hi, addr) && lo <= k < hi
    ensures 0 <= k < |s|
    ensures addr < s[k].addr ==> OnlyWithin(s, lo, k, addr)
    ensures addr >= s[k].addr && addr >= End(s[k]) ==> OnlyWithin(s, k + 1, hi, addr)
  {
  }

  // The place covers positions lo to hi of s; what is outside them is on the right side of addr.
  ghost predicate Narrowed(s: seq<Function>, lo: int, hi: int, addr: nat) {
    && 0 <= lo <= hi <= |s|
    && (forall i :: 0 <= i < lo ==> s[i].addr <= addr)
    && (forall i :: hi <= i < |s| ==> addr < s[i].addr)
  }

  lemma {:induction false} NarrowedAll(s: seq<Function>, addr: nat)
    ensures Narrowed(s, 0, |s|, addr)
  {
  }

  lemma {:induction false} Narrow(s: seq<Function>, lo: int, k: int, hi: int, addr: nat)
    requires Narrowed(s, lo, hi, addr) && Sorted(s) && lo <= k < hi
    ensures 0 <= k < |s|
    ensures addr < s[k].addr ==> Narrowed(s, lo, k, addr)
    ensures addr >= s[k].addr ==> Narrowed(s, k + 1, hi, addr)
  {
  }

  lemma {:induction false} NarrowedDown(s: seq<Function>, k: int, addr: nat)
    requires Narrowed(s, k, k, addr)
    ensures Between(s, k, addr)
  {
  }

  lemma {:induction false} Inserted(m: map<RbNode, Function>, o: seq<RbNode>, b: seq<RbNode>, a: seq<RbNode>,
      node: RbNode, f: Function)
    requires o == b + a && node !in o && (forall i :: 0 <= i < |o| ==> o[i] in m)
    requires Sorted(Entries(m, o)) && Between(Entries(m, o), |b|, f.addr)
    ensures var m', o', s, k := m[node := f], b + [node] + a, Entries(m, o), |b|;
      && (forall i :: 0 <= i < |o'| ==> o'[i] in m')
      && Entries(m', o') == s[..k] + [f] + s[k..]
      && Sorted(Entries(m', o'))
  {
    EntryAdded(m, o, b, a, node, f);
  }
}

// convert/dwarves/dutil.c
module StrLists {
  import opened RbShape
  import opened RbZipper
  import opened RbLaws
  import opened RbOrder
  import opened RbLink
  import opened Lex

  // The bytes of a C string; strcmp() compares them as Lex.Below does.
  type Text = seq<int>

  const EEXIST := 17
  const ENOMEM := 12

  // The place covers positions lo to hi of s; what is outside them is on the right side of e.
  ghost predicate Around(s: seq<Text>, lo: int, hi: int, e: Text) {
    && 0 <= lo <= hi <= |s|
    && (forall i :: 0 <= i < lo ==> Below(s[i], e))
    && (forall i :: hi <= i < |s| ==> Below(e, s[i]))
  }

  lemma {:induction false} AroundAll(s: seq<Text>, e: Text)
    ensures Around(s, 0, |s|, e)
  {
  }

  lemma {:induction false} AroundChild(s: seq<Text>, lo: int, k: int, hi: int, e: Text)
    requires Around(s, lo, hi, e) && Rising(s) && lo <= k < hi
    ensures 0 <= k < |s|
    ensures Below(e, s[k]) ==> Around(s, lo, k, e)
    ensures Below(s[k], e) ==> Around(s, k + 1, hi, e)
    ensures !Below(e, s[k]) && !Below(s[k], e) ==> s[k] == e
  {
    Trichotomy(e, s[k]);
    forall i | k <= i < |s| && Below(e, s[k])
      ensures Below(e, s[i])
    {
      if i > k {
        Transitive(e, s[k], s[i]);
      }
    }
    forall i | 0 <= i <= k && Below(s[k], e)
      ensures Below(s[i], e)
    {
      if i < k {
        Transitive(s[i], s[k], e);
      }
    }
    hide Below;
  }

  lemma {:induction false} AroundGap(s: seq<Text>, k: int, e: Text)
    requires Around(s, k, k, e) && Rising(s)
    ensures e !in s && Rising(s[..k] + [e] + s[k..])
  {
    forall i | 0 <= i < |s|
      ensures s[i] != e
    {
      Trichotomy(s[i], e);
    }
    var r := s[..k] + [e] + s[k..];
    forall i, j | 0 <= i < j < |r|
      ensures Below(r[i], r[j])
    {
      assert r[i] == if i < k then s[i] else if i == k then e else s[i - 1];
      assert r[j] == if j < k then s[j] else if j == k then e else s[j - 1];
      if i < k < j {
        Transitive(s[i], e, s[j - 1]);
      }
    }
  }

  lemma {:induction false} Removed(s: seq<Text>, k: nat)
    requires Rising(s) && k < |s|
    ensures var r := s[..k] + s[k + 1..]; Rising(r) && forall x :: x in r <==> x in s && x != s[k]
  {
    var r := s[..k] + s[k + 1..];
    forall i | 0 <= i < |s| && i != k
      ensures s[i] != s[k] && s[i] in r
    {
      Trichotomy(s[i], s[k]);
      assert s[i] == r[if i < k then i else i - 1];
    }
    hide Below;
  }

  class StrList {
    const entries: RbRoot
    var text: map<RbNode, Text>
    ghost var tree: Tree

    ghost predicate Valid()
      reads this, entries, Nodes(tree)
    {
      && At(entries, Top, tree) && IsRb(tree)
      && (forall i :: 0 <= i < |InOrder(tree)| ==> InOrder(tree)[i] in text)
      && Rising(Contents())
    }

    ghost function Contents(): seq<Text>
      requires forall i :: 0 <= i < |InOrder(tree)| ==> InOrder(tree)[i] in text
      reads this
    {
      Entries(text, InOrder(tree))
    }

    constructor ()
      ensures Valid() && Contents() == [] && fresh(entries)
    {
      entries := new RbRoot();
      text := map[];
      tree := Leaf;
      new;
      assert Bal(Leaf, 0);
    }

    // The loop strlist__add and strlist__has_entry share: to the entry, or to the free link where it
    // belongs.
    method Descend(e: Text) returns (found: bool, parent: RbNode?, goLeft: bool, ghost c: Path)
      requires Valid()
      ensures found ==> e in Contents()
      ensures !found ==> At(entries, c, Leaf) && Plug(c, Leaf) == tree && parent == Holder(c) && (goLeft <==> c.InLeft?)
      ensures !found ==> InOrder(tree) == Before(c) + After(c) && Around(Contents(), |Before(c)|, |Before(c)|, e)
    {
      hide At, InOrder, IsRb, Before, After, Nodes, PathNodes, Plug, Lo, Hi, Foot, Rep, PathRep, Around, Rising, Below;
      ghost var s := Contents();
      var cur := entries.node;
      found, parent, goLeft := false, null, false;
      ghost var t := tree;
      c := Top;
      Whole(entries, tree);
      AroundAll(s, e);
      while cur != null
        invariant At(entries, c, t) && Root(t) == cur && Plug(c, t) == tree
        invariant parent == Holder(c) && (goLeft <==> c.InLeft?)
        invariant Around(s, Lo(c), Hi(c, t), e)
        decreases t
      {
        parent := cur;
        Positions(c, t, tree);
        StepIff(entries, c, t.left, cur, t.black, t.right);
        LookDown(entries, c, t);
        AroundChild(s, Lo(c), Lo(c) + |InOrder(t.left)|, Hi(c, t), e);
        if Below(e, text[parent]) {
          c, t := InLeft(c, cur, t.black, t.right), t.left;
          cur, goLeft := cur.left, true;
        } else if Below(text[parent], e) {
          c, t := InRight(t.left, cur, t.black, c), t.right;
          cur, goLeft := cur.right, false;
        } else {
          found := true;
          return;
        }
      }
      LeafPosition(c, tree);
      assert Lo(c) == |Before(c)| by {
        LoIs(c);
      }
    }

    method HasEntry(e: Text) returns (b: bool)
      requires Valid()
      ensures b <==> e in Contents()
    {
      hide At, InOrder, IsRb, Before, After, Nodes, PathNodes, Plug;
      var parent, goLeft;
      ghost var c;
      b, parent, goLeft, c := Descend(e);
      if !b {
        AroundGap(Contents(), |Before(c)|, e);
      }
    }

    // strlist__add; memory says whether the new entry can be allocated.
    method Add(e: Text, memory: bool) returns (err: int)
      requires Valid()
      modifies this, entries, Nodes(tree)
      ensures Valid() && fresh(Nodes(tree) - old(Nodes(tree)))
      ensures err == if e in old(Contents()) then -EEXIST else if memory then 0 else -ENOMEM
      ensures err != 0 ==> Contents() == old(Contents())
      ensures err == 0 ==> e !in old(Contents()) && forall x :: x in Contents() <==> x in old(Contents()) || x == e
    {
      hide At, IsRb, InOrder, Before, After, Nodes, PathNodes, Rising, Around, Below, Plug;
      ghost var s := Contents();
      assert allocated(Nodes(tree));
      var found, parent, goLeft;
      ghost var c;
      found, parent, goLeft, c := Descend(e);
      if found {
        return -EEXIST;
      }
      AroundGap(s, |Before(c)|, e);
      if !memory {
        return -ENOMEM;
      }
      AllAround(c, tree);
      assert allocated(PathNodes(c));
      var node := new RbNode();
      OrderIsNodes(tree, node);
      EntryAdded(text, InOrder(tree), Before(c), After(c), node, e);
      text := text[node := e];
      ghost var w, r := Nodes(tree), Leaf;
      r := LinkAndColor(node, parent, goLeft, entries, c);
      assert Nodes(r) == w + {node} && allocated(Nodes(r));
      tree := r;
      return 0;
    }

    // strlist__remove; the node keeps its text, as far as the model is concerned, but is no longer here.
    method Remove(node: RbNode, ghost k: nat)
      requires Valid() && k < |InOrder(tree)| && InOrder(tree)[k] == node
      modifies this, entries, Nodes(tree)
      ensures Valid() && Nodes(tree) == old(Nodes(tree)) - {node}
      ensures InOrder(tree) == old(InOrder(tree)[..k] + InOrder(tree)[k + 1..])
      ensures Contents() == old(Contents()[..k] + Contents()[k + 1..])
      ensures forall x :: x in Contents() <==> x in old(Contents()) && x != old(Contents()[k])
    {
      hide At, InOrder, IsRb, Nodes, Below;
      ghost var s, o := Contents(), InOrder(tree);
      Removed(s, k);
      assert allocated(Nodes(tree));
      ghost var r := Erase(node, entries, tree, k);
      assert allocated(Nodes(r)) && PathNodes(Top) == {};
      tree := r;
      assert forall i :: 0 <= i < |InOrder(r)| ==> InOrder(r)[i] == o[if i < k then i else i + 1];
      assert Contents() == s[..k] + s[k + 1..];
    }

    // strlist__delete: one entry after the other, in order, until none is left.
    method Delete()
      requires Valid()
      modifies this, entries, Nodes(tree)
      ensures Valid() && Contents() == []
    {
      hide At, IsRb, InOrder, Nodes, Rising, Entries;
      assert allocated(Nodes(tree));
      var next := First(entries, tree);
      while next != null
        invariant Valid() && Nodes(tree) <= old(Nodes(tree))
        invariant next == if InOrder(tree) == [] then null else InOrder(tree)[0]
        decreases |InOrder(tree)|
      {
        var pos := next;
        assert allocated(Nodes(tree));
        next := Next(pos, entries, tree, 0);
        Remove(pos, 0);
      }
      entries.node := null;
      tree := Leaf;
      EmptyTree(entries);
    }
  }
}
