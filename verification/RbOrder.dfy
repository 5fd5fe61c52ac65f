// Walking a tree in order, and erasing by position (convert/dwarves/rbtree.c).

module RbOrder {
  import opened RbShape
  import opened RbZipper
  import opened RbLaws
  import opened RbErase

  // The place of the k-th node in order.
  lemma {:induction false} Locate(c: Path, t: Tree, k: nat) returns (c': Path, t': Tree)
    requires |Before(c)| <= k < |Before(c) + InOrder(t)|
    ensures Plug(c', t') == Plug(c, t) && t'.Node?
    ensures |Before(c') + InOrder(t'.left)| == k
    decreases t
  {
    var l := Before(c) + InOrder(t.left);
    assert Before(c) + InOrder(t) == l + [t.node] + InOrder(t.right);
    if k < |l| {
      c', t' := Locate(InLeft(c, t.node, t.black, t.right), t.left, k);
    } else if k == |l| {
      c', t' := c, t;
    } else {
      c', t' := Locate(InRight(t.left, t.node, t.black, c), t.right, k);
    }
  }

  // Seen from that place, the order is what is before the node, the node, and what is after it.
  lemma {:induction false} SplitAt(c: Path, t: Tree)
    requires t.Node?
    ensures var s, k := InOrder(Plug(c, t)), |Before(c) + InOrder(t.left)|;
      && k < |s| && s[k] == t.node
      && s[..k] == Before(c) + InOrder(t.left)
      && s[k + 1..] == InOrder(t.right) + After(c)
  {
    PlugInOrder(c, t);
    Cut(Before(c), InOrder(t.left), t.node, InOrder(t.right), After(c));
  }

  lemma {:induction false} Cut<A>(p: seq<A>, l: seq<A>, x: A, r: seq<A>, q: seq<A>)
    ensures var s, k := p + (l + [x] + r) + q, |p + l|;
      k < |s| && s[k] == x && s[..k] == p + l && s[k + 1..] == r + q
  {
    var s, k := p + (l + [x] + r) + q, |p + l|;
    assert s == (p + l) + ([x] + (r + q));
  }

  lemma {:induction false} NothingAbove()
    ensures Before(Top) == [] && After(Top) == [] && PathNodes(Top) == {} && forall w :: Plug(Top, w) == w
  {
  }

  // The k-th node is erased from a whole tree.
  method Erase(node: RbNode, root: RbRoot, ghost w: Tree, ghost k: nat) returns (ghost r: Tree)
    requires At(root, Top, w) && IsRb(w) && k < |InOrder(w)| && InOrder(w)[k] == node
    modifies root, Nodes(w)
    ensures At(root, Top, r) && IsRb(r) && Nodes(r) == Nodes(w) - {node}
    ensures InOrder(r) == InOrder(w)[..k] + InOrder(w)[k + 1..]
  {
    hide At, InOrder, Nodes, PathNodes, IsRb, Before, After, Plug;
    NothingAbove();
    ghost var c, t := Locate(Top, w, k);
    SplitAt(c, t);
    ZipIff(root, c, t);
    PlugNodes(c, t);
    r := EraseAt(node, root, c, t);
    assert Before(c) + InOrder(t.left) + InOrder(t.right) + After(c)
        == Before(c) + InOrder(t.left) + (InOrder(t.right) + After(c));
  }

  method First(root: RbRoot, ghost w: Tree) returns (n: RbNode?)
    requires At(root, Top, w)
    ensures n == if InOrder(w) == [] then null else InOrder(w)[0]
  {
    n := root.node;
    if n == null {
      return null;
    }
    ghost var c;
    n, c := Leftmost(n, root, Top, w);
  }

  // Down the left links from a place whose subtree is not empty.
  method Leftmost(start: RbNode, root: RbRoot, ghost c0: Path, ghost t0: Tree) returns (n: RbNode, ghost c: Path)
    requires At(root, c0, t0) && Root(t0) == start
    ensures InOrder(t0) != [] && n == InOrder(t0)[0]
  {
    n := start;
    c := c0;
    ghost var t := t0;
    while n.left != null
      invariant At(root, c, t) && Root(t) == n && InOrder(t) != [] && InOrder(t) <= InOrder(t0)
      decreases t
    {
      StepIff(root, c, t.left, n, t.black, t.right);
      c := InLeft(c, n, t.black, t.right);
      n := n.left;
      t := t.left;
    }
  }

  // The successor in order, or null after the last node.
  method Next(node0: RbNode, root: RbRoot, ghost w: Tree, ghost k: nat) returns (next: RbNode?)
    requires At(root, Top, w) && k < |InOrder(w)| && InOrder(w)[k] == node0
    ensures next == if k + 1 < |InOrder(w)| then InOrder(w)[k + 1] else null
  {
    ghost var c, t := Locate(Top, w, k);
    SplitAt(c, t);
    ZipIff(root, c, t);
    Look(root, c, t);
    if node0.parent == node0 {
      return null;
    }
    if node0.right != null {
      StepIff(root, c, t.left, node0, t.black, t.right);
      ghost var c1;
      next, c1 := Leftmost(node0.right, root, InRight(t.left, node0, t.black, c), t.right);
      return;
    }
    next := Climb(node0, root, c, t);
  }

  // Up the parent links for as long as we come from the right.
  method Climb(node0: RbNode, root: RbRoot, ghost c0: Path, ghost t0: Tree) returns (parent: RbNode?)
    requires At(root, c0, t0) && Root(t0) == node0
    ensures parent == if After(c0) == [] then null else After(c0)[0]
  {
    var node := node0;
    ghost var c, t := c0, t0;
    Look(root, c, t);
    parent := node.parent;
    LookUp(root, c, t);
    while parent != null && node == parent.right
      invariant At(root, c, t) && Root(t) == node && parent == Holder(c) && After(c) == After(c0)
      invariant !c.Top? ==> (node == c.node.right <==> c.InRight?)
      decreases Depth(c)
    {
      MoveUp(root, c, t);
      c, t := Up(c), Over(c, t);
      Look(root, c, t);
      node := parent;
      parent := node.parent;
      LookUp(root, c, t);
    }
  }

  lemma {:induction false} LookUp(root: RbRoot, c: Path, t: Tree)
    requires At(root, c, t) && t.Node?
    ensures !c.Top? ==> (t.node == c.node.right <==> c.InRight?)
  {
  }
}
