// Red-black trees with parent pointers (convert/dwarves/rbtree.c, rbtree.h).  Colour and parent are two
// fields here; the source packs them into one word.  The shape of the heap is described by values: a
// Tree of nodes below a place, and a Path of what lies above it.

module RbShape {

  class RbNode {
    var left: RbNode?
    var right: RbNode?
    var parent: RbNode?
    var black: bool

    constructor ()
    {
      left, right, parent, black := null, null, null, false;
    }
  }

  class RbRoot {
    var node: RbNode?

    constructor ()
      ensures node == null
    {
      node := null;
    }
  }

  datatype Tree = Leaf | Node(left: Tree, node: RbNode, black: bool, right: Tree)

  // What is around a subtree: it is the left or the right child of node, whose other child is given.
  datatype Path =
    | Top
    | InLeft(up: Path, node: RbNode, black: bool, right: Tree)
    | InRight(left: Tree, node: RbNode, black: bool, up: Path)

  ghost function Root(t: Tree): RbNode? {
    if t.Leaf? then null else t.node
  }

  ghost function Holder(c: Path): RbNode? {
    if c.Top? then null else c.node
  }

  ghost function Nodes(t: Tree): set<RbNode> {
    match t
    case Leaf => {}
    case Node(l, x, _, r) => Nodes(l) + {x} + Nodes(r)
  }

  ghost function PathNodes(c: Path): set<RbNode> {
    match c
    case Top => {}
    case InLeft(up, x, _, r) => PathNodes(up) + {x} + Nodes(r)
    case InRight(l, x, _, up) => Nodes(l) + {x} + PathNodes(up)
  }

  // The heap below parent p is t.
  ghost predicate Rep(t: Tree, p: RbNode?)
    reads Nodes(t)
  {
    match t
    case Leaf => true
    case Node(l, x, b, r) =>
      x.parent == p && x.left == Root(l) && x.right == Root(r) && x.black == b && Rep(l, x) && Rep(r, x)
  }

  // The heap around child is c, up to the root pointer.
  ghost predicate PathRep(c: Path, child: RbNode?, root: RbRoot)
    reads root, PathNodes(c)
  {
    match c
    case Top => root.node == child
    case InLeft(up, x, b, r) =>
      x.left == child && x.right == Root(r) && x.black == b && x.parent == Holder(up) && Rep(r, x) && PathRep(up, x, root)
    case InRight(l, x, b, up) =>
      x.right == child && x.left == Root(l) && x.black == b && x.parent == Holder(up) && Rep(l, x) && PathRep(up, x, root)
  }

  // No node occurs twice.
  ghost predicate Sep(t: Tree) {
    match t
    case Leaf => true
    case Node(l, x, _, r) => x !in Nodes(l) && x !in Nodes(r) && Nodes(l) !! Nodes(r) && Sep(l) && Sep(r)
  }

  ghost predicate PathSep(c: Path) {
    match c
    case Top => true
    case InLeft(up, x, _, r) => x !in Nodes(r) && x !in PathNodes(up) && Nodes(r) !! PathNodes(up) && Sep(r) && PathSep(up)
    case InRight(l, x, _, up) => x !in Nodes(l) && x !in PathNodes(up) && Nodes(l) !! PathNodes(up) && Sep(l) && PathSep(up)
  }

  // The tree under root is t at the place c.
  ghost predicate At(root: RbRoot, c: Path, t: Tree)
    reads root, PathNodes(c), Nodes(t)
  {
    && Rep(t, Holder(c)) && PathRep(c, Root(t), root)
    && Sep(t) && PathSep(c) && Nodes(t) !! PathNodes(c)
  }

  ghost function Plug(c: Path, t: Tree): Tree
    decreases c
  {
    match c
    case Top => t
    case InLeft(up, x, b, r) => Plug(up, Node(t, x, b, r))
    case InRight(l, x, b, up) => Plug(up, Node(l, x, b, t))
  }

  ghost function InOrder(t: Tree): seq<RbNode> {
    match t
    case Leaf => []
    case Node(l, x, _, r) => InOrder(l) + [x] + InOrder(r)
  }

  ghost function Before(c: Path): seq<RbNode> {
    match c
    case Top => []
    case InLeft(up, _, _, _) => Before(up)
    case InRight(l, x, _, up) => Before(up) + InOrder(l) + [x]
  }

  ghost function After(c: Path): seq<RbNode> {
    match c
    case Top => []
    case InLeft(up, x, _, r) => [x] + InOrder(r) + After(up)
    case InRight(_, _, _, up) => After(up)
  }

  lemma {:induction false} Regroup<A>(a: seq<A>, b: seq<A>, x: A, d: seq<A>, e: seq<A>)
    ensures a + (b + [x] + d) + e == (a + b + [x]) + d + e
    ensures a + (b + [x] + d) + e == a + b + ([x] + d + e)
  {
  }

  lemma {:induction false} PlugInOrder(c: Path, t: Tree)
    ensures InOrder(Plug(c, t)) == Before(c) + InOrder(t) + After(c)
    decreases c
  {
    match c
    case Top =>
      assert [] + InOrder(t) + [] == InOrder(t);
    case InLeft(up, x, b, r) =>
      PlugInOrder(up, Node(t, x, b, r));
      Regroup(Before(up), InOrder(t), x, InOrder(r), After(up));
    case InRight(l, x, b, up) =>
      PlugInOrder(up, Node(l, x, b, t));
      Regroup(Before(up), InOrder(l), x, InOrder(t), After(up));
  }

  lemma {:induction false} PlugNodes(c: Path, t: Tree)
    ensures Nodes(Plug(c, t)) == PathNodes(c) + Nodes(t)
    decreases c
  {
    match c
    case Top =>
    case InLeft(up, x, b, r) => PlugNodes(up, Node(t, x, b, r));
    case InRight(l, x, b, up) => PlugNodes(up, Node(l, x, b, t));
  }

  // Moving the place up to the root and back down changes nothing in the heap.
  lemma {:induction false} ZipIff(root: RbRoot, c: Path, t: Tree)
    ensures At(root, c, t) <==> At(root, Top, Plug(c, t))
    decreases c
  {
    match c
    case Top =>
    case InLeft(up, x, b, r) =>
      ZipIff(root, up, Node(t, x, b, r));
      assert At(root, c, t) <==> At(root, up, Node(t, x, b, r));
    case InRight(l, x, b, up) =>
      ZipIff(root, up, Node(l, x, b, t));
      assert At(root, c, t) <==> At(root, up, Node(l, x, b, t));
  }

  lemma {:induction false} TopNodes(t: Tree)
    ensures t.Node? ==> t.node in Nodes(t)
  {
  }

  lemma {:induction false} PathTopNode(c: Path)
    ensures !c.Top? ==> c.node in PathNodes(c)
  {
  }
}

module RbRotate {
  import opened RbShape

  // The parent of a subtree's root, when there is a root.
  method SetParent(child: RbNode?, p: RbNode?, ghost t: Tree, ghost q: RbNode?)
    requires Rep(t, q) && Sep(t) && child == Root(t)
    modifies child
    ensures Rep(t, p)
  {
    if child != null {
      child.parent := p;
    }
  }

  // The link that leads down to a subtree: in its parent, or in the root.
  method Relink(parent: RbNode?, node: RbNode, child: RbNode?, root: RbRoot, ghost c: Path)
    requires PathRep(c, node, root) && PathSep(c) && parent == Holder(c) && node !in PathNodes(c)
    modifies root, parent
    ensures PathRep(c, child, root)
  {
    if parent != null {
      if node == parent.left {
        parent.left := child;
      } else {
        parent.right := child;
      }
    } else {
      root.node := child;
    }
  }

  // A subtree becomes the right child of node.
  method AttachRight(node: RbNode, child: RbNode?, ghost a: Tree, ghost b: Tree, ghost q: RbNode?)
    requires node.left == Root(a) && Rep(a, node) && Rep(b, q) && Sep(b) && child == Root(b)
    requires node !in Nodes(a) && node !in Nodes(b) && Nodes(a) !! Nodes(b)
    modifies node`right, child
    ensures Rep(Node(a, node, node.black, b), node.parent)
  {
    assert allocated(Nodes(a)) && allocated(Nodes(b));
    assert b.Node? ==> b.node in Nodes(b);
    node.right := child;
    SetParent(child, node, b, q);
  }

  method AttachLeft(node: RbNode, child: RbNode?, ghost a: Tree, ghost b: Tree, ghost q: RbNode?)
    requires node.right == Root(a) && Rep(a, node) && Rep(b, q) && Sep(b) && child == Root(b)
    requires node !in Nodes(a) && node !in Nodes(b) && Nodes(a) !! Nodes(b)
    modifies node`left, child
    ensures Rep(Node(b, node, node.black, a), node.parent)
  {
    assert allocated(Nodes(a)) && allocated(Nodes(b));
    assert b.Node? ==> b.node in Nodes(b);
    node.left := child;
    SetParent(child, node, b, q);
  }

  // The subtree under node goes below top on the left, and top takes its place under the path.
  method HoistLeft(top: RbNode, node: RbNode, root: RbRoot, ghost l: Tree, ghost d: Tree, ghost c: Path)
    requires Root(l) == node && Rep(l, Holder(c)) && Sep(l) && PathRep(c, node, root) && PathSep(c)
    requires top.right == Root(d) && Rep(d, top)
    requires top !in Nodes(l) && top !in Nodes(d) && top !in PathNodes(c)
    requires Nodes(l) !! Nodes(d) && Nodes(l) !! PathNodes(c) && Nodes(d) !! PathNodes(c)
    modifies top`left, top`parent, node, root, PathNodes(c)
    ensures Rep(Node(l, top, top.black, d), Holder(c)) && PathRep(c, top, root)
  {
    hide Nodes, PathNodes, PathRep, Sep, PathSep, Apart;
    assert allocated(Nodes(l)) && allocated(Nodes(d)) && allocated(PathNodes(c));
    TopNodes(l);
    PathTopNode(c);
    var parent := node.parent;
    top.left := node;
    top.parent := parent;
    Relink(parent, node, top, root, c);
    SetParent(node, top, l, parent);
  }

  method HoistRight(top: RbNode, node: RbNode, root: RbRoot, ghost l: Tree, ghost d: Tree, ghost c: Path)
    requires Root(l) == node && Rep(l, Holder(c)) && Sep(l) && PathRep(c, node, root) && PathSep(c)
    requires top.left == Root(d) && Rep(d, top)
    requires top !in Nodes(l) && top !in Nodes(d) && top !in PathNodes(c)
    requires Nodes(l) !! Nodes(d) && Nodes(l) !! PathNodes(c) && Nodes(d) !! PathNodes(c)
    modifies top`right, top`parent, node, root, PathNodes(c)
    ensures Rep(Node(d, top, top.black, l), Holder(c)) && PathRep(c, top, root)
  {
    hide Nodes, PathNodes, PathRep, Sep, PathSep, Apart;
    assert allocated(Nodes(l)) && allocated(Nodes(d)) && allocated(PathNodes(c));
    TopNodes(l);
    PathTopNode(c);
    var parent := node.parent;
    top.right := node;
    top.parent := parent;
    Relink(parent, node, top, root, c);
    SetParent(node, top, l, parent);
  }

  // The two shapes of a rotation hold the same nodes once.
  ghost predicate Apart(x: RbNode, y: RbNode, a: Tree, b: Tree, d: Tree, c: Path) {
    && x != y && Sep(a) && Sep(b) && Sep(d) && PathSep(c)
    && x !in Nodes(a) && x !in Nodes(b) && x !in Nodes(d) && x !in PathNodes(c)
    && y !in Nodes(a) && y !in Nodes(b) && y !in Nodes(d) && y !in PathNodes(c)
    && Nodes(a) !! Nodes(b) && Nodes(a) !! Nodes(d) && Nodes(b) !! Nodes(d)
    && Nodes(a) !! PathNodes(c) && Nodes(b) !! PathNodes(c) && Nodes(d) !! PathNodes(c)
  }

  lemma {:induction false} ApartIff(a: Tree, x: RbNode, xb: bool, b: Tree, y: RbNode, yb: bool, d: Tree, c: Path)
    ensures var r, l := Node(a, x, xb, Node(b, y, yb, d)), Node(Node(a, x, xb, b), y, yb, d);
      && (Apart(x, y, a, b, d, c) <==> Sep(r) && PathSep(c) && Nodes(r) !! PathNodes(c))
      && (Apart(x, y, a, b, d, c) <==> Sep(l) && PathSep(c) && Nodes(l) !! PathNodes(c))
      && Nodes(l) == Nodes(r)
  {
  }

  // What a node with a right child is made of, and what a rotation makes of it.
  lemma {:induction false} RightChild(root: RbRoot, c: Path, t: Tree)
    requires t.Node? && t.right.Node? && At(root, c, t)
    ensures var x, y, a, b, d := t.node, t.right.node, t.left, t.right.left, t.right.right;
      var l := Node(a, x, t.black, b);
      && x.parent == Holder(c) && x.black == t.black && y.black == t.right.black
      && x.left == Root(a) && x.right == y && y.left == Root(b) && y.right == Root(d)
      && Rep(a, x) && Rep(b, y) && Rep(d, y)
      && Apart(x, y, a, b, d, c)
      && Nodes(t) == Nodes(l) + {y} + Nodes(d) && Nodes(l) == Nodes(a) + {x} + Nodes(b)
      && Sep(l) && y !in Nodes(l) && Nodes(l) !! Nodes(d) && Nodes(l) !! PathNodes(c)
      && (b.Node? ==> b.node in Nodes(b))
      && Sep(Node(l, y, t.right.black, d)) && Nodes(Node(l, y, t.right.black, d)) == Nodes(t)
  {
    assert Rep(t.right, t.node);
    ApartIff(t.left, t.node, t.black, t.right.left, t.right.node, t.right.black, t.right.right, c);
  }

  lemma {:induction false} LeftChild(root: RbRoot, c: Path, t: Tree)
    requires t.Node? && t.left.Node? && At(root, c, t)
    ensures var x, y, a, b, d := t.node, t.left.node, t.right, t.left.right, t.left.left;
      var l := Node(b, x, t.black, a);
      && x.parent == Holder(c) && x.black == t.black && y.black == t.left.black
      && x.right == Root(a) && x.left == y && y.right == Root(b) && y.left == Root(d)
      && Rep(a, x) && Rep(b, y) && Rep(d, y)
      && Apart(x, y, a, b, d, c)
      && Nodes(t) == Nodes(l) + {y} + Nodes(d) && Nodes(l) == Nodes(a) + {x} + Nodes(b)
      && Sep(l) && y !in Nodes(l) && Nodes(l) !! Nodes(d) && Nodes(l) !! PathNodes(c)
      && (b.Node? ==> b.node in Nodes(b))
      && Sep(Node(d, y, t.left.black, l)) && Nodes(Node(d, y, t.left.black, l)) == Nodes(t)
  {
    assert Rep(t.left, t.node);
    ApartIff(t.left.left, t.left.node, t.left.black, t.left.right, t.node, t.black, t.right, c);
  }

  method RotateLeft(node: RbNode, root: RbRoot, ghost c: Path, ghost t: Tree)
    requires t.Node? && t.node == node && t.right.Node? && At(root, c, t)
    modifies root, PathNodes(c), Nodes(t)
    ensures At(root, c, Node(Node(t.left, node, t.black, t.right.left), t.right.node, t.right.black, t.right.right))
  {
    hide Nodes, PathNodes, PathRep, Sep, PathSep, Rep;
    RightChild(root, c, t);
    ghost var a, b, d := t.left, t.right.left, t.right.right;
    assert allocated(Nodes(a)) && allocated(Nodes(b)) && allocated(Nodes(d)) && allocated(PathNodes(c));
    var right: RbNode := node.right;
    AttachRight(node, right.left, a, b, right);
    HoistLeft(right, node, root, Node(a, node, t.black, b), d, c);
  }

  method RotateRight(node: RbNode, root: RbRoot, ghost c: Path, ghost t: Tree)
    requires t.Node? && t.node == node && t.left.Node? && At(root, c, t)
    modifies root, PathNodes(c), Nodes(t)
    ensures At(root, c, Node(t.left.left, t.left.node, t.left.black, Node(t.left.right, node, t.black, t.right)))
  {
    hide Nodes, PathNodes, PathRep, Sep, PathSep, Rep;
    LeftChild(root, c, t);
    ghost var a, b, d := t.right, t.left.right, t.left.left;
    assert allocated(Nodes(a)) && allocated(Nodes(b)) && allocated(Nodes(d)) && allocated(PathNodes(c));
    var left: RbNode := node.left;
    AttachLeft(node, left.right, a, b, left);
    HoistRight(left, node, root, Node(b, node, t.black, a), d, c);
  }
}

// The steps the rebalancing loops are made of, each at one place of the tree.
module RbZipper {
  import opened RbShape
  import opened RbRotate

  // All nodes of the tree seen from a place in it.
  ghost function Foot(c: Path, t: Tree): set<RbNode> {
    PathNodes(c) + Nodes(t)
  }

  // The same heap seen from a node, from its left child and from its right child.
  lemma {:induction false} StepIff(root: RbRoot, up: Path, l: Tree, x: RbNode, b: bool, r: Tree)
    ensures At(root, up, Node(l, x, b, r)) <==> At(root, InLeft(up, x, b, r), l)
    ensures At(root, up, Node(l, x, b, r)) <==> At(root, InRight(l, x, b, up), r)
    ensures Foot(InLeft(up, x, b, r), l) == Foot(up, Node(l, x, b, r)) == Foot(InRight(l, x, b, up), r)
  {
  }

  ghost function Up(c: Path): Path {
    match c
    case Top => Top
    case InLeft(up, _, _, _) => up
    case InRight(_, _, _, up) => up
  }

  ghost function Over(c: Path, t: Tree): Tree {
    match c
    case Top => t
    case InLeft(_, x, b, r) => Node(t, x, b, r)
    case InRight(l, x, b, _) => Node(l, x, b, t)
  }

  lemma {:induction false} MoveUp(root: RbRoot, c: Path, t: Tree)
    ensures At(root, c, t) <==> At(root, Up(c), Over(c, t))
    ensures Foot(c, t) == Foot(Up(c), Over(c, t)) && Plug(c, t) == Plug(Up(c), Over(c, t))
  {
    match c
    case Top =>
    case InLeft(up, x, b, r) => StepIff(root, up, t, x, b, r);
    case InRight(l, x, b, up) => StepIff(root, up, l, x, b, t);
  }

  lemma {:induction false} Look(root: RbRoot, c: Path, t: Tree)
    requires At(root, c, t)
    ensures t.Node? ==>
      var x := t.node; x.parent == Holder(c) && x.left == Root(t.left) && x.right == Root(t.right) && x.black == t.black
    ensures t.Node? ==> t.node in Foot(c, t) && t.node !in Nodes(t.left) && t.node !in Nodes(t.right)
    ensures !c.Top? ==> Holder(c) in Foot(c, t) && Holder(c) != Root(t)
  {
  }

  lemma {:induction false} SameOrder(c: Path, t: Tree, t': Tree)
    requires InOrder(t) == InOrder(t')
    ensures InOrder(Plug(c, t)) == InOrder(Plug(c, t'))
  {
    PlugInOrder(c, t);
    PlugInOrder(c, t');
  }

  ghost function Painted(t: Tree, black: bool): Tree
    requires t.Node?
  {
    Node(t.left, t.node, black, t.right)
  }

  method Paint(x: RbNode, black: bool, root: RbRoot, ghost c: Path, ghost t: Tree)
    requires At(root, c, t) && t.Node? && t.node == x
    modifies x`black
    ensures At(root, c, Painted(t, black)) && Foot(c, Painted(t, black)) == Foot(c, t)
    ensures InOrder(Plug(c, Painted(t, black))) == InOrder(Plug(c, t))
  {
    assert allocated(Nodes(t.left)) && allocated(Nodes(t.right)) && allocated(PathNodes(c));
    SameOrder(c, t, Painted(t, black));
    hide InOrder;
    x.black := black;
  }

  ghost function TurnedLeft(t: Tree): Tree
    requires t.Node? && t.right.Node?
  {
    Node(Node(t.left, t.node, t.black, t.right.left), t.right.node, t.right.black, t.right.right)
  }

  ghost function TurnedRight(t: Tree): Tree
    requires t.Node? && t.left.Node?
  {
    Node(t.left.left, t.left.node, t.left.black, Node(t.left.right, t.node, t.black, t.right))
  }

  lemma {:induction false} RegroupTurn<A>(a: seq<A>, x: A, b: seq<A>, y: A, d: seq<A>)
    ensures a + [x] + (b + [y] + d) == (a + [x] + b) + [y] + d
  {
  }

  lemma {:induction false} TurnedOrder(t: Tree)
    requires t.Node?
    ensures t.right.Node? ==> InOrder(TurnedLeft(t)) == InOrder(t)
    ensures t.left.Node? ==> InOrder(TurnedRight(t)) == InOrder(t)
  {
    if t.right.Node? {
      RegroupTurn(InOrder(t.left), t.node, InOrder(t.right.left), t.right.node, InOrder(t.right.right));
    }
    if t.left.Node? {
      RegroupTurn(InOrder(t.left.left), t.left.node, InOrder(t.left.right), t.node, InOrder(t.right));
    }
  }

  method TurnLeft(node: RbNode, root: RbRoot, ghost c: Path, ghost t: Tree)
    requires At(root, c, t) && t.Node? && t.node == node && t.right.Node?
    modifies root, Foot(c, t)
    ensures At(root, c, TurnedLeft(t)) && Foot(c, TurnedLeft(t)) == Foot(c, t)
    ensures InOrder(Plug(c, TurnedLeft(t))) == InOrder(Plug(c, t))
  {
    TurnedOrder(t);
    SameOrder(c, t, TurnedLeft(t));
    ApartIff(t.left, t.node, t.black, t.right.left, t.right.node, t.right.black, t.right.right, c);
    hide InOrder, At, Nodes, PathNodes;
    RotateLeft(node, root, c, t);
  }

  method TurnRight(node: RbNode, root: RbRoot, ghost c: Path, ghost t: Tree)
    requires At(root, c, t) && t.Node? && t.node == node && t.left.Node?
    modifies root, Foot(c, t)
    ensures At(root, c, TurnedRight(t)) && Foot(c, TurnedRight(t)) == Foot(c, t)
    ensures InOrder(Plug(c, TurnedRight(t))) == InOrder(Plug(c, t))
  {
    TurnedOrder(t);
    SameOrder(c, t, TurnedRight(t));
    ApartIff(t.left.left, t.left.node, t.left.black, t.left.right, t.node, t.black, t.right, c);
    hide InOrder, At, Nodes, PathNodes;
    RotateRight(node, root, c, t);
  }
}

// The red-black laws, on values.
module RbLaws {
  import opened RbShape
  import opened RbZipper

  ghost predicate Red(t: Tree) {
    t.Node? && !t.black
  }

  ghost function Weight(black: bool): nat {
    if black then 1 else 0
  }

  // Every path down meets n black nodes.
  ghost predicate Bal(t: Tree, n: int) {
    match t
    case Leaf => n == 0
    case Node(l, _, b, r) => Bal(l, n - Weight(b)) && Bal(r, n - Weight(b))
  }

  // No red node has a red child.
  ghost predicate Calm(t: Tree) {
    match t
    case Leaf => true
    case Node(l, _, b, r) => Calm(l) && Calm(r) && (b || (!Red(l) && !Red(r)))
  }

  ghost predicate IsRb(t: Tree) {
    !Red(t) && Calm(t) && exists n :: Bal(t, n)
  }

  // ----- what the laws are for ------------------------------------------------------------------------

  // The number of nodes on the longest way down.
  ghost function Height(t: Tree): nat {
    match t
    case Leaf => 0
    case Node(l, _, _, r) => 1 + if Height(l) > Height(r) then Height(l) else Height(r)
  }

  ghost function Double(n: nat): nat {
    if n == 0 then 1 else 2 * Double(n - 1)
  }

  lemma {:induction false} DoubleOrder(m: nat, n: nat)
    requires m <= n
    ensures Double(m) <= Double(n)
  {
    if m < n {
      DoubleOrder(m, n - 1);
    }
  }

  lemma {:induction false} BalBounds(t: Tree, n: int)
    requires Bal(t, n) && Calm(t)
    ensures n >= 0 && Double(n) <= |InOrder(t)| + 1
    ensures Height(t) <= 2 * n + Weight(Red(t))
    decreases t
  {
    match t
    case Leaf =>
    case Node(l, x, b, r) =>
      BalBounds(l, n - Weight(b));
      BalBounds(r, n - Weight(b));
  }

  // A search in a tree of n nodes meets at most twice the logarithm of n + 1 of them.
  lemma {:induction false} HeightBound(t: Tree)
    requires IsRb(t)
    ensures Double(Height(t) / 2) <= |InOrder(t)| + 1
  {
    var n :| Bal(t, n);
    BalBounds(t, n);
    DoubleOrder(Height(t) / 2, n);
  }

  // With n black nodes on every path below the place, there are m below the root.
  ghost predicate PathBal(c: Path, n: int, m: int) {
    match c
    case Top => n == m
    case InLeft(up, _, b, s) => Bal(s, n) && PathBal(up, n + Weight(b), m)
    case InRight(s, _, b, up) => Bal(s, n) && PathBal(up, n + Weight(b), m)
  }

  ghost predicate PathRed(c: Path) {
    !c.Top? && !c.black
  }

  ghost predicate PathCalm(c: Path) {
    match c
    case Top => true
    case InLeft(up, _, b, s) => Calm(s) && PathCalm(up) && (b || (!Red(s) && !PathRed(up)))
    case InRight(s, _, b, up) => Calm(s) && PathCalm(up) && (b || (!Red(s) && !PathRed(up)))
  }

  ghost predicate TopBlack(c: Path) {
    match c
    case Top => true
    case InLeft(up, _, b, _) => if up.Top? then b else TopBlack(up)
    case InRight(_, _, b, up) => if up.Top? then b else TopBlack(up)
  }

  ghost function Depth(c: Path): nat {
    match c
    case Top => 0
    case InLeft(up, _, _, _) => 1 + Depth(up)
    case InRight(_, _, _, up) => 1 + Depth(up)
  }

  ghost function Sibling(c: Path): Tree {
    match c
    case Top => Leaf
    case InLeft(_, _, _, s) => s
    case InRight(s, _, _, _) => s
  }

  // What the laws around a place say one level up.
  lemma {:induction false} LawsAbove(c: Path, n: int, m: int)
    requires !c.Top?
    ensures PathBal(c, n, m) <==> Bal(Sibling(c), n) && PathBal(Up(c), n + Weight(c.black), m)
    ensures PathCalm(c) <==>
      Calm(Sibling(c)) && PathCalm(Up(c)) && (c.black || (!Red(Sibling(c)) && !PathRed(Up(c))))
    ensures TopBlack(c) <==> if Up(c).Top? then c.black else TopBlack(Up(c))
  {
  }

  lemma {:induction false} PlugBal(c: Path, t: Tree, n: int, m: int)
    requires Bal(t, n) && PathBal(c, n, m)
    ensures Bal(Plug(c, t), m)
    decreases c
  {
    match c
    case Top =>
    case InLeft(up, x, b, s) => PlugBal(up, Node(t, x, b, s), n + Weight(b), m);
    case InRight(s, x, b, up) => PlugBal(up, Node(s, x, b, t), n + Weight(b), m);
  }

  lemma {:induction false} PlugCalm(c: Path, t: Tree)
    ensures Calm(Plug(c, t)) <==> Calm(t) && PathCalm(c) && !(Red(t) && PathRed(c))
    decreases c
  {
    match c
    case Top =>
    case InLeft(up, x, b, s) => PlugCalm(up, Node(t, x, b, s));
    case InRight(s, x, b, up) => PlugCalm(up, Node(s, x, b, t));
  }

  lemma {:induction false} PlugRoot(c: Path, t: Tree)
    ensures !c.Top? ==> Plug(c, t).Node? && (TopBlack(c) <==> Plug(c, t).black)
    decreases c
  {
    match c
    case Top =>
    case InLeft(up, x, b, s) => PlugRoot(up, Node(t, x, b, s));
    case InRight(s, x, b, up) => PlugRoot(up, Node(s, x, b, t));
  }
}

module RbInsert {
  import opened RbShape
  import opened RbZipper
  import opened RbLaws

  // All laws hold but one: the red node at the place may have a red parent.
  ghost predicate OneClash(c: Path, t: Tree, n: int, m: int) {
    t.Node? && !t.black && Calm(t) && Bal(t, n) && PathBal(c, n, m) && PathCalm(c) && TopBlack(c)
  }

  // The tree is the one we started with: same nodes, same order.
  ghost predicate Kept(c: Path, t: Tree, c0: Path, t0: Tree) {
    InOrder(Plug(c, t)) == InOrder(Plug(c0, t0)) && Foot(c, t) == Foot(c0, t0)
  }

  // Both children turn black, their parent red.
  method Flip(left: RbNode, right: RbNode, node: RbNode, root: RbRoot, ghost c: Path, ghost t: Tree)
      returns (ghost r: Tree)
    requires At(root, c, t) && t.Node? && t.left.Node? && t.right.Node?
    requires t.node == node && t.left.node == left && t.right.node == right
    modifies root, Foot(c, t)
    ensures r == Node(Painted(t.left, true), node, false, Painted(t.right, true))
    ensures At(root, c, r) && Kept(c, r, c, t)
  {
    hide At, Foot, InOrder;
    ghost var l, b, u := t.left, t.black, t.right;
    StepIff(root, c, l, node, b, u);
    Inside(root, c, t);
    ghost var c1 := InRight(l, node, b, c);
    Paint(right, true, root, c1, u);
    ghost var u' := Painted(u, true);
    StepIff(root, c, l, node, b, u');
    ghost var c2 := InLeft(c, node, b, u');
    Paint(left, true, root, c2, l);
    ghost var l' := Painted(l, true);
    StepIff(root, c, l', node, b, u');
    Paint(node, false, root, c, Node(l', node, b, u'));
    r := Node(l', node, false, u');
  }

  // The three nodes at the top of a tree are among those that may be written.
  lemma {:induction false} Inside(root: RbRoot, c: Path, t: Tree)
    ensures t.Node? ==> t.node in Foot(c, t)
    ensures t.Node? && t.left.Node? ==> t.left.node in Foot(c, t)
    ensures t.Node? && t.right.Node? ==> t.right.node in Foot(c, t)
  {
    if t.Node? {
      assert Nodes(t) == Nodes(t.left) + {t.node} + Nodes(t.right);
      assert t.left.Node? ==> t.left.node in Nodes(t.left);
      assert t.right.Node? ==> t.right.node in Nodes(t.right);
    }
  }

  lemma {:induction false} FlipKeepsLaws(c: Path, t: Tree, n: int, m: int)
    requires OneClash(c, t, n, m) && PathRed(c) && !Up(c).Top?
    requires var g := Over(Up(c), Over(c, t)); Red(g.left) && Red(g.right)
    ensures var g := Over(Up(c), Over(c, t));
      OneClash(Up(Up(c)), Node(Painted(g.left, true), g.node, false, Painted(g.right, true)), n + 1, m)
  {
    LawsAbove(c, n, m);
    LawsAbove(Up(c), n, m);
  }

  // A red parent has a parent itself.
  lemma {:induction false} RedHasParent(c: Path)
    requires PathRed(c) && TopBlack(c)
    ensures !Up(c).Top?
  {
  }
  // The parent is the left child of gparent and the uncle is not red: at most two rotations end the loop.
  method RotateRightCase(n0: RbNode, p0: RbNode, gparent: RbNode, root: RbRoot,
                         ghost c: Path, ghost t: Tree, ghost n: int, ghost m: int)
      returns (node: RbNode, ghost c': Path, ghost t': Tree)
    requires At(root, c, t) && OneClash(c, t, n, m) && PathRed(c) && t.node == n0 && c.node == p0
    requires Up(c).InLeft? && Up(c).node == gparent && !Red(Up(c).right)
    modifies root, Foot(c, t)
    ensures At(root, c', t') && OneClash(c', t', n, m) && t'.node == node && !PathRed(c')
    ensures Kept(c', t', c, t) && Depth(c') < Depth(c)
  {
    hide At, Foot, InOrder;
    ghost var up, g, gb, u := Up(Up(c)), gparent, Up(c).black, Up(c).right;
    RightCaseLaws(c, t, n, m);
    MoveUp(root, c, t);
    ghost var pt := Over(c, t);
    Look(root, Up(c), pt);
    var parent;
    node, parent := n0, p0;
    ghost var c1 := Up(c);
    if parent.right == node {
      NotBoth(root, c, t);
      TurnLeft(parent, root, c1, pt);
      pt := TurnedLeft(pt);
      node, parent := parent, node;
    } else {
      NotBoth(root, c, t);
    }
    Inside(root, c1, pt);
    Paint(parent, true, root, c1, pt);
    pt := Painted(pt, true);
    MoveUp(root, c1, pt);
    ghost var gt := Over(c1, pt);
    Inside(root, up, gt);
    Paint(gparent, false, root, up, gt);
    gt := Painted(gt, false);
    TurnRight(gparent, root, up, gt);
    gt := TurnedRight(gt);
    t', c' := gt.left, InLeft(up, gt.node, gt.black, gt.right);
    StepIff(root, up, gt.left, gt.node, gt.black, gt.right);
  }

  // Is the node the left or the right child?  The two children differ.
  lemma {:induction false} NotBoth(root: RbRoot, c: Path, t: Tree)
    requires At(root, c, t) && !c.Top? && t.Node?
    ensures c.InLeft? ==> c.node.left == t.node && c.node.right != t.node
    ensures c.InRight? ==> c.node.right == t.node && c.node.left != t.node
  {
  }

  lemma {:induction false} RightCaseLaws(c: Path, t: Tree, n: int, m: int)
    requires OneClash(c, t, n, m) && PathRed(c) && Up(c).InLeft? && !Red(Up(c).right)
    ensures var up, g, u := Up(Up(c)), Up(c).node, Up(c).right;
      var pt := if c.InRight? then TurnedLeft(Over(c, t)) else Over(c, t);
      && pt.Node? && pt.left.Node?
      && OneClash(InLeft(up, pt.node, true, Node(pt.right, g, false, u)), pt.left, n, m)
    ensures Depth(InLeft(Up(Up(c)), Up(c).node, true, Leaf)) < Depth(c)
  {
    LawsAbove(c, n, m);
    LawsAbove(Up(c), n, m);
  }
  // The mirror image: the parent is the right child of gparent.
  method RotateLeftCase(n0: RbNode, p0: RbNode, gparent: RbNode, root: RbRoot,
                        ghost c: Path, ghost t: Tree, ghost n: int, ghost m: int)
      returns (node: RbNode, ghost c': Path, ghost t': Tree)
    requires At(root, c, t) && OneClash(c, t, n, m) && PathRed(c) && t.node == n0 && c.node == p0
    requires Up(c).InRight? && Up(c).node == gparent && !Red(Up(c).left)
    modifies root, Foot(c, t)
    ensures At(root, c', t') && OneClash(c', t', n, m) && t'.node == node && !PathRed(c')
    ensures Kept(c', t', c, t) && Depth(c') < Depth(c)
  {
    hide At, Foot, InOrder;
    ghost var up := Up(Up(c));
    LeftCaseLaws(c, t, n, m);
    MoveUp(root, c, t);
    ghost var pt := Over(c, t);
    Look(root, Up(c), pt);
    NotBoth(root, c, t);
    var parent;
    node, parent := n0, p0;
    ghost var c1 := Up(c);
    if parent.left == node {
      TurnRight(parent, root, c1, pt);
      pt := TurnedRight(pt);
      node, parent := parent, node;
    }
    Inside(root, c1, pt);
    Paint(parent, true, root, c1, pt);
    pt := Painted(pt, true);
    MoveUp(root, c1, pt);
    ghost var gt := Over(c1, pt);
    Inside(root, up, gt);
    Paint(gparent, false, root, up, gt);
    gt := Painted(gt, false);
    TurnLeft(gparent, root, up, gt);
    gt := TurnedLeft(gt);
    t', c' := gt.right, InRight(gt.left, gt.node, gt.black, up);
    StepIff(root, up, gt.left, gt.node, gt.black, gt.right);
  }

  lemma {:induction false} LeftCaseLaws(c: Path, t: Tree, n: int, m: int)
    requires OneClash(c, t, n, m) && PathRed(c) && Up(c).InRight? && !Red(Up(c).left)
    ensures var up, g, u := Up(Up(c)), Up(c).node, Up(c).left;
      var pt := if c.InLeft? then TurnedRight(Over(c, t)) else Over(c, t);
      && pt.Node? && pt.right.Node?
      && OneClash(InRight(Node(u, g, false, pt.left), pt.node, true, up), pt.right, n, m)
    ensures Depth(InRight(Leaf, Up(c).node, true, Up(Up(c)))) < Depth(c)
  {
    LawsAbove(c, n, m);
    LawsAbove(Up(c), n, m);
  }

  // What the loop reads off the heap.
  lemma {:induction false} LookAround(root: RbRoot, c: Path, t: Tree)
    requires At(root, c, t) && t.Node?
    ensures t.node.parent == Holder(c) && t.node in Foot(c, t)
    ensures !c.Top? ==> c.node.black == c.black && c.node.parent == Holder(Up(c))
    ensures !c.Top? && !Up(c).Top? ==>
      var g := Up(c).node;
      && (Up(c).InLeft? ==> g.left == c.node && g.right == Root(Up(c).right) && g.right != c.node)
      && (Up(c).InRight? ==> g.right == c.node && g.left == Root(Up(c).left) && g.left != c.node)
    ensures !c.Top? && !Up(c).Top? ==> forall s :: s == Sibling(Up(c)) && s.Node? ==> s.node.black == s.black
  {
    MoveUp(root, c, t);
    if !c.Top? {
      MoveUp(root, Up(c), Over(c, t));
      Look(root, Up(c), Over(c, t));
      if !Up(c).Top? {
        NotBoth(root, Up(c), Over(c, t));
      }
      Look(root, Up(Up(c)), Over(Up(c), Over(c, t)));
      if Up(c).InLeft? {
        StepIff(root, Up(Up(c)), Over(c, t), Up(c).node, Up(c).black, Up(c).right);
        Look(root, InRight(Over(c, t), Up(c).node, Up(c).black, Up(Up(c))), Up(c).right);
      } else if Up(c).InRight? {
        StepIff(root, Up(Up(c)), Up(c).left, Up(c).node, Up(c).black, Over(c, t));
        Look(root, InLeft(Up(Up(c)), Up(c).node, Up(c).black, Over(c, t)), Up(c).left);
      }
    }
  }

  // rb_insert_color: from any tree with one clash, however deep, back to a red-black tree.
  method InsertColor(start: RbNode, root: RbRoot, ghost c0: Path, ghost t0: Tree, ghost n0: int, ghost m: int)
      returns (ghost r: Tree)
    requires At(root, c0, t0) && OneClash(c0, t0, n0, m) && t0.node == start
    modifies root, Foot(c0, t0)
    ensures At(root, Top, r) && IsRb(r)
    ensures InOrder(r) == InOrder(Plug(c0, t0)) && Nodes(r) == Foot(c0, t0)
  {
    hide At, Foot, InOrder;
    var node := start;
    ghost var c, t, n := c0, t0, n0;
    var parent := node.parent;
    LookAround(root, c, t);
    while parent != null && !parent.black
      invariant At(root, c, t) && OneClash(c, t, n, m) && t.node == node && Kept(c, t, c0, t0)
      invariant parent == Holder(c) && (parent != null ==> parent.black == c.black)
      decreases Depth(c)
    {
      RedHasParent(c);
      LookAround(root, c, t);
      var gparent: RbNode := parent.parent;
      if parent == gparent.left {
        var uncle := gparent.right;
        if uncle != null && !uncle.black {
          n, c, t := FlipUp(parent, uncle, gparent, root, c, t, n, m);
          node := gparent;
        } else {
          node, c, t := RotateRightCase(node, parent, gparent, root, c, t, n, m);
        }
      } else {
        var uncle := gparent.left;
        if uncle != null && !uncle.black {
          n, c, t := FlipUp(uncle, parent, gparent, root, c, t, n, m);
          node := gparent;
        } else {
          node, c, t := RotateLeftCase(node, parent, gparent, root, c, t, n, m);
        }
      }
      parent := node.parent;
      LookAround(root, c, t);
    }
    r := BlackenRoot(root, c, t, n, m);
  }

  // The uncle is red: the clash moves up two levels.
  method FlipUp(left: RbNode, right: RbNode, gparent: RbNode, root: RbRoot,
                ghost c: Path, ghost t: Tree, ghost n: int, ghost m: int)
      returns (ghost n': int, ghost c': Path, ghost t': Tree)
    requires At(root, c, t) && OneClash(c, t, n, m) && PathRed(c) && !Up(c).Top?
    requires var g := Over(Up(c), Over(c, t));
      Red(g.left) && Red(g.right) && g.left.node == left && g.right.node == right && g.node == gparent
    modifies root, Foot(c, t)
    ensures At(root, c', t') && OneClash(c', t', n', m) && t'.node == gparent
    ensures Kept(c', t', c, t) && Depth(c') < Depth(c)
  {
    hide At, Foot, InOrder;
    MoveUp(root, c, t);
    MoveUp(root, Up(c), Over(c, t));
    FlipKeepsLaws(c, t, n, m);
    c', n' := Up(Up(c)), n + 1;
    t' := Flip(left, right, gparent, root, c', Over(Up(c), Over(c, t)));
  }

  // rb_set_black(root->rb_node)
  method BlackenRoot(root: RbRoot, ghost c: Path, ghost t: Tree, ghost n: int, ghost m: int) returns (ghost r: Tree)
    requires At(root, c, t) && OneClash(c, t, n, m) && !PathRed(c)
    modifies root, Foot(c, t)
    ensures At(root, Top, r) && IsRb(r)
    ensures InOrder(r) == InOrder(Plug(c, t)) && Nodes(r) == Foot(c, t)
  {
    hide InOrder;
    ghost var w := Plug(c, t);
    ZipIff(root, c, t);
    PlugNodes(c, t);
    PlugBal(c, t, n, m);
    PlugCalm(c, t);
    PlugRoot(c, t);
    assert w.Node? && root.node == w.node;
    var top: RbNode := root.node;
    Paint(top, true, root, Top, w);
    r := Painted(w, true);
    assert Bal(r, m) || Bal(r, m + 1);
  }
}
