// rb_erase and its fix-up loop (convert/dwarves/rbtree.c).

module RbEraseColor {
  import opened RbShape
  import opened RbZipper
  import opened RbLaws
  import opened RbInsert

  ghost predicate CalmBelow(t: Tree) {
    t.Node? ==> Calm(t.left) && Calm(t.right)
  }

  // All laws hold but one: below the place there is one black node too few, and a red root there may
  // have a red parent or red children.
  ghost predicate OneShort(c: Path, t: Tree, n: int, m: int) {
    CalmBelow(t) && Bal(t, n) && PathBal(c, n + 1, m) && PathCalm(c) && TopBlack(c)
  }

  // The tree with all laws at some place.
  ghost predicate Lawful(c: Path, t: Tree, n: int, m: int) {
    Calm(t) && Bal(t, n) && PathBal(c, n, m) && PathCalm(c) && TopBlack(c) && !(Red(t) && PathRed(c)) && (c.Top? ==> !Red(t))
  }

  lemma {:induction false} BalNat(t: Tree, n: int)
    requires Bal(t, n)
    ensures n >= 0 && (n > 0 ==> t.Node?)
  {
    if t.Node? {
      BalNat(t.left, n - Weight(t.black));
    }
  }

  // ----- the sibling is red ---------------------------------------------------------------------

  // Rotating a red sibling of a left child up gives the place a black sibling.
  method RedRight(other: RbNode, parent: RbNode, root: RbRoot, ghost c: Path, ghost t: Tree, ghost n: int, ghost m: int)
      returns (ghost c': Path)
    requires At(root, c, t) && OneShort(c, t, n, m) && c.InLeft? && c.node == parent
    requires Red(c.right) && c.right.node == other
    modifies root, Foot(c, t)
    ensures At(root, c', t) && OneShort(c', t, n, m) && Kept(c', t, c, t)
    ensures c'.InLeft? && c'.node == parent && !c'.black && c'.right.Node? && c'.right.black
  {
    hide At, Foot, InOrder;
    ghost var up, pb, s := c.up, c.black, c.right;
    RedRightLaws(c, t, n, m);
    StepIff(root, up, t, parent, pb, s);
    Inside(root, up, Node(t, parent, pb, s));
    Paint(other, true, root, InRight(t, parent, pb, up), s);
    s := Painted(s, true);
    StepIff(root, up, t, parent, pb, s);
    Paint(parent, false, root, up, Node(t, parent, pb, s));
    TurnLeft(parent, root, up, Node(t, parent, false, s));
    StepIff(root, up, Node(t, parent, false, s.left), other, true, s.right);
    StepIff(root, InLeft(up, other, true, s.right), t, parent, false, s.left);
    c' := InLeft(InLeft(up, other, true, s.right), parent, false, s.left);
    assert Plug(c', t) == Plug(InLeft(up, other, true, s.right), Node(t, parent, false, s.left));
  }

  lemma {:induction false} RedRightLaws(c: Path, t: Tree, n: int, m: int)
    requires OneShort(c, t, n, m) && c.InLeft? && Red(c.right)
    ensures var s := c.right;
      var c' := InLeft(InLeft(c.up, s.node, true, s.right), c.node, false, s.left);
      c.black && OneShort(c', t, n, m) && s.left.Node? && s.left.black
  {
    BalNat(t, n);
    BalNat(c.right.left, n + 1);
  }

  method RedLeft(other: RbNode, parent: RbNode, root: RbRoot, ghost c: Path, ghost t: Tree, ghost n: int, ghost m: int)
      returns (ghost c': Path)
    requires At(root, c, t) && OneShort(c, t, n, m) && c.InRight? && c.node == parent
    requires Red(c.left) && c.left.node == other
    modifies root, Foot(c, t)
    ensures At(root, c', t) && OneShort(c', t, n, m) && Kept(c', t, c, t)
    ensures c'.InRight? && c'.node == parent && !c'.black && c'.left.Node? && c'.left.black
  {
    hide At, Foot, InOrder;
    ghost var up, pb, s := c.up, c.black, c.left;
    RedLeftLaws(c, t, n, m);
    StepIff(root, up, s, parent, pb, t);
    Inside(root, up, Node(s, parent, pb, t));
    Paint(other, true, root, InLeft(up, parent, pb, t), s);
    s := Painted(s, true);
    StepIff(root, up, s, parent, pb, t);
    Paint(parent, false, root, up, Node(s, parent, pb, t));
    TurnRight(parent, root, up, Node(s, parent, false, t));
    StepIff(root, up, s.left, other, true, Node(s.right, parent, false, t));
    StepIff(root, InRight(s.left, other, true, up), s.right, parent, false, t);
    c' := InRight(s.right, parent, false, InRight(s.left, other, true, up));
    assert Plug(c', t) == Plug(InRight(s.left, other, true, up), Node(s.right, parent, false, t));
  }

  lemma {:induction false} RedLeftLaws(c: Path, t: Tree, n: int, m: int)
    requires OneShort(c, t, n, m) && c.InRight? && Red(c.left)
    ensures var s := c.left;
      var c' := InRight(s.right, c.node, false, InRight(s.left, s.node, true, c.up));
      c.black && OneShort(c', t, n, m) && s.right.Node? && s.right.black
  {
    BalNat(t, n);
    BalNat(c.left.right, n + 1);
  }

  // ----- the sibling is black with black children ---------------------------------------------------

  lemma {:induction false} BlackNephewsLaws(c: Path, t: Tree, n: int, m: int)
    requires OneShort(c, t, n, m) && !c.Top? && !Red(t)
    requires var s := Sibling(c); s.Node? && s.black && !Red(s.left) && !Red(s.right)
    ensures c.InLeft? ==> OneShort(c.up, Node(t, c.node, c.black, Painted(c.right, false)), n + Weight(c.black), m)
    ensures c.InRight? ==> OneShort(c.up, Node(Painted(c.left, false), c.node, c.black, t), n + Weight(c.black), m)
  {
    LawsAbove(c, n + 1, m);
  }

  // ----- the sibling is black with a red child: rotations end the loop -------------------------------

  // The sibling's right child is red.
  method EndRight(other: RbNode, parent: RbNode, root: RbRoot, ghost c: Path, ghost t: Tree, ghost n: int, ghost m: int)
      returns (ghost t': Tree)
    requires At(root, c, t) && OneShort(c, t, n, m) && c.InLeft? && c.node == parent && !Red(t)
    requires c.right.Node? && c.right.node == other && c.right.black && Red(c.right.right)
    modifies root, Foot(c, t)
    ensures At(root, c.up, t') && Lawful(c.up, t', n + 1 + Weight(c.black), m) && Kept(c.up, t', c, t)
  {
    hide At, Foot, InOrder;
    ghost var up, pb, s := c.up, c.black, c.right;
    EndRightLaws(c, t, n, m);
    StepIff(root, up, t, parent, pb, s);
    ghost var c1 := InRight(t, parent, pb, up);
    Inside(root, up, Node(t, parent, pb, s));
    Look(root, up, Node(t, parent, pb, s));
    Paint(other, parent.black, root, c1, s);
    s := Painted(s, pb);
    StepIff(root, up, t, parent, pb, s);
    Paint(parent, true, root, up, Node(t, parent, pb, s));
    StepIff(root, up, t, parent, true, s);
    c1 := InRight(t, parent, true, up);
    StepIff(root, c1, s.left, other, pb, s.right);
    Inside(root, c1, s);
    Look(root, c1, s);
    Paint(other.right, true, root, InRight(s.left, other, pb, c1), s.right);
    s := Node(s.left, other, pb, Painted(s.right, true));
    StepIff(root, c1, s.left, other, pb, s.right);
    StepIff(root, up, t, parent, true, s);
    TurnLeft(parent, root, up, Node(t, parent, true, s));
    t' := TurnedLeft(Node(t, parent, true, s));
  }

  lemma {:induction false} EndRightLaws(c: Path, t: Tree, n: int, m: int)
    requires OneShort(c, t, n, m) && c.InLeft? && !Red(t)
    requires c.right.Node? && c.right.black && Red(c.right.right)
    ensures var s := c.right;
      Lawful(c.up, Node(Node(t, c.node, true, s.left), s.node, c.black, Painted(s.right, true)), n + 1 + Weight(c.black), m)
  {
    LawsAbove(c, n + 1, m);
    assert Calm(t) && Calm(c.right.left) && Calm(c.right.right);
  }

  // The sibling's left child is red.
  method EndLeft(other: RbNode, parent: RbNode, root: RbRoot, ghost c: Path, ghost t: Tree, ghost n: int, ghost m: int)
      returns (ghost t': Tree)
    requires At(root, c, t) && OneShort(c, t, n, m) && c.InRight? && c.node == parent && !Red(t)
    requires c.left.Node? && c.left.node == other && c.left.black && Red(c.left.left)
    modifies root, Foot(c, t)
    ensures At(root, c.up, t') && Lawful(c.up, t', n + 1 + Weight(c.black), m) && Kept(c.up, t', c, t)
  {
    hide At, Foot, InOrder;
    ghost var up, pb, s := c.up, c.black, c.left;
    EndLeftLaws(c, t, n, m);
    StepIff(root, up, s, parent, pb, t);
    ghost var c1 := InLeft(up, parent, pb, t);
    Inside(root, up, Node(s, parent, pb, t));
    Look(root, up, Node(s, parent, pb, t));
    Paint(other, parent.black, root, c1, s);
    s := Painted(s, pb);
    StepIff(root, up, s, parent, pb, t);
    Paint(parent, true, root, up, Node(s, parent, pb, t));
    StepIff(root, up, s, parent, true, t);
    c1 := InLeft(up, parent, true, t);
    StepIff(root, c1, s.left, other, pb, s.right);
    Inside(root, c1, s);
    Look(root, c1, s);
    Paint(other.left, true, root, InLeft(c1, other, pb, s.right), s.left);
    s := Node(Painted(s.left, true), other, pb, s.right);
    StepIff(root, c1, s.left, other, pb, s.right);
    StepIff(root, up, s, parent, true, t);
    TurnRight(parent, root, up, Node(s, parent, true, t));
    t' := TurnedRight(Node(s, parent, true, t));
  }

  lemma {:induction false} EndLeftLaws(c: Path, t: Tree, n: int, m: int)
    requires OneShort(c, t, n, m) && c.InRight? && !Red(t)
    requires c.left.Node? && c.left.black && Red(c.left.left)
    ensures var s := c.left;
      Lawful(c.up, Node(Painted(s.left, true), s.node, c.black, Node(s.right, c.node, true, t)), n + 1 + Weight(c.black), m)
  {
    LawsAbove(c, n + 1, m);
    assert Calm(t) && Calm(c.left.left) && Calm(c.left.right);
  }

  // The sibling's red child is on the near side: turn it to the far side.
  method NearRight(other: RbNode, parent: RbNode, root: RbRoot, ghost c: Path, ghost t: Tree, ghost n: int, ghost m: int)
      returns (ghost c': Path)
    requires At(root, c, t) && OneShort(c, t, n, m) && c.InLeft? && c.node == parent
    requires c.right.Node? && c.right.node == other && c.right.black && Red(c.right.left) && !Red(c.right.right)
    modifies root, Foot(c, t)
    ensures At(root, c', t) && OneShort(c', t, n, m) && Kept(c', t, c, t)
    ensures c'.InLeft? && c'.node == parent && c'.black == c.black && c'.up == c.up
    ensures c'.right.Node? && c'.right.black && Red(c'.right.right)
  {
    hide At, Foot, InOrder;
    ghost var up, pb, s := c.up, c.black, c.right;
    NearRightLaws(c, t, n, m);
    StepIff(root, up, t, parent, pb, s);
    ghost var c1 := InRight(t, parent, pb, up);
    StepIff(root, c1, s.left, other, true, s.right);
    Inside(root, c1, s);
    Look(root, c1, s);
    Paint(other.left, true, root, InLeft(c1, other, true, s.right), s.left);
    s := Node(Painted(s.left, true), other, true, s.right);
    StepIff(root, c1, s.left, other, true, s.right);
    Paint(other, false, root, c1, s);
    s := Painted(s, false);
    TurnRight(other, root, c1, s);
    s := TurnedRight(s);
    StepIff(root, up, t, parent, pb, s);
    c' := InLeft(up, parent, pb, s);
  }

  lemma {:induction false} NearRightLaws(c: Path, t: Tree, n: int, m: int)
    requires OneShort(c, t, n, m) && c.InLeft?
    requires c.right.Node? && c.right.black && Red(c.right.left) && !Red(c.right.right)
    ensures var s := c.right;
      OneShort(InLeft(c.up, c.node, c.black, Node(s.left.left, s.left.node, true, Node(s.left.right, s.node, false, s.right))),
               t, n, m)
  {
    var s := c.right;
    var inner := Node(s.left.right, s.node, false, s.right);
    assert Calm(s.left) && Bal(s.left, n) && Bal(s.right, n);
    assert Calm(inner) && Bal(inner, n);
    assert Calm(Node(s.left.left, s.left.node, true, inner));
  }

  method NearLeft(other: RbNode, parent: RbNode, root: RbRoot, ghost c: Path, ghost t: Tree, ghost n: int, ghost m: int)
      returns (ghost c': Path)
    requires At(root, c, t) && OneShort(c, t, n, m) && c.InRight? && c.node == parent
    requires c.left.Node? && c.left.node == other && c.left.black && Red(c.left.right) && !Red(c.left.left)
    modifies root, Foot(c, t)
    ensures At(root, c', t) && OneShort(c', t, n, m) && Kept(c', t, c, t)
    ensures c'.InRight? && c'.node == parent && c'.black == c.black && c'.up == c.up
    ensures c'.left.Node? && c'.left.black && Red(c'.left.left)
  {
    hide At, Foot, InOrder;
    ghost var up, pb, s := c.up, c.black, c.left;
    NearLeftLaws(c, t, n, m);
    StepIff(root, up, s, parent, pb, t);
    ghost var c1 := InLeft(up, parent, pb, t);
    StepIff(root, c1, s.left, other, true, s.right);
    Inside(root, c1, s);
    Look(root, c1, s);
    Paint(other.right, true, root, InRight(s.left, other, true, c1), s.right);
    s := Node(s.left, other, true, Painted(s.right, true));
    StepIff(root, c1, s.left, other, true, s.right);
    Paint(other, false, root, c1, s);
    s := Painted(s, false);
    TurnLeft(other, root, c1, s);
    s := TurnedLeft(s);
    StepIff(root, up, s, parent, pb, t);
    c' := InRight(s, parent, pb, up);
  }

  lemma {:induction false} NearLeftLaws(c: Path, t: Tree, n: int, m: int)
    requires OneShort(c, t, n, m) && c.InRight?
    requires c.left.Node? && c.left.black && Red(c.left.right) && !Red(c.left.left)
    ensures var s := c.left;
      OneShort(InRight(Node(Node(s.left, s.node, false, s.right.left), s.right.node, true, s.right.right), c.node, c.black, c.up),
               t, n, m)
  {
    var s := c.left;
    var inner := Node(s.left, s.node, false, s.right.left);
    assert Calm(s.right) && Bal(s.left, n) && Bal(s.right, n);
    assert Calm(inner) && Bal(inner, n);
    assert Calm(Node(inner, s.right.node, true, s.right.right));
  }
  // ----- the loop ---------------------------------------------------------------------------------

  // The place is the root's exactly when its subtree hangs off the root pointer.
  lemma {:induction false} AtRoot(root: RbRoot, c: Path, t: Tree)
    requires At(root, c, t)
    ensures Root(t) == root.node <==> c.Top?
  {
    ZipIff(root, c, t);
    PathTop(c, t);
  }

  lemma {:induction false} PathTop(c: Path, t: Tree)
    ensures !c.Top? ==> Plug(c, t).Node? && Plug(c, t).node in PathNodes(c)
    ensures t.Node? ==> t.node in Nodes(t)
    decreases c
  {
    if !c.Top? {
      PathTop(Up(c), Over(c, t));
    }
  }

  // What the loop reads around a place that is not the root's.
  lemma {:induction false} LookSibling(root: RbRoot, c: Path, t: Tree)
    requires At(root, c, t) && !c.Top?
    requires Sibling(c).Node?
    ensures var x, s := c.node, Sibling(c);
      && x in Foot(c, t) && s.node in Foot(c, t) && x.parent == Holder(Up(c))
      && (c.InLeft? ==> x.left == Root(t) && x.right == s.node && x.left != x.right)
      && (c.InRight? ==> x.right == Root(t) && x.left == s.node && x.left != x.right)
      && s.node.black == s.black && s.node.left == Root(s.left) && s.node.right == Root(s.right)
      && (s.left.Node? ==> s.left.node.black == s.left.black)
      && (s.right.Node? ==> s.right.node.black == s.right.black)
  {
    var s := Sibling(c);
    assert Rep(s, c.node);
    assert Rep(s.left, s.node) && Rep(s.right, s.node);
  }

  // The black sibling of a left child with no red child turns red; the place moves up.
  method PaintSibling(other: RbNode, root: RbRoot, ghost c: Path, ghost t: Tree, ghost n: int, ghost m: int)
      returns (ghost t': Tree)
    requires At(root, c, t) && OneShort(c, t, n, m) && !c.Top? && !Red(t)
    requires var s := Sibling(c); s.Node? && s.node == other && s.black && !Red(s.left) && !Red(s.right)
    modifies root, Foot(c, t)
    ensures At(root, Up(c), t') && OneShort(Up(c), t', n + Weight(c.black), m) && Kept(Up(c), t', c, t)
    ensures t'.Node? && t'.node == c.node && t'.black == c.black
  {
    BlackNephewsLaws(c, t, n, m);
    MoveUp(root, c, t);
    Inside(root, Up(c), Over(c, t));
    hide At, Foot, InOrder;
    ghost var s, s' := Sibling(c), Painted(Sibling(c), false);
    ghost var above := if c.InLeft? then InRight(t, c.node, c.black, c.up) else InLeft(c.up, c.node, c.black, t);
    if c.InLeft? {
      StepIff(root, c.up, t, c.node, c.black, s);
      StepIff(root, c.up, t, c.node, c.black, s');
    } else {
      StepIff(root, c.up, s, c.node, c.black, t);
      StepIff(root, c.up, s', c.node, c.black, t);
    }
    t' := if c.InLeft? then Node(t, c.node, c.black, s') else Node(s', c.node, c.black, t);
    Paint(other, false, root, above, s);
  }

  // One round on a left child.  Either the laws hold at the place handed back and the loop ends, or
  // the place has moved up, or its red root ends the loop.
  method FixLeft(parent: RbNode, root: RbRoot, ghost c0: Path, ghost t: Tree, ghost n: int, ghost m: int)
      returns (ended: bool, ghost c: Path, ghost t': Tree, ghost n': int)
    requires At(root, c0, t) && OneShort(c0, t, n, m) && c0.InLeft? && c0.node == parent && !Red(t)
    modifies root, Foot(c0, t)
    ensures At(root, c, t') && Kept(c, t', c0, t)
    ensures ended ==> Lawful(c, t', n', m)
    ensures !ended ==> OneShort(c, t', n', m) && t'.Node? && t'.node == parent && (Red(t') || Depth(c) < Depth(c0))
  {
    SiblingThere(c0, t, n, m);
    LookSibling(root, c0, t);
    hide At, Foot, InOrder, OneShort, Lawful;
    c := c0;
    var other: RbNode := parent.right;
    if !other.black {
      c := RedRight(other, parent, root, c0, t, n, m);
      LookSibling(root, c, t);
      other := parent.right;
    }
    ended, c, t', n' := FixLeftBlack(other, parent, root, c, t, n, m);
  }

  // The same once the sibling is black.
  method FixLeftBlack(other0: RbNode, parent: RbNode, root: RbRoot, ghost c0: Path, ghost t: Tree, ghost n: int,
      ghost m: int)
      returns (ended: bool, ghost c: Path, ghost t': Tree, ghost n': int)
    requires At(root, c0, t) && OneShort(c0, t, n, m) && c0.InLeft? && c0.node == parent && !Red(t)
    requires c0.right.Node? && c0.right.black && c0.right.node == other0
    modifies root, Foot(c0, t)
    ensures At(root, c, t') && Kept(c, t', c0, t)
    ensures ended ==> Lawful(c, t', n', m)
    ensures !ended ==> OneShort(c, t', n', m) && c == c0.up && t'.Node? && t'.node == parent && t'.black == c0.black
  {
    LookSibling(root, c0, t);
    hide At, Foot, InOrder, OneShort, Lawful;
    c := c0;
    var other := other0;
    if (other.left == null || other.left.black) && (other.right == null || other.right.black) {
      t' := PaintSibling(other, root, c, t, n, m);
      ended, n', c := false, n + Weight(c.black), Up(c);
    } else {
      if other.right == null || other.right.black {
        c := NearRight(other, parent, root, c, t, n, m);
        LookSibling(root, c, t);
        other := parent.right;
      }
      t' := EndRight(other, parent, root, c, t, n, m);
      ended, n', c := true, n + 1 + Weight(c.black), c.up;
    }
  }


  lemma {:induction false} SiblingThere(c: Path, t: Tree, n: int, m: int)
    requires OneShort(c, t, n, m) && !c.Top?
    ensures Sibling(c).Node?
  {
    LawsAbove(c, n + 1, m);
    BalNat(t, n);
    BalNat(Sibling(c), n + 1);
  }

  method FixRight(parent: RbNode, root: RbRoot, ghost c0: Path, ghost t: Tree, ghost n: int, ghost m: int)
      returns (ended: bool, ghost c: Path, ghost t': Tree, ghost n': int)
    requires At(root, c0, t) && OneShort(c0, t, n, m) && c0.InRight? && c0.node == parent && !Red(t)
    modifies root, Foot(c0, t)
    ensures At(root, c, t') && Kept(c, t', c0, t)
    ensures ended ==> Lawful(c, t', n', m)
    ensures !ended ==> OneShort(c, t', n', m) && t'.Node? && t'.node == parent && (Red(t') || Depth(c) < Depth(c0))
  {
    SiblingThere(c0, t, n, m);
    LookSibling(root, c0, t);
    hide At, Foot, InOrder, OneShort, Lawful;
    c := c0;
    var other: RbNode := parent.left;
    if !other.black {
      c := RedLeft(other, parent, root, c0, t, n, m);
      LookSibling(root, c, t);
      other := parent.left;
    }
    ended, c, t', n' := FixRightBlack(other, parent, root, c, t, n, m);
  }

  // The same once the sibling is black.
  method FixRightBlack(other0: RbNode, parent: RbNode, root: RbRoot, ghost c0: Path, ghost t: Tree, ghost n: int,
      ghost m: int)
      returns (ended: bool, ghost c: Path, ghost t': Tree, ghost n': int)
    requires At(root, c0, t) && OneShort(c0, t, n, m) && c0.InRight? && c0.node == parent && !Red(t)
    requires c0.left.Node? && c0.left.black && c0.left.node == other0
    modifies root, Foot(c0, t)
    ensures At(root, c, t') && Kept(c, t', c0, t)
    ensures ended ==> Lawful(c, t', n', m)
    ensures !ended ==> OneShort(c, t', n', m) && c == c0.up && t'.Node? && t'.node == parent && t'.black == c0.black
  {
    LookSibling(root, c0, t);
    hide At, Foot, InOrder, OneShort, Lawful;
    c := c0;
    var other := other0;
    if (other.left == null || other.left.black) && (other.right == null || other.right.black) {
      t' := PaintSibling(other, root, c, t, n, m);
      ended, n', c := false, n + Weight(c.black), Up(c);
    } else {
      if other.left == null || other.left.black {
        c := NearLeft(other, parent, root, c, t, n, m);
        LookSibling(root, c, t);
        other := parent.left;
      }
      t' := EndLeft(other, parent, root, c, t, n, m);
      ended, n', c := true, n + 1 + Weight(c.black), c.up;
    }
  }


  lemma {:induction false} LawfulIsRb(root: RbRoot, c: Path, t: Tree, n: int, m: int)
    requires At(root, c, t) && Lawful(c, t, n, m)
    ensures At(root, Top, Plug(c, t)) && IsRb(Plug(c, t)) && Nodes(Plug(c, t)) == Foot(c, t)
  {
    ZipIff(root, c, t);
    PlugNodes(c, t);
    PlugBal(c, t, n, m);
    PlugCalm(c, t);
    PlugRoot(c, t);
  }

  // The last step on a node whose blackening restores the laws.
  lemma {:induction false} BlackenedLawful(c: Path, t: Tree, n: int, m: int)
    requires OneShort(c, t, n, m) && (Red(t) || c.Top?)
    ensures Red(t) && !c.Top? ==> Lawful(c, Painted(t, true), n + 1, m)
    ensures c.Top? && t.Node? ==> Lawful(Top, Painted(t, true), n + 1 - Weight(t.black), n + 1 - Weight(t.black))
    ensures c.Top? && t.Leaf? ==> Lawful(Top, t, n, n)
  {
  }

  // __rb_erase_color: from a tree one black node short at any place, back to a red-black tree.
  method EraseColor(node0: RbNode?, parent0: RbNode?, root: RbRoot, ghost c0: Path, ghost t0: Tree, ghost n0: int,
      ghost m: int)
      returns (ghost r: Tree)
    requires At(root, c0, t0) && OneShort(c0, t0, n0, m) && node0 == Root(t0) && parent0 == Holder(c0)
    modifies root, Foot(c0, t0)
    ensures At(root, Top, r) && IsRb(r)
    ensures InOrder(r) == InOrder(Plug(c0, t0)) && Nodes(r) == Foot(c0, t0)
  {
    hide At, Foot, InOrder, Lawful, OneShort;
    var node, parent := node0, parent0;
    ghost var c, t, n := c0, t0, n0;
    Look(root, c, t);
    AtRoot(root, c, t);
    while (node == null || node.black) && node != root.node
      invariant At(root, c, t) && OneShort(c, t, n, m) && Kept(c, t, c0, t0)
      invariant node == Root(t) && parent == Holder(c) && (node != null ==> node.black == t.black)
      invariant node == root.node <==> c.Top?
      decreases if Red(t) then 0 else 1 + Depth(c)
    {
      var ended;
      SiblingThere(c, t, n, m);
      LookSibling(root, c, t);
      if parent.left == node {
        ended, c, t, n := FixLeft(parent, root, c, t, n, m);
      } else {
        ended, c, t, n := FixRight(parent, root, c, t, n, m);
      }
      if ended {
        LawfulIsRb(root, c, t, n, m);
        r := Plug(c, t);
        r := BlackenTop(root, r);
        return;
      }
      node := parent;
      Look(root, c, t);
      AtRoot(root, c, t);
      parent := node.parent;
    }
    BlackenedLawful(c, t, n, m);
    if node != null {
      Inside(root, c, t);
      Paint(node, true, root, c, t);
      t := Painted(t, true);
    }
    ghost var n1, m1 :| Lawful(c, t, n1, m1);
    LawfulIsRb(root, c, t, n1, m1);
    r := Plug(c, t);
  }

  // After a rotation has ended the loop the root is blackened too, which it already is.
  method BlackenTop(root: RbRoot, ghost w: Tree) returns (ghost r: Tree)
    requires At(root, Top, w) && IsRb(w)
    modifies root, Nodes(w)
    ensures At(root, Top, r) && r == w
  {
    Look(root, Top, w);
    var node := root.node;
    if node != null {
      Paint(node, true, root, Top, w);
      assert Painted(w, true) == w;
    }
    r := w;
  }
}

module RbErase {
  import opened RbShape
  import opened RbRotate
  import opened RbZipper
  import opened RbLaws
  import opened RbInsert
  import opened RbEraseColor

  // ----- taking a node with at most one child out ------------------------------------------------

  // The only child of node takes its place.
  method Splice(node: RbNode, child: RbNode?, root: RbRoot, ghost c: Path, ghost t: Tree, ghost ct: Tree)
    requires At(root, c, t) && t.Node? && t.node == node && child == Root(ct)
    requires (t.left.Leaf? && ct == t.right) || (t.right.Leaf? && ct == t.left)
    modifies root, Foot(c, t) - {node}
    ensures At(root, c, ct) && Foot(c, ct) == Foot(c, t) - {node}
    ensures node.black == old(node.black) && node.parent == old(node.parent)
  {
    assert allocated(Nodes(ct)) && allocated(PathNodes(c));
    assert Rep(ct, node) && Sep(ct) && Nodes(t) == Nodes(ct) + {node} && node !in Nodes(ct);
    assert (ct.Node? ==> ct.node in Nodes(ct)) && (!c.Top? ==> c.node in PathNodes(c));
    hide Nodes, PathNodes, PathRep, Sep, PathSep;
    var parent := node.parent;
    SetParent(child, parent, ct, node);
    Relink(parent, node, child, root, c);
  }

  // ----- a path below a place ----------------------------------------------------------------------

  // The path d continued by base: what d sees as its top is at base.
  ghost function Under(d: Path, base: Path): Path {
    match d
    case Top => base
    case InLeft(up, x, b, r) => InLeft(Under(up, base), x, b, r)
    case InRight(l, x, b, up) => InRight(l, x, b, Under(up, base))
  }

  lemma {:induction false} UnderIff(root: RbRoot, d: Path, base: Path, t: Tree)
    ensures At(root, Under(d, base), t) <==> At(root, base, Plug(d, t))
    ensures Foot(Under(d, base), t) == Foot(base, Plug(d, t))
    ensures Plug(Under(d, base), t) == Plug(base, Plug(d, t))
    decreases d
  {
    if !d.Top? {
      MoveUp(root, Under(d, base), t);
      assert Up(Under(d, base)) == Under(Up(d), base) && Over(Under(d, base), t) == Over(d, t);
      UnderIff(root, Up(d), base, Over(d, t));
    }
  }

  // Turning left all the way down.
  ghost predicate LeftSpine(d: Path) {
    d.Top? || (d.InLeft? && LeftSpine(d.up))
  }

  lemma {:induction false} SpineOrder(d: Path, t: Tree)
    requires LeftSpine(d)
    ensures InOrder(Plug(d, t)) == InOrder(t) + After(d)
    decreases d
  {
    if d.InLeft? {
      SpineOrder(d.up, Node(t, d.node, d.black, d.right));
      Regroup([], InOrder(t), d.node, InOrder(d.right), After(d.up));
      assert [] + (InOrder(t) + [d.node] + InOrder(d.right)) == InOrder(t) + [d.node] + InOrder(d.right);
      assert [] + InOrder(t) == InOrder(t);
    } else {
      assert InOrder(t) + [] == InOrder(t);
    }
  }

  // The paths differ in the node at their base only, so the laws see no difference.
  ghost predicate SameColours(c: Path, c': Path) {
    match c
    case Top => c' == Top
    case InLeft(up, _, b, r) => c'.InLeft? && c'.black == b && c'.right == r && SameColours(up, c'.up)
    case InRight(l, _, b, up) => c'.InRight? && c'.black == b && c'.left == l && SameColours(up, c'.up)
  }

  lemma {:induction false} ColoursAreLaws(c: Path, c': Path, n: int, m: int)
    requires SameColours(c, c')
    ensures PathBal(c, n, m) <==> PathBal(c', n, m)
    ensures PathCalm(c) <==> PathCalm(c')
    ensures TopBlack(c) <==> TopBlack(c')
    ensures PathRed(c) <==> PathRed(c')
    decreases c
  {
    if !c.Top? {
      ColoursAreLaws(Up(c), Up(c'), n + Weight(c.black), m);
      LawsAbove(c, n, m);
      LawsAbove(c', n, m);
      assert Sibling(c) == Sibling(c') && (Up(c).Top? <==> Up(c').Top?);
    }
  }

  lemma {:induction false} UnderColours(d: Path, c: Path, c': Path)
    requires SameColours(c, c')
    ensures SameColours(Under(d, c), Under(d, c'))
    decreases d
  {
    if !d.Top? {
      UnderColours(Up(d), c, c');
    }
  }

  lemma {:induction false} ColoursRefl(c: Path)
    ensures SameColours(c, c)
  {
    if !c.Top? { ColoursRefl(Up(c)); }
  }

  // ----- what the laws say at a place -----------------------------------------------------------------

  lemma {:induction false} Unplug(c: Path, t: Tree, m: int) returns (n: int)
    requires Bal(Plug(c, t), m)
    ensures Bal(t, n) && PathBal(c, n, m)
    decreases c
  {
    if c.Top? {
      n := m;
    } else {
      var k := Unplug(Up(c), Over(c, t), m);
      n := k - Weight(c.black);
      LawsAbove(c, n, m);
    }
  }

  lemma {:induction false} LawsAt(c: Path, t: Tree) returns (n: int, m: int)
    requires IsRb(Plug(c, t)) && t.Node?
    ensures Calm(t) && Bal(t, n) && PathBal(c, n, m) && PathCalm(c) && TopBlack(c)
    ensures !(Red(t) && PathRed(c)) && (c.Top? ==> !Red(t))
  {
    m :| Bal(Plug(c, t), m);
    n := Unplug(c, t, m);
    PlugCalm(c, t);
    PlugRoot(c, t);
  }

  // Without node, whose only child is ct: one black node short, or lawful if node was red.
  lemma {:induction false} SplicedLaws(c: Path, t: Tree, ct: Tree, n: int, m: int)
    requires t.Node? && ((t.left.Leaf? && ct == t.right) || (t.right.Leaf? && ct == t.left))
    requires Calm(t) && Bal(t, n) && PathBal(c, n, m) && PathCalm(c) && TopBlack(c)
    requires !(Red(t) && PathRed(c)) && (c.Top? ==> !Red(t))
    ensures t.black ==> OneShort(c, ct, n - 1, m)
    ensures !t.black ==> Lawful(c, ct, n, m)
  {
  }

  // ----- a successor takes the place of the erased node -------------------------------------------------

  // What node takes over from old_ now points to node.
  method Adopt(old_: RbNode, node: RbNode, root: RbRoot, ghost c: Path, ghost l: Tree, ghost r: Tree)
    requires old_ != node && old_.left == Root(l) && old_.right == Root(r) && old_.parent == Holder(c) && l.Node?
    requires Rep(l, old_) && Rep(r, old_) && Sep(l) && Sep(r) && PathRep(c, old_, root) && PathSep(c)
    requires old_ !in Nodes(l) && old_ !in Nodes(r) && old_ !in PathNodes(c)
    requires node !in Nodes(l) && node !in Nodes(r) && node !in PathNodes(c)
    requires Nodes(l) !! Nodes(r) && Nodes(l) !! PathNodes(c) && Nodes(r) !! PathNodes(c)
    modifies root, Nodes(l), Nodes(r), PathNodes(c)
    ensures Rep(l, node) && Rep(r, node) && PathRep(c, node, root)
  {
    hide Nodes, PathNodes, PathRep, Sep, PathSep, Rep;
    assert allocated(Nodes(l)) && allocated(Nodes(r)) && allocated(PathNodes(c));
    TopNodes(l);
    TopNodes(r);
    PathTopNode(c);
    Relink(old_.parent, old_, node, root, c);
    SetParent(old_.left, node, l, old_);
    SetParent(old_.right, node, r, old_);
  }

  method Substitute(old_: RbNode, node: RbNode, root: RbRoot, ghost c: Path, ghost t: Tree)
    requires At(root, c, t) && t.Node? && t.node == old_ && t.left.Node? && node !in Foot(c, t)
    modifies root, node, Foot(c, t) - {old_}
    ensures At(root, c, Node(t.left, node, t.black, t.right))
    ensures Foot(c, Node(t.left, node, t.black, t.right)) == Foot(c, t) - {old_} + {node}
  {
    hide Nodes, PathNodes, PathRep, Sep, PathSep, Rep, At, Foot;
    ghost var l, r := t.left, t.right;
    assert allocated(Nodes(l)) && allocated(Nodes(r)) && allocated(PathNodes(c));
    Around(root, c, t);
    node.parent := old_.parent;
    node.black := old_.black;
    node.right := old_.right;
    node.left := old_.left;
    Adopt(old_, node, root, c, l, r);
    Reassemble(node, root, c, l, t.black, r);
  }

  // What is known at a place, taken apart.
  lemma {:induction false} Around(root: RbRoot, c: Path, t: Tree)
    requires At(root, c, t) && t.Node?
    ensures var x, l, r := t.node, t.left, t.right;
      && x.left == Root(l) && x.right == Root(r) && x.parent == Holder(c) && x.black == t.black
      && Rep(l, x) && Rep(r, x) && Sep(l) && Sep(r) && PathRep(c, x, root) && PathSep(c)
      && x !in Nodes(l) && x !in Nodes(r) && x !in PathNodes(c)
      && Nodes(l) !! Nodes(r) && Nodes(l) !! PathNodes(c) && Nodes(r) !! PathNodes(c)
      && Foot(c, t) == PathNodes(c) + Nodes(l) + {x} + Nodes(r)
  {
    hide PathNodes, PathRep, PathSep;
  }

  // And put together again.
  lemma {:induction false} Reassemble(node: RbNode, root: RbRoot, c: Path, l: Tree, black: bool, r: Tree)
    requires node.left == Root(l) && node.right == Root(r) && node.parent == Holder(c) && node.black == black
    requires Rep(l, node) && Rep(r, node) && Sep(l) && Sep(r) && PathRep(c, node, root) && PathSep(c)
    requires node !in Nodes(l) && node !in Nodes(r) && node !in PathNodes(c)
    requires Nodes(l) !! Nodes(r) && Nodes(l) !! PathNodes(c) && Nodes(r) !! PathNodes(c)
    ensures At(root, c, Node(l, node, black, r)) && Foot(c, Node(l, node, black, r)) == PathNodes(c) + Nodes(l) + {node} + Nodes(r)
  {
    hide PathNodes, PathRep, PathSep;
  }

  // ----- rb_erase -------------------------------------------------------------------------------------

  // The leftmost node below the right child of old_, seen from the path d that leads to it.
  method Successor(old_: RbNode, root: RbRoot, ghost c: Path, ghost t: Tree)
      returns (node: RbNode, ghost d: Path, ghost tt: Tree)
    requires At(root, c, t) && t.Node? && t.node == old_ && t.right.Node?
    ensures var base := InRight(t.left, old_, t.black, c);
      && At(root, Under(d, base), tt) && LeftSpine(d) && Plug(d, tt) == t.right
      && tt.Node? && tt.left.Leaf? && tt.node == node
      && Foot(Under(d, base), tt) == Foot(c, t) && Plug(Under(d, base), tt) == Plug(c, t)
  {
    hide At, Foot, InOrder;
    ghost var base := InRight(t.left, old_, t.black, c);
    StepIff(root, c, t.left, old_, t.black, t.right);
    Look(root, c, t);
    node := old_.right;
    d, tt := Top, t.right;
    Look(root, base, tt);
    while node.left != null
      invariant At(root, Under(d, base), tt) && LeftSpine(d) && Plug(d, tt) == t.right
      invariant tt.Node? && tt.node == node && node.left == Root(tt.left)
      decreases tt
    {
      StepIff(root, Under(d, base), tt.left, node, tt.black, tt.right);
      d := InLeft(d, node, tt.black, tt.right);
      node := node.left;
      tt := tt.left;
      Look(root, Under(d, base), tt);
    }
    UnderIff(root, d, base, tt);
  }

  // What the order loses when old_ goes and its successor moves up.
  lemma {:induction false} SuccessorOrder(c: Path, t: Tree, d: Path, tt: Tree)
    requires t.Node? && LeftSpine(d) && Plug(d, tt) == t.right && tt.Node? && tt.left.Leaf?
    ensures InOrder(Plug(Under(d, InRight(t.left, tt.node, t.black, c)), tt.right))
         == Before(c) + InOrder(t.left) + InOrder(t.right) + After(c)
  {
    SpineOrder(d, tt);
    SpineOrder(d, tt.right);
    UnderPlug(d, InRight(t.left, tt.node, t.black, c), tt.right);
    PlugInOrder(c, Node(t.left, tt.node, t.black, Plug(d, tt.right)));
    Shuffle(Before(c), InOrder(t.left), [tt.node], InOrder(tt.right), After(d), After(c));
    assert InOrder(tt) == [] + [tt.node] + InOrder(tt.right);
  }

  lemma {:induction false} Shuffle<A>(p: seq<A>, a: seq<A>, x: seq<A>, b: seq<A>, e: seq<A>, q: seq<A>)
    ensures p + (a + x + (b + e)) + q == p + a + (([] + x + b) + e) + q
  {
  }

  lemma {:induction false} UnderPlug(d: Path, base: Path, t: Tree)
    ensures Plug(Under(d, base), t) == Plug(base, Plug(d, t))
    decreases d
  {
    if !d.Top? {
      assert Up(Under(d, base)) == Under(Up(d), base) && Over(Under(d, base), t) == Over(d, t);
      UnderPlug(Up(d), base, Over(d, t));
    }
  }

  lemma {:induction false} BaseIsOnPath(d: Path, base: Path)
    requires !base.Top?
    ensures base.node in PathNodes(Under(d, base))
    decreases d
  {
    if !d.Top? {
      BaseIsOnPath(Up(d), base);
    }
  }

  // The successor's parent is the erased node only when the successor is its right child.
  lemma {:induction false} BaseIsAbove(root: RbRoot, d: Path, base: Path, t: Tree)
    requires At(root, Under(d, base), t) && t.Node? && !base.Top?
    ensures t.node != base.node && base.node in Foot(Under(d, base), t)
    ensures Holder(Under(d, base)) == base.node <==> d.Top?
    ensures !d.Top? ==> Holder(Under(d, base)) == d.node
  {
    BaseIsOnPath(d, base);
    if !d.Top? {
      BaseIsOnPath(Up(d), base);
    }
  }

  lemma {:induction false} Recoloured(c: Path, c': Path, t: Tree, n: int, m: int)
    requires SameColours(c, c')
    ensures OneShort(c, t, n, m) <==> OneShort(c', t, n, m)
    ensures Lawful(c, t, n, m) <==> Lawful(c', t, n, m)
  {
    ColoursAreLaws(c, c', n, m);
    ColoursAreLaws(c, c', n + 1, m);
  }

  // The branch for a node with two children, up to the label color.
  method Lift(old_: RbNode, root: RbRoot, ghost c: Path, ghost t: Tree)
      returns (child: RbNode?, parent: RbNode?, black: bool, ghost c': Path, ghost ct: Tree, ghost n: int, ghost m: int)
    requires At(root, c, t) && t.Node? && t.node == old_ && t.left.Node? && t.right.Node? && IsRb(Plug(c, t))
    modifies root, Foot(c, t)
    ensures At(root, c', ct) && child == Root(ct) && parent == Holder(c')
    ensures if black then OneShort(c', ct, n, m) else Lawful(c', ct, n, m)
    ensures InOrder(Plug(c', ct)) == Before(c) + InOrder(t.left) + InOrder(t.right) + After(c)
    ensures Foot(c', ct) == Foot(c, t) - {old_}
  {
    hide At, Foot, InOrder, OneShort, Lawful, IsRb;
    var node;
    ghost var d, tt;
    node, d, tt := Successor(old_, root, c, t);
    ghost var base, base' := InRight(t.left, old_, t.black, c), InRight(t.left, node, t.black, c);
    n, m := LawsAt(Under(d, base), tt);
    SuccessorOrder(c, t, d, tt);
    ct := tt.right;
    SplicedLaws(Under(d, base), tt, ct, n, m);
    Look(root, Under(d, base), tt);
    BaseIsAbove(root, d, base, tt);
    child := node.right;
    parent := node.parent;
    black := node.black;
    Splice(node, child, root, Under(d, base), tt, ct);
    if parent == old_ {
      parent := node;
    }
    UnderIff(root, d, base, ct);
    StepIff(root, c, t.left, old_, t.black, Plug(d, ct));
    Substitute(old_, node, root, c, Node(t.left, old_, t.black, Plug(d, ct)));
    StepIff(root, c, t.left, node, t.black, Plug(d, ct));
    UnderIff(root, d, base', ct);
    c' := Under(d, base');
    n := if black then n - 1 else n;
    ColoursRefl(c);
    UnderColours(d, base, base');
    Recoloured(Under(d, base), c', ct, n, m);
  }

  // The branch for a node with at most one child.
  lemma {:induction false} SplicedOrder(c: Path, t: Tree, ct: Tree)
    requires t.Node? && ((t.left.Leaf? && ct == t.right) || (t.right.Leaf? && ct == t.left))
    ensures InOrder(Plug(c, ct)) == Before(c) + InOrder(t.left) + InOrder(t.right) + After(c)
  {
    hide Plug, Before, After, InOrder;
    PlugInOrder(c, ct);
    LeafOrder(t.left);
    LeafOrder(t.right);
    Joined(Before(c), InOrder(t.left), InOrder(t.right), After(c));
  }

  lemma {:induction false} LeafOrder(t: Tree)
    ensures t.Leaf? ==> InOrder(t) == []
  {
  }

  lemma {:induction false} Joined<A>(b: seq<A>, x: seq<A>, y: seq<A>, a: seq<A>)
    ensures b + (x + y) + a == b + x + y + a && (x == [] ==> x + y == y) && (y == [] ==> x + y == x)
  {
  }

  method TakeOut(node: RbNode, child: RbNode?, root: RbRoot, ghost c: Path, ghost t: Tree)
      returns (parent: RbNode?, black: bool, ghost ct: Tree, ghost n: int, ghost m: int)
    requires At(root, c, t) && t.Node? && t.node == node && IsRb(Plug(c, t))
    requires (t.left.Leaf? && child == Root(t.right)) || (t.right.Leaf? && child == Root(t.left))
    modifies root, Foot(c, t)
    ensures At(root, c, ct) && child == Root(ct) && parent == Holder(c)
    ensures if black then OneShort(c, ct, n, m) else Lawful(c, ct, n, m)
    ensures InOrder(Plug(c, ct)) == Before(c) + InOrder(t.left) + InOrder(t.right) + After(c)
    ensures Foot(c, ct) == Foot(c, t) - {node}
  {
    hide At, Foot, OneShort, Lawful, IsRb, InOrder, Before, After, Plug, Bal, Calm, PathBal, PathCalm;
    ct := if t.left.Leaf? then t.right else t.left;
    n, m := LawsAt(c, t);
    SplicedLaws(c, t, ct, n, m);
    SplicedOrder(c, t, ct);
    Look(root, c, t);
    parent := node.parent;
    black := node.black;
    Splice(node, child, root, c, t, ct);
    n := if black then n - 1 else n;
  }

  // rb_erase: any node of a red-black tree goes; the rest keeps its order and is a red-black tree.
  method EraseAt(node: RbNode, root: RbRoot, ghost c: Path, ghost t: Tree) returns (ghost r: Tree)
    requires At(root, c, t) && t.Node? && t.node == node && IsRb(Plug(c, t))
    modifies root, Foot(c, t)
    ensures At(root, Top, r) && IsRb(r)
    ensures InOrder(r) == Before(c) + InOrder(t.left) + InOrder(t.right) + After(c)
    ensures Nodes(r) == Foot(c, t) - {node}
  {
    hide At, Foot, InOrder, OneShort, Lawful, IsRb;
    Look(root, c, t);
    var child, parent, black;
    ghost var c', ct, n, m;
    if node.left == null {
      child := node.right;
      parent, black, ct, n, m := TakeOut(node, child, root, c, t);
      c' := c;
    } else if node.right == null {
      child := node.left;
      parent, black, ct, n, m := TakeOut(node, child, root, c, t);
      c' := c;
    } else {
      child, parent, black, c', ct, n, m := Lift(node, root, c, t);
    }
    if black {
      r := EraseColor(child, parent, root, c', ct, n, m);
    } else {
      LawfulIsRb(root, c', ct, n, m);
      r := Plug(c', ct);
    }
  }
}
