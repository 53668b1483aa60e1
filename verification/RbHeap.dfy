/** How shapes and contexts are laid out in the heap, and the pointer surgery on them. */
module RbHeap {
  import opened Order
  import opened RbShape

  function Root(t: Tree): Node? {
    if t.Leaf? then null else t.node
  }

  /** The parent link of whatever fills the hole; `p` is the link above the context. */
  function Parent(c: Ctx, p: Node?): Node? {
    if c.Top? then p else c.node
  }

  /** `n` is the root of a subtree of shape `t` hanging below `p`. */
  ghost predicate Rep(t: Tree, n: Node?, p: Node?)
    reads Nodes(t)
  {
    match t
    case Leaf => n == null
    case Branch(l, x, c, r) =>
      n == x && x.parent == p && x.color == c && Rep(l, x.left, x) && Rep(r, x.right, x)
  }

  /** The hole of `c` holds the link `n`; the outermost node is `root`, below `p`. */
  ghost predicate RepCtx(c: Ctx, n: Node?, root: Node?, p: Node?)
    reads CtxNodes(c)
  {
    match c
    case Top => n == root
    case Down(s, up, x, col, o) =>
      x.Child(s) == n && x.parent == Parent(up, p) && x.color == col &&
      Rep(o, x.Child(s.Other()), x) && RepCtx(up, x, root, p)
  }

  /** Three subtrees, two nodes and a context share no node. */
  ghost predicate Spread(a: Tree, x: Node, b: Tree, y: Node, e: Tree, c: Ctx) {
    && x != y && Distinct(a) && Distinct(b) && Distinct(e) && CtxDistinct(c)
    && x !in Nodes(a) && x !in Nodes(b) && x !in Nodes(e) && x !in CtxNodes(c)
    && y !in Nodes(a) && y !in Nodes(b) && y !in Nodes(e) && y !in CtxNodes(c)
    && Nodes(a) !! Nodes(b) && Nodes(a) !! Nodes(e) && Nodes(a) !! CtxNodes(c)
    && Nodes(b) !! Nodes(e) && Nodes(b) !! CtxNodes(c) && Nodes(e) !! CtxNodes(c)
  }

  lemma RepMk(s: Side, near: Tree, x: Node, c: Color, far: Tree, n: Node?, p: Node?)
    ensures Rep(Mk(s, near, x, c, far), n, p) <==>
            n == x && x.parent == p && x.color == c &&
            Rep(near, x.Child(s), x) && Rep(far, x.Child(s.Other()), x)
  {}

  lemma DistinctMk(s: Side, near: Tree, x: Node, c: Color, far: Tree)
    ensures Nodes(Mk(s, near, x, c, far)) == Nodes(near) + {x} + Nodes(far)
    ensures Distinct(Mk(s, near, x, c, far)) <==>
            Distinct(near) && Distinct(far) && x !in Nodes(near) && x !in Nodes(far) && Nodes(near) !! Nodes(far)
  {}

  lemma {:induction false} NodesAllocated(t: Tree)
    ensures forall x :: x in Nodes(t) ==> allocated(x)
  {
    match t
    case Leaf =>
    case Branch(l, x, c, r) => NodesAllocated(l); NodesAllocated(r);
  }

  lemma {:induction false} CtxAllocated(c: Ctx)
    ensures forall x :: x in CtxNodes(c) ==> allocated(x)
  {
    match c
    case Top =>
    case Down(s, up, x, col, o) => CtxAllocated(up); NodesAllocated(o);
  }

  // ----- what a few pointer writes do to a shape

  /** A subtree together with the links into and out of its root. */
  datatype Place = Place(t: Tree, n: Node?, p: Node?)

  /** A context, the link in its hole, and the tree's root link. */
  datatype Hole = Hole(c: Ctx, n: Node?, root: Node?)

  twostate predicate Kept(S: set<Node>, but: Node?)
    reads S
  {
    forall z :: z in S && z != but ==> unchanged(z)
  }

  /** Nothing in the subtree changed. */
  twostate lemma Untouched(q: Place)
    requires old(Rep(q.t, q.n, q.p))
    requires Kept(Nodes(q.t), null)
    ensures Rep(q.t, q.n, q.p)
  {}

  /** Only the root's parent link changed. */
  twostate lemma Adopted(q: Place, new p: Node?)
    requires Distinct(q.t) && old(Rep(q.t, q.n, q.p))
    requires Kept(Nodes(q.t), q.n)
    requires q.n != null ==>
               q.n.parent == p && q.n.left == old(q.n.left) && q.n.right == old(q.n.right) &&
                 q.n.color == old(q.n.color)
    ensures Rep(q.t, q.n, p)
  {}

  /** Only the link in the hole changed. */
  twostate lemma Relinked(q: Hole, new n: Node?, new root: Node?)
    requires q.n != null && CtxDistinct(q.c) && q.n !in CtxNodes(q.c) && old(RepCtx(q.c, q.n, q.root, null))
    requires q.c.Top? ==> root == n
    requires q.c.Down? ==>
               root == q.root && Kept(CtxNodes(q.c), q.c.node) &&
               var top := q.c.node;
               top.parent == old(top.parent) && top.color == old(top.color) &&
               top.left == (if old(top.left) == q.n then n else old(top.left)) &&
               top.right == (if old(top.left) == q.n then old(top.right) else n)
    ensures RepCtx(q.c, n, root, null)
  {}

  /** RB_HEAD, with the comparison the tree was generated for. */
  class Head {
    const cmp: Comparison
    var root: Node?
    ghost var shape: Tree
    ghost var nodes: set<Node>  // the nodes of shape

    /** RB_INIT */
    constructor (cmp: Comparison)
      requires TotalOrder(cmp)
      ensures Valid() && Contents() == [] && this.cmp == cmp
    {
      this.cmp := cmp;
      root := null;
      shape, nodes := Leaf, {};
      new;
      assert Balanced(shape, 0);
    }

    /** The nodes of the tree in ascending order. */
    ghost function Contents(): seq<Node>
      reads this
    {
      InOrder(shape)
    }

    /** A red-black search tree with consistent links in both directions. */
    ghost predicate Valid()
      reads this, nodes
    {
      nodes == Nodes(shape) && Zipped(shape, Top) && RedBlack(shape) && TotalOrder(cmp) && Ascending(cmp, Contents())
    }

    /** The whole tree, seen as the subtree `t` in the surroundings `c`. */
    ghost predicate Zipped(t: Tree, c: Ctx)
      reads this, Nodes(t), CtxNodes(c)
    {
      Apart(t, c) && Rep(t, Root(t), Parent(c, null)) && RepCtx(c, Root(t), root, null)
    }

    /** The links of the branch Mk(s, a, x, cx, Mk(s, b, y, cy, e)) in `c`, one by one. */
    ghost predicate Hinged(s: Side, a: Tree, x: Node, cx: Color, b: Tree, y: Node, cy: Color, e: Tree, c: Ctx)
      reads this, x, y, Nodes(a), Nodes(b), Nodes(e), CtxNodes(c)
    {
      && x.Child(s.Other()) == y && x.color == cx && y.color == cy
      && y.parent == x && x.parent == Parent(c, null) && RepCtx(c, x, root, null)
      && Rep(a, x.Child(s), x) && Rep(b, y.Child(s), y) && Rep(e, y.Child(s.Other()), y)
    }

    lemma Hinge(s: Side, a: Tree, x: Node, cx: Color, b: Tree, y: Node, cy: Color, e: Tree, c: Ctx)
      requires Zipped(Mk(s, a, x, cx, Mk(s, b, y, cy, e)), c)
      ensures Hinged(s, a, x, cx, b, y, cy, e, c) && Spread(a, x, b, y, e, c)
    {
      DistinctMk(s, b, y, cy, e);
      DistinctMk(s, a, x, cx, Mk(s, b, y, cy, e));
      RepMk(s, a, x, cx, Mk(s, b, y, cy, e), x, Parent(c, null));
      RepMk(s, b, y, cy, e, y, x);
    }

    lemma Unhinge(s: Side, a: Tree, x: Node, cx: Color, b: Tree, y: Node, cy: Color, e: Tree, c: Ctx)
      requires Hinged(s, a, x, cx, b, y, cy, e, c) && Spread(a, x, b, y, e, c)
      ensures Zipped(Mk(s, a, x, cx, Mk(s, b, y, cy, e)), c)
    {
      DistinctMk(s, b, y, cy, e);
      DistinctMk(s, a, x, cx, Mk(s, b, y, cy, e));
      RepMk(s, a, x, cx, Mk(s, b, y, cy, e), x, Parent(c, null));
      RepMk(s, b, y, cy, e, y, x);
    }

    /** RB_ROTATE_LEFT (s == Left) and RB_ROTATE_RIGHT (s == Right): `elm` moves down
        to side `s` and its child on the other side takes its place. */
    method Rotate(s: Side, elm: Node, ghost a: Tree, ghost cx: Color, ghost b: Tree, ghost y: Node,
                  ghost cy: Color, ghost e: Tree, ghost c: Ctx) returns (tmp: Node)
      requires Zipped(Mk(s, a, elm, cx, Mk(s, b, y, cy, e)), c)
      modifies this, elm, y, Nodes(b), CtxNodes(c)
      ensures tmp == y
      ensures Zipped(Mk(s, Mk(s, a, elm, cx, b), y, cy, e), c)
    {
      Hinge(s, a, elm, cx, b, y, cy, e, c);
      tmp := RotateLinks(s, elm, a, cx, b, y, cy, e, c);
      Unhinge(s.Other(), e, y, cy, b, elm, cx, a, c);
    }

    method RotateLinks(s: Side, elm: Node, ghost a: Tree, ghost cx: Color, ghost b: Tree, ghost y: Node,
                       ghost cy: Color, ghost e: Tree, ghost c: Ctx) returns (tmp: Node)
      requires Hinged(s, a, elm, cx, b, y, cy, e, c) && Spread(a, elm, b, y, e, c)
      modifies this, elm, y, Nodes(b), CtxNodes(c)
      ensures tmp == y
      ensures Hinged(s.Other(), e, y, cy, b, elm, cx, a, c)
    {
      NodesAllocated(a);
      NodesAllocated(b);
      NodesAllocated(e);
      CtxAllocated(c);
      ghost var inner, was := y.Child(s), root;
      tmp := RotatePointers(s, elm, y, inner, elm.parent);
      assert Rep(a, elm.Child(s), elm) by { Untouched(Place(a, elm.Child(s), elm)); }
      assert Rep(e, y.Child(s.Other()), y) by { Untouched(Place(e, y.Child(s.Other()), y)); }
      assert Rep(b, inner, elm) by { Adopted(Place(b, inner, y), elm); }
      assert RepCtx(c, y, root, null) by { Relinked(Hole(c, elm, was), y, root); }
    }

    method RotatePointers(s: Side, elm: Node, ghost y: Node, ghost inner: Node?, ghost top: Node?) returns (tmp: Node)
      requires elm.Child(s.Other()) == y && y.Child(s) == inner && elm.parent == top
      requires elm != y && inner != elm && inner != y && top != elm && top != y && (inner != null ==> inner != top)
      requires top != null ==> (elm == top.left) != (elm == top.right)
      modifies this, elm, y, inner, top
      ensures tmp == y && elm.Child(s) == old(elm.Child(s)) && y.Child(s.Other()) == old(y.Child(s.Other()))
      ensures elm.Child(s.Other()) == inner && y.Child(s) == elm
      ensures elm.parent == y && y.parent == top
      ensures elm.color == old(elm.color) && y.color == old(y.color)
      ensures inner != null ==> inner.parent == elm && inner.left == old(inner.left) &&
                                inner.right == old(inner.right) && inner.color == old(inner.color)
      ensures top == null ==> root == y
      ensures top != null ==>
                root == old(root) && top.parent == old(top.parent) && top.color == old(top.color) &&
                top.left == (if old(top.left) == elm then y else old(top.left)) &&
                top.right == (if old(top.left) == elm then old(top.right) else y)
    {
      tmp := elm.Child(s.Other());
      elm.SetChild(s.Other(), tmp.Child(s));
      if tmp.Child(s) != null {
        tmp.Child(s).parent := elm;
      }
      tmp.parent := elm.parent;
      if tmp.parent != null {
        if elm == tmp.parent.left {
          tmp.parent.left := tmp;
        } else {
          tmp.parent.right := tmp;
        }
      } else {
        root := tmp;
      }
      tmp.SetChild(s, elm);
      elm.parent := tmp;
    }

    /** Recolouring one node. */
    method Paint(x: Node, col: Color, ghost l: Tree, ghost was: Color, ghost r: Tree, ghost c: Ctx)
      requires Zipped(Branch(l, x, was, r), c)
      modifies x`color
      ensures Zipped(Branch(l, x, col, r), c)
    {
      x.color := col;
    }

    /** Moving the focus to a child and back. */
    lemma Refocus(s: Side, t: Tree, x: Node, col: Color, o: Tree, c: Ctx)
      ensures Zipped(Mk(s, t, x, col, o), c) <==> Zipped(t, Down(s, c, x, col, o))
    {
      DistinctMk(s, t, x, col, o);
      RepMk(s, t, x, col, o, x, Parent(c, null));
    }

    /** Recolouring the node above the focus. */
    method PaintAbove(x: Node, col: Color, ghost t: Tree, ghost c: Ctx)
      requires Zipped(t, c) && c.Down? && x == c.node
      modifies x`color
      ensures Zipped(t, c.(color := col))
    {
      ghost var w := Mk(c.side, t, x, c.color, c.other);
      Refocus(c.side, t, x, c.color, c.other, c.up);
      Paint(x, col, w.left, w.color, w.right, c.up);
      Refocus(c.side, t, x, col, c.other, c.up);
    }

    /** Recolouring the sibling of the focus. */
    method PaintBeside(x: Node, col: Color, ghost t: Tree, ghost c: Ctx)
      requires Zipped(t, c) && c.Down? && c.other.Branch? && x == c.other.node
      modifies x`color
      ensures Zipped(t, c.(other := c.other.(color := col)))
    {
      ghost var o, d := c.other, c.side.Other();
      Refocus(c.side, t, c.node, c.color, o, c.up);
      Refocus(d, o, c.node, c.color, t, c.up);
      Paint(x, col, o.left, o.color, o.right, Down(d, c.up, c.node, c.color, t));
      Refocus(d, o.(color := col), c.node, c.color, t, c.up);
      Refocus(c.side, t, c.node, c.color, o.(color := col), c.up);
    }

    /** What the links out of the focus are. */
    lemma Sides(t: Tree, c: Ctx)
      requires Zipped(t, c) && t.Branch?
      ensures t.node.left == Root(t.left) && t.node.right == Root(t.right)
      ensures t.node.parent == Parent(c, null) && t.node.color == t.color
    {
      assert Rep(t.left, t.node.left, t.node) && Rep(t.right, t.node.right, t.node);
    }

    /** What the links around the focus are. */
    lemma Around(t: Tree, c: Ctx)
      requires Zipped(t, c) && c.Down?
      ensures c.node.Child(c.side) == Root(t) && c.node.Child(c.side.Other()) == Root(c.other)
      ensures c.node.parent == Parent(c.up, null) && c.node.color == c.color
      ensures t.Branch? ==> t.node.parent == c.node && (c.node.left == t.node <==> c.side == Left)
      ensures c.other.Branch? ==> c.other.node.color == c.other.color
      ensures Zipped(Mk(c.side, t, c.node, c.color, c.other), c.up)
    {
      Refocus(c.side, t, c.node, c.color, c.other, c.up);
    }

    /** The root of a tree with a focus on a node is one of its nodes. */
    lemma RootThere(t: Tree, c: Ctx)
      requires Zipped(t, c) && Nodes(t) + CtxNodes(c) != {}
      ensures root != null && root in Nodes(t) + CtxNodes(c) && Plug(t, c).Branch?
    {
      ZippedPlug(t, c);
      PlugNodes(t, c);
    }

    lemma {:induction false} ZippedPlug(t: Tree, c: Ctx)
      ensures Zipped(Plug(t, c), Top) <==> Zipped(t, c)
      decreases c
    {
      match c
      case Top =>
      case Down(s, up, x, col, o) =>
        Refocus(s, t, x, col, o, up);
        ZippedPlug(Mk(s, t, x, col, o), up);
    }
  }
}
