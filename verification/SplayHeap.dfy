/** SPLAY_HEAD, and the pointer surgery of a splay. */
module SplayHeap {
  import opened Order
  import opened SplayShape

  function Root(t: Tree): Node? {
    if t.Leaf? then null else t.node
  }

  function Last(sp: Spine, dummy: Node): Node {
    if sp.End? then dummy else sp.node
  }

  ghost predicate Rep(t: Tree, n: Node?)
    reads Nodes(t)
  {
    match t
    case Leaf => n == null
    case Branch(l, x, r) => n == x && Rep(l, x.left) && Rep(r, x.right)
  }

  /** A partial tree hanging off the dummy node; the link at its open end is free. */
  ghost predicate RepSpine(s: Side, sp: Spine, dummy: Node)
    reads dummy, SpineNodes(sp)
  {
    match sp
    case End => true
    case Link(up, x, sub) =>
      Rep(sub, x.Child(s)) && Last(up, dummy).Child(s.Other()) == x && RepSpine(s, up, dummy)
  }

  lemma {:induction false} RepClose(s: Side, sp: Spine, dummy: Node, t: Tree, n: Node?)
    requires RepSpine(s, sp, dummy) && Last(sp, dummy).Child(s.Other()) == n && Rep(t, n)
    ensures Rep(Close(s, sp, t), dummy.Child(s.Other()))
    decreases sp
  {
    match sp
    case End =>
    case Link(up, x, sub) => RepClose(s, up, dummy, Mk(s, sub, x, t), x);
  }

  ghost predicate Split(own: Spine, other: Spine, t: Tree, dummy: Node) {
    && Distinct(t) && SpineDistinct(own) && SpineDistinct(other)
    && Nodes(t) !! SpineNodes(own) && Nodes(t) !! SpineNodes(other) && SpineNodes(own) !! SpineNodes(other)
    && dummy !in Nodes(t) && dummy !in SpineNodes(own) && dummy !in SpineNodes(other)
  }

  lemma DistinctMk(s: Side, near: Tree, x: Node, far: Tree)
    ensures Nodes(Mk(s, near, x, far)) == Nodes(near) + {x} + Nodes(far)
    ensures Distinct(Mk(s, near, x, far)) <==>
            Distinct(near) && Distinct(far) && x !in Nodes(near) && x !in Nodes(far) && Nodes(near) !! Nodes(far)
  {}

  lemma RepMk(s: Side, near: Tree, x: Node, far: Tree, n: Node?)
    ensures Rep(Mk(s, near, x, far), n) <==> n == x && Rep(near, x.Child(s)) && Rep(far, x.Child(s.Other()))
  {}

  lemma SplitLink(s: Side, own: Spine, other: Spine, sub: Tree, x: Node, rest: Tree, dummy: Node)
    requires Split(own, other, Mk(s, sub, x, rest), dummy)
    ensures Split(Link(own, x, sub), other, rest, dummy)
    ensures Last(own, dummy) !in Nodes(sub) && Last(own, dummy) !in Nodes(rest) &&
            Last(own, dummy) !in SpineNodes(other)
    ensures Last(own, dummy) != x
  {
    DistinctMk(s, sub, x, rest);
  }

  lemma TurnNodes(s: Side, a: Tree, y: Node, b: Tree, x: Node, c: Tree)
    requires Distinct(Mk(s, c, x, Mk(s, b, y, a)))
    ensures Distinct(Mk(s, Mk(s, c, x, b), y, a))
    ensures Nodes(Mk(s, Mk(s, c, x, b), y, a)) == Nodes(Mk(s, c, x, Mk(s, b, y, a)))
    ensures x !in Nodes(a) && x !in Nodes(b) && x !in Nodes(c)
    ensures y !in Nodes(a) && y !in Nodes(b) && y !in Nodes(c)
    ensures x != y && {x, y} <= Nodes(Mk(s, c, x, Mk(s, b, y, a)))
  {
    DistinctMk(s, b, y, a);
    DistinctMk(s, c, x, Mk(s, b, y, a));
    DistinctMk(s, c, x, b);
    DistinctMk(s, Mk(s, c, x, b), y, a);
  }

  lemma AssembledNodes(l: Spine, r: Spine, a: Tree, x: Node, b: Tree, dummy: Node)
    requires Split(l, r, Branch(a, x, b), dummy)
    ensures var t := Branch(Close(Left, l, a), x, Close(Right, r, b));
            Distinct(t) && Nodes(t) == Nodes(Branch(a, x, b)) + SpineNodes(l) + SpineNodes(r)
  {
    CloseNodes(Left, l, a);
    CloseNodes(Right, r, b);
  }

  lemma {:induction false} NodesAllocated(t: Tree)
    ensures forall x :: x in Nodes(t) ==> allocated(x)
  {
    match t
    case Leaf =>
    case Branch(l, x, r) => NodesAllocated(l); NodesAllocated(r);
  }

  lemma {:induction false} SpineAllocated(sp: Spine)
    ensures forall x :: x in SpineNodes(sp) ==> allocated(x)
  {
    match sp
    case End =>
    case Link(up, x, sub) => SpineAllocated(up); NodesAllocated(sub);
  }

  // ----- what a few pointer writes leave alone

  twostate predicate Kept(S: set<Node>)
    reads S
  {
    forall z :: z in S ==> unchanged(z)
  }

  datatype Place = Place(t: Tree, n: Node?)

  datatype Hanging = Hanging(s: Side, sp: Spine, dummy: Node)

  twostate lemma SameRep(q: Place)
    requires old(Rep(q.t, q.n)) && Kept(Nodes(q.t))
    ensures Rep(q.t, q.n)
  {}

  twostate lemma {:induction false} SameSpine(q: Hanging)
    requires old(RepSpine(q.s, q.sp, q.dummy)) && Kept(SpineNodes(q.sp))
    requires q.dummy.Child(q.s.Other()) == old(q.dummy.Child(q.s.Other()))
    ensures RepSpine(q.s, q.sp, q.dummy)
    decreases q.sp
  {
    if q.sp.End? {
    } else {
      SameRep(Place(q.sp.sub, old(q.sp.node.Child(q.s))));
      SameSpine(q.(sp := q.sp.up));
    }
  }

  /** The link at the open end of a partial tree may change. */
  twostate lemma OpenEnd(q: Hanging)
    requires old(RepSpine(q.s, q.sp, q.dummy)) && SpineDistinct(q.sp) && q.dummy !in SpineNodes(q.sp)
    requires q.sp.Link? ==>
               Kept(SpineNodes(q.sp.up)) && Kept(Nodes(q.sp.sub)) && unchanged(q.dummy) &&
               q.sp.node.Child(q.s) == old(q.sp.node.Child(q.s))
    ensures RepSpine(q.s, q.sp, q.dummy)
  {
    if q.sp.Link? {
      SameRep(Place(q.sp.sub, old(q.sp.node.Child(q.s))));
      SameSpine(q.(sp := q.sp.up));
    }
  }

  class SplayHead {
    const cmp: Comparison
    var root: Node?
    ghost var shape: Tree
    ghost var nodes: set<Node>  // the nodes of shape

    /** SPLAY_INIT */
    constructor (cmp: Comparison)
      requires TotalOrder(cmp)
      ensures Valid() && Contents() == [] && this.cmp == cmp
    {
      this.cmp := cmp;
      root := null;
      shape, nodes := Leaf, {};
    }

    ghost function Contents(): seq<Node>
      reads this
    {
      InOrder(shape)
    }

    ghost predicate Valid()
      reads this, nodes
    {
      nodes == Nodes(shape) && Distinct(shape) && Rep(shape, root) &&
      TotalOrder(cmp) && Ascending(cmp, Contents())
    }

    /** In the middle of a splay: `t` below the root, and the partial trees `own` on side
        `s` and `other` on the other side, both hanging off the dummy. */
    ghost predicate Open(s: Side, own: Spine, other: Spine, t: Tree, dummy: Node)
      reads this, dummy, SpineNodes(own), SpineNodes(other), Nodes(t)
    {
      Rep(t, root) && RepSpine(s, own, dummy) && RepSpine(s.Other(), other, dummy) && Split(own, other, t, dummy)
    }

    /** What the links out of the root are. */
    lemma Child(t: Tree)
      requires Rep(t, root) && t.Branch?
      ensures root == t.node && root.left == Root(t.left) && root.right == Root(t.right)
      ensures forall s: Side :: root.Child(s) == Root(Sub(t, s))
    {
      assert Rep(t.left, root.left) && Rep(t.right, root.right);
    }

    /** SPLAY_LINKLEFT (s == Right) and SPLAY_LINKRIGHT (s == Left): the root and its
        subtree on side `s` join the partial tree of that side. */
    method LinkOut(s: Side, last: Node, ghost own: Spine, ghost other: Spine, ghost sub: Tree, ghost rest: Tree,
                   ghost dummy: Node) returns (next: Node)
      requires root != null && Open(s, own, other, Mk(s, sub, root, rest), dummy) && last == Last(own, dummy)
      modifies this`root, last
      ensures next == old(root)
      ensures Open(s, Link(own, next, sub), other, rest, dummy)
    {
      ghost var x := root;
      SplitLink(s, own, other, sub, x, rest, dummy);
      RepMk(s, sub, x, rest, x);
      NodesAllocated(sub);
      NodesAllocated(rest);
      SpineAllocated(own);
      SpineAllocated(other);
      last.SetChild(s.Other(), root);
      next := root;
      root := next.Child(s.Other());
      SameRep(Place(sub, x.Child(s)));
      SameRep(Place(rest, x.Child(s.Other())));
      OpenEnd(Hanging(s, own, dummy));
      SameSpine(Hanging(s.Other(), other, dummy));
    }

    /** SPLAY_ROTATE_RIGHT (s == Right) and SPLAY_ROTATE_LEFT (s == Left): the root moves
        down to side `s` and its child `tmp` on the other side takes its place. */
    method Rotate(s: Side, tmp: Node, ghost own: Spine, ghost other: Spine, ghost a: Tree, ghost b: Tree,
                  ghost c: Tree, ghost dummy: Node)
      requires root != null && Open(s, own, other, Mk(s, c, root, Mk(s, b, tmp, a)), dummy)
      modifies this`root, root, tmp
      ensures Open(s, own, other, Mk(s, Mk(s, c, old(root), b), tmp, a), dummy)
    {
      ghost var x := root;
      TurnNodes(s, a, tmp, b, x, c);
      assert x !in SpineNodes(own) && x !in SpineNodes(other) && x != dummy;
      assert tmp !in SpineNodes(own) && tmp !in SpineNodes(other) && tmp != dummy;
      SpineAllocated(own);
      SpineAllocated(other);
      Turn(s, tmp, a, b, c);
      assert RepSpine(s, own, dummy) by { SameSpine(Hanging(s, own, dummy)); }
      assert RepSpine(s.Other(), other, dummy) by { SameSpine(Hanging(s.Other(), other, dummy)); }
    }

    method Turn(s: Side, tmp: Node, ghost a: Tree, ghost b: Tree, ghost c: Tree)
      requires root != null && Rep(Mk(s, c, root, Mk(s, b, tmp, a)), root) && root != tmp
      requires root !in Nodes(a) && root !in Nodes(b) && root !in Nodes(c)
      requires tmp !in Nodes(a) && tmp !in Nodes(b) && tmp !in Nodes(c)
      modifies this`root, root, tmp
      ensures Rep(Mk(s, Mk(s, c, old(root), b), tmp, a), root)
    {
      var x := root;
      RepMk(s, b, tmp, a, tmp);
      RepMk(s, c, x, Mk(s, b, tmp, a), x);
      NodesAllocated(a);
      NodesAllocated(b);
      NodesAllocated(c);
      x.SetChild(s.Other(), tmp.Child(s));
      tmp.SetChild(s, x);
      root := tmp;
      SameRep(Place(a, tmp.Child(s.Other())));
      SameRep(Place(b, x.Child(s.Other())));
      SameRep(Place(c, x.Child(s)));
      RepMk(s, c, x, b, x);
      RepMk(s, Mk(s, c, x, b), tmp, a, tmp);
    }

    /** The open end of the partial tree on side `s` gets its link. */
    method Hang(s: Side, last: Node, n: Node?, ghost own: Spine, ghost other: Spine, ghost t: Tree, ghost dummy: Node)
      requires Open(s, own, other, t, dummy) && last == Last(own, dummy)
      modifies last
      ensures Open(s, own, other, t, dummy)
      ensures last.Child(s.Other()) == n && last.Child(s) == old(last.Child(s))
    {
      NodesAllocated(t);
      SpineAllocated(own);
      SpineAllocated(other);
      last.SetChild(s.Other(), n);
      SameRep(Place(t, root));
      OpenEnd(Hanging(s, own, dummy));
      SameSpine(Hanging(s.Other(), other, dummy));
    }

    /** SPLAY_ASSEMBLE */
    method Assemble(node: Node, left: Node, right: Node, ghost l: Spine, ghost r: Spine, ghost a: Tree, ghost b: Tree)
      requires root != null && Open(Left, l, r, Branch(a, root, b), node)
      requires left == Last(l, node) && right == Last(r, node)
      modifies left, right, root
      ensures var t := Branch(Close(Left, l, a), root, Close(Right, r, b));
              Rep(t, root) && Distinct(t) && Nodes(t) == Nodes(Branch(a, root, b)) + SpineNodes(l) + SpineNodes(r)
    {
      ghost var t := Branch(a, root, b);
      Hang(Left, left, root.left, l, r, t, node);
      Hang(Right, right, root.right, r, l, t, node);
      AssembledNodes(l, r, a, root, b, node);
      RepClose(Left, l, node, a, root.left);
      RepClose(Right, r, node, b, root.right);
      SetBoth(root, node.right, node.left, Close(Left, l, a), Close(Right, r, b));
    }

    method SetBoth(x: Node, n: Node?, m: Node?, ghost a: Tree, ghost b: Tree)
      requires Rep(a, n) && Rep(b, m) && x !in Nodes(a) && x !in Nodes(b)
      modifies x`left, x`right
      ensures Rep(Branch(a, x, b), x)
    {
      x.left := n;
      x.right := m;
    }
  }
}
