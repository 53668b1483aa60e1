/** The value level of the splay tree: shapes, and the two partial trees of a splay. */
module SplayShape {
  import opened Order

  datatype Tree = Leaf | Branch(left: Tree, node: Node, right: Tree)

  /** A branch seen from one side. */
  function Mk(s: Side, near: Tree, x: Node, far: Tree): Tree {
    if s == Left then Branch(near, x, far) else Branch(far, x, near)
  }

  function Sub(t: Tree, s: Side): Tree
    requires t.Branch?
  {
    if s == Left then t.left else t.right
  }

  function InOrder(t: Tree): seq<Node> {
    match t
    case Leaf => []
    case Branch(l, x, r) => InOrder(l) + [x] + InOrder(r)
  }

  function Nodes(t: Tree): set<Node> {
    match t
    case Leaf => {}
    case Branch(l, x, r) => Nodes(l) + {x} + Nodes(r)
  }

  function Size(t: Tree): nat {
    match t
    case Leaf => 0
    case Branch(l, x, r) => Size(l) + 1 + Size(r)
  }

  ghost predicate Distinct(t: Tree) {
    match t
    case Leaf => true
    case Branch(l, x, r) =>
      Distinct(l) && Distinct(r) && x !in Nodes(l) && x !in Nodes(r) && Nodes(l) !! Nodes(r)
  }

  /** The partial tree on side `s`, last node first: each node keeps its subtree on side
      `s`, and its link on the other side leads to the next node. */
  datatype Spine = End | Link(up: Spine, node: Node, sub: Tree)

  function SpineNodes(sp: Spine): set<Node> {
    match sp
    case End => {}
    case Link(up, x, sub) => SpineNodes(up) + {x} + Nodes(sub)
  }

  ghost predicate SpineDistinct(sp: Spine) {
    match sp
    case End => true
    case Link(up, x, sub) =>
      SpineDistinct(up) && Distinct(sub) && x !in SpineNodes(up) && x !in Nodes(sub) && SpineNodes(up) !! Nodes(sub)
  }

  function SpineOrder(s: Side, sp: Spine): seq<Node> {
    match sp
    case End => []
    case Link(up, x, sub) =>
      if s == Left then SpineOrder(s, up) + InOrder(sub) + [x] else [x] + InOrder(sub) + SpineOrder(s, up)
  }

  /** The partial tree with `t` hung at its open end. */
  function Close(s: Side, sp: Spine, t: Tree): Tree {
    match sp
    case End => t
    case Link(up, x, sub) => Close(s, up, Mk(s, sub, x, t))
  }

  lemma {:induction false} CloseInOrder(s: Side, sp: Spine, t: Tree)
    ensures InOrder(Close(s, sp, t)) ==
            if s == Left then SpineOrder(s, sp) + InOrder(t) else InOrder(t) + SpineOrder(s, sp)
  {
    match sp
    case End =>
    case Link(up, x, sub) =>
      CloseInOrder(s, up, Mk(s, sub, x, t));
      Regroup(SpineOrder(s, up), InOrder(sub), x, InOrder(t));
  }

  lemma Regroup(a: seq<Node>, b: seq<Node>, x: Node, c: seq<Node>)
    ensures a + (b + [x] + c) == a + b + [x] + c
    ensures c + [x] + b + a == c + ([x] + b + a)
  {}

  lemma {:induction false} CloseNodes(s: Side, sp: Spine, t: Tree)
    requires SpineDistinct(sp) && Distinct(t) && SpineNodes(sp) !! Nodes(t)
    ensures Nodes(Close(s, sp, t)) == SpineNodes(sp) + Nodes(t) && Distinct(Close(s, sp, t))
  {
    match sp
    case End =>
    case Link(up, x, sub) => CloseNodes(s, up, Mk(s, sub, x, t));
  }

  lemma {:induction false} InOrderNodes(t: Tree)
    ensures Nodes(t) == set x | x in InOrder(t)
  {
    match t
    case Leaf =>
    case Branch(l, x, r) =>
      InOrderNodes(l);
      InOrderNodes(r);
  }

  // ----- what is searched for

  /** A key, or one of the infinities that SPLAY_MINMAX stands for. */
  datatype Probe = NegInf | At(key: Key) | Inf

  function Compare(cmp: Comparison, p: Probe, k: Key): int {
    match p
    case NegInf => -1
    case At(x) => cmp(x, k)
    case Inf => 1
  }

  ghost predicate LiesBefore(cmp: Comparison, s: seq<Node>, p: Probe) {
    forall i :: 0 <= i < |s| ==> Compare(cmp, p, s[i].key) > 0
  }

  ghost predicate LiesAfter(cmp: Comparison, s: seq<Node>, p: Probe) {
    forall i :: 0 <= i < |s| ==> Compare(cmp, p, s[i].key) < 0
  }

  lemma BeyondProbe(cmp: Comparison, a: seq<Node>, x: Node, b: seq<Node>, p: Probe)
    requires TotalOrder(cmp) && Ascending(cmp, a + [x] + b)
    ensures Compare(cmp, p, x.key) <= 0 ==> LiesAfter(cmp, b, p)
    ensures Compare(cmp, p, x.key) >= 0 ==> LiesBefore(cmp, a, p)
  {
    if p.At? {
      Beyond(cmp, a, x, b, p.key);
    }
  }
}
