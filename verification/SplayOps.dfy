/** SPLAY, SPLAY_MINMAX and the operations built on them. */
module SplayOps {
  import opened Order
  import opened SplayShape
  import opened SplayPath
  import opened SplayHeap

  /** All nodes in the middle of a splay, ascending. */
  function Order3(s: Side, own: Spine, other: Spine, t: Tree): seq<Node> {
    if s == Left then SpineOrder(Left, own) + InOrder(t) + SpineOrder(Right, other)
    else SpineOrder(Left, other) + InOrder(t) + SpineOrder(Right, own)
  }

  /** `comp` says that what is searched for lies away from side `s`. */
  predicate Away(s: Side, comp: int) {
    if s == Right then comp < 0 else comp > 0
  }

  /** All of `q` lies on side `s` of what is searched for. */
  ghost predicate Beside(cmp: Comparison, s: Side, q: seq<Node>, p: Probe) {
    if s == Right then LiesAfter(cmp, q, p) else LiesBefore(cmp, q, p)
  }

  /** Re-bracketing around one node. */
  lemma Regroup(a: seq<Node>, b: seq<Node>, x: Node, c: seq<Node>, d: seq<Node>)
    ensures a + (b + [x] + c) + d == (a + b) + [x] + (c + d)
    ensures a + b + ([x] + c + d) == (a + b) + [x] + (c + d)
    ensures (a + b + [x]) + c + d == (a + b) + [x] + (c + d)
  {}

  lemma LinkOrder(s: Side, own: Spine, other: Spine, sub: Tree, x: Node, rest: Tree)
    ensures Order3(s, Link(own, x, sub), other, rest) == Order3(s, own, other, Mk(s, sub, x, rest))
  {
    if s == Right {
      Regroup(SpineOrder(Left, other), InOrder(rest), x, InOrder(sub), SpineOrder(Right, own));
    } else {
      Regroup(SpineOrder(Left, own), InOrder(sub), x, InOrder(rest), SpineOrder(Right, other));
    }
  }

  lemma TurnOrder(s: Side, a: Tree, y: Node, b: Tree, x: Node, c: Tree)
    ensures InOrder(Mk(s, Mk(s, c, x, b), y, a)) == InOrder(Mk(s, c, x, Mk(s, b, y, a)))
  {}

  /** What lies beyond a node, and the node itself. */
  lemma FromNodeOn(cmp: Comparison, a: seq<Node>, x: Node, b: seq<Node>, p: Probe)
    requires TotalOrder(cmp) && Ascending(cmp, a + [x] + b)
    ensures Compare(cmp, p, x.key) < 0 ==> LiesAfter(cmp, [x] + b, p)
    ensures Compare(cmp, p, x.key) > 0 ==> LiesBefore(cmp, a + [x], p)
  {
    BeyondProbe(cmp, a, x, b, p);
  }

  /** A node and what follows it, or precedes it, in the middle of a sequence. */
  lemma Beyond5(cmp: Comparison, a: seq<Node>, b: seq<Node>, x: Node, c: seq<Node>, d: seq<Node>, p: Probe)
    requires TotalOrder(cmp) && Ascending(cmp, a + (b + [x] + c) + d)
    ensures Compare(cmp, p, x.key) < 0 ==> LiesAfter(cmp, [x] + c + d, p)
    ensures Compare(cmp, p, x.key) > 0 ==> LiesBefore(cmp, a + b + [x], p)
  {
    Regroup(a, b, x, c, d);
    FromNodeOn(cmp, a + b, x, c + d, p);
    assert [x] + c + d == [x] + (c + d);
  }

  /** What joins a partial tree belongs on its side. */
  lemma LinkBeside(cmp: Comparison, p: Probe, s: Side, own: Spine, other: Spine, sub: Tree, x: Node, rest: Tree)
    requires TotalOrder(cmp) && Ascending(cmp, Order3(s, own, other, Mk(s, sub, x, rest)))
    requires Beside(cmp, s, SpineOrder(s, own), p) && Away(s, Compare(cmp, p, x.key))
    ensures Beside(cmp, s, SpineOrder(s, Link(own, x, sub)), p)
  {
    if s == Right {
      Beyond5(cmp, SpineOrder(Left, other), InOrder(rest), x, InOrder(sub), SpineOrder(Right, own), p);
    } else {
      Beyond5(cmp, SpineOrder(Left, own), InOrder(sub), x, InOrder(rest), SpineOrder(Right, other), p);
    }
  }

  /** What every round of a splay keeps. `order` is the sequence to be preserved. */
  ghost predicate Splaying(head: SplayHead, p: Probe, s: Side, own: Spine, other: Spine, t: Tree, dummy: Node,
                           order: seq<Node>)
    reads head, dummy, SpineNodes(own), SpineNodes(other), Nodes(t)
  {
    && head.Open(s, own, other, t, dummy) && t.Branch?
    && TotalOrder(head.cmp) && Ascending(head.cmp, order) && Order3(s, own, other, t) == order
    && Beside(head.cmp, s, SpineOrder(s, own), p) && Beside(head.cmp, s.Other(), SpineOrder(s.Other(), other), p)
  }

  /** The two partial trees seen the other way round. */
  lemma Mirrored(head: SplayHead, p: Probe, s: Side, own: Spine, other: Spine, t: Tree, dummy: Node, order: seq<Node>)
    requires Splaying(head, p, s, own, other, t, dummy, order)
    ensures Splaying(head, p, s.Other(), other, own, t, dummy, order)
  {}

  /** The three pieces put together. */
  function Assembled(s: Side, own: Spine, other: Spine, t: Tree): Tree
    requires t.Branch?
  {
    var l, r := if s == Left then own else other, if s == Left then other else own;
    Branch(Close(Left, l, t.left), t.node, Close(Right, r, t.right))
  }

  /** Two steps away from side `s`. */
  predicate Twice(cmp: Comparison, p: Probe, s: Side, t: Tree)
    requires t.Branch?
  {
    var y := Sub(t, s.Other());
    y.Branch? && Away(s, Compare(cmp, p, y.node.key))
  }

  /** A link, and the rest splayed, come to the same as the rest splayed and then raised. */
  lemma LinkGlue(s: Side, own: Spine, other: Spine, t: Tree, v: Tree)
    requires t.Branch? && v.Branch?
    ensures Assembled(s, Link(own, t.node, Sub(t, s)), other, v) ==
            Assembled(s, own, other, Raised(s.Other(), With(s.Other(), t, v)))
  {}

  /** What one round makes of the rest of the tree. */
  lemma RoundGlue(cmp: Comparison, p: Probe, s: Side, own: Spine, other: Spine, t: Tree)
    requires t.Branch? && Away(s, Compare(cmp, p, t.node.key))
    ensures var d := s.Other();
            var u := if Twice(cmp, p, s, t) then Raised(d, t) else t;
            if Sub(u, d).Leaf? then Splayed(cmp, p, t) == u == Splayed(cmp, p, u)
            else Assembled(s, Link(own, u.node, Sub(u, s)), other, Splayed(cmp, p, Sub(u, d))) ==
                 Assembled(s, own, other, Splayed(cmp, p, t))
  {
    var d := s.Other();
    var u := if Twice(cmp, p, s, t) then Raised(d, t) else t;
    if Sub(u, d).Leaf? {
      assert Stop(cmp, p, u);
    } else {
      LinkGlue(s, own, other, u, Splayed(cmp, p, Sub(u, d)));
    }
  }

  /** The rotation of a round. */
  method TurnRound(head: SplayHead, p: Probe, s: Side, tmp: Node, ghost own: Spine, ghost other: Spine, ghost t: Tree,
                   ghost dummy: Node, ghost order: seq<Node>) returns (ghost t': Tree)
    requires Splaying(head, p, s, own, other, t, dummy, order)
    requires Sub(t, s.Other()).Branch? && tmp == Sub(t, s.Other()).node
    modifies head`root, Nodes(t)
    ensures Splaying(head, p, s, own, other, t', dummy, order) && t' == Raised(s.Other(), t)
    ensures Nodes(t') == Nodes(t) && Size(t') == Size(t)
  {
    ghost var x, y := head.root, Sub(t, s.Other());
    ghost var a, b, c := Sub(y, s.Other()), Sub(y, s), Sub(t, s);
    TurnNodes(s, a, tmp, b, x, c);
    TurnOrder(s, a, tmp, b, x, c);
    head.Rotate(s, tmp, own, other, a, b, c, dummy);
    t' := Mk(s, Mk(s, c, x, b), tmp, a);
  }

  /** The link of a round. */
  method LinkRound(head: SplayHead, p: Probe, s: Side, last: Node, ghost own: Spine, ghost other: Spine, ghost t: Tree,
                   ghost dummy: Node, ghost order: seq<Node>)
    returns (next: Node, ghost own': Spine, ghost t': Tree)
    requires Splaying(head, p, s, own, other, t, dummy, order) && last == Last(own, dummy)
    requires Away(s, Compare(head.cmp, p, t.node.key)) && Sub(t, s.Other()).Branch?
    modifies head`root, dummy, SpineNodes(own)
    ensures Splaying(head, p, s, own', other, t', dummy, order) && next == Last(own', dummy)
    ensures SpineNodes(own') + Nodes(t') == SpineNodes(own) + Nodes(t) && Size(t') < Size(t)
    ensures own' == Link(own, t.node, Sub(t, s)) && t' == Sub(t, s.Other())
  {
    LinkOrder(s, own, other, Sub(t, s), t.node, Sub(t, s.Other()));
    LinkBeside(head.cmp, p, s, own, other, Sub(t, s), t.node, Sub(t, s.Other()));
    next := head.LinkOut(s, last, own, other, Sub(t, s), Sub(t, s.Other()), dummy);
    own', t' := Link(own, next, Sub(t, s)), Sub(t, s.Other());
  }

  /** The part of a round before the link; `stop` where the loop breaks. */
  method Approach(head: SplayHead, p: Probe, s: Side, ghost own: Spine, ghost other: Spine, ghost t: Tree,
                  ghost dummy: Node, ghost order: seq<Node>) returns (stop: bool, ghost t': Tree)
    requires Splaying(head, p, s, own, other, t, dummy, order)
    requires Away(s, Compare(head.cmp, p, t.node.key))
    modifies head`root, Nodes(t)
    ensures Splaying(head, p, s, own, other, t', dummy, order)
    ensures Nodes(t') == Nodes(t) && Size(t') == Size(t)
    ensures Away(s, Compare(head.cmp, p, t'.node.key))
    ensures t' == if Twice(head.cmp, p, s, t) then Raised(s.Other(), t) else t
    ensures stop <==> Sub(t', s.Other()).Leaf?
  {
    t' := t;
    head.Child(t);
    var tmp := head.root.Child(s.Other());
    if tmp != null && Away(s, Compare(head.cmp, p, tmp.key)) {
      t' := TurnRound(head, p, s, tmp, own, other, t, dummy, order);
      head.Child(t');
      stop := head.root.Child(s.Other()) == null;
    } else {
      stop := tmp == null;
    }
  }

  /** One arm of the loop body: what is searched for lies away from side `s`. */
  method Round(head: SplayHead, p: Probe, s: Side, last: Node, ghost own: Spine, ghost other: Spine, ghost t: Tree,
               ghost dummy: Node, ghost order: seq<Node>)
    returns (done: bool, next: Node, ghost own': Spine, ghost t': Tree)
    requires Splaying(head, p, s, own, other, t, dummy, order) && last == Last(own, dummy)
    requires Away(s, Compare(head.cmp, p, t.node.key))
    modifies head`root, dummy, SpineNodes(own), Nodes(t)
    ensures Splaying(head, p, s, own', other, t', dummy, order) && next == Last(own', dummy)
    ensures SpineNodes(own') + Nodes(t') == SpineNodes(own) + Nodes(t)
    ensures if done then Stop(head.cmp, p, t') else Size(t') < Size(t)
    ensures Assembled(s, own', other, Splayed(head.cmp, p, t')) == Assembled(s, own, other, Splayed(head.cmp, p, t))
  {
    next, own' := last, own;
    RoundGlue(head.cmp, p, s, own, other, t);
    done, t' := Approach(head, p, s, own, other, t, dummy, order);
    if !done {
      next, own', t' := LinkRound(head, p, s, last, own, other, t', dummy, order);
    }
  }

  /** The root is what is searched for, or separates what is below it from the rest. */
  ghost predicate Parted(cmp: Comparison, p: Probe, t: Tree) {
    t.Branch? &&
    (Compare(cmp, p, t.node.key) < 0 ==> LiesBefore(cmp, InOrder(t.left), p)) &&
    (Compare(cmp, p, t.node.key) > 0 ==> LiesAfter(cmp, InOrder(t.right), p))
  }

  lemma Finished(cmp: Comparison, p: Probe, l: Spine, r: Spine, t: Tree)
    requires LiesBefore(cmp, SpineOrder(Left, l), p) && LiesAfter(cmp, SpineOrder(Right, r), p) && Stop(cmp, p, t)
    ensures var u := Branch(Close(Left, l, t.left), t.node, Close(Right, r, t.right));
            Parted(cmp, p, u) && InOrder(u) == Order3(Left, l, r, t)
  {
    CloseInOrder(Left, l, t.left);
    CloseInOrder(Right, r, t.right);
    Regroup(SpineOrder(Left, l), InOrder(t.left), t.node, InOrder(t.right), SpineOrder(Right, r));
    assert t.left.Leaf? ==> InOrder(Close(Left, l, t.left)) == SpineOrder(Left, l);
    assert t.right.Leaf? ==> InOrder(Close(Right, r, t.right)) == SpineOrder(Right, r);
  }

  /** SPLAY_ASSEMBLE at the end of a splay. */
  method FinishSplay(head: SplayHead, p: Probe, node: Node, left: Node, right: Node,
                     ghost l: Spine, ghost r: Spine, ghost t: Tree, ghost order: seq<Node>)
    requires head.root != null && Splaying(head, p, Left, l, r, t, node, order)
    requires left == Last(l, node) && right == Last(r, node) && Stop(head.cmp, p, t)
    modifies head`shape, head`nodes, left, right, head.root
    ensures head.Valid() && head.nodes == SpineNodes(l) + SpineNodes(r) + Nodes(t) && head.Contents() == order
    ensures Parted(head.cmp, p, head.shape) && head.shape == Assembled(Left, l, r, t)
  {
    ghost var u := Branch(Close(Left, l, t.left), t.node, Close(Right, r, t.right));
    Finished(head.cmp, p, l, r, t);
    assert InOrder(u) == order && Ascending(head.cmp, InOrder(u));
    head.Child(t);
    head.Assemble(node, left, right, l, r, t.left, t.right);
    head.shape, head.nodes := u, Nodes(u);
  }

  /** The arm for a key below the root, with the partial trees named as in the loop. */
  method RightRound(head: SplayHead, p: Probe, last: Node, ghost l: Spine, ghost r: Spine, ghost t: Tree,
                    ghost dummy: Node, ghost order: seq<Node>)
    returns (done: bool, next: Node, ghost r': Spine, ghost t': Tree)
    requires Splaying(head, p, Left, l, r, t, dummy, order) && last == Last(r, dummy)
    requires Away(Right, Compare(head.cmp, p, t.node.key))
    modifies head`root, dummy, SpineNodes(r), Nodes(t)
    ensures Splaying(head, p, Left, l, r', t', dummy, order) && next == Last(r', dummy)
    ensures SpineNodes(r') + Nodes(t') == SpineNodes(r) + Nodes(t)
    ensures if done then Stop(head.cmp, p, t') else Size(t') < Size(t)
    ensures Assembled(Left, l, r', Splayed(head.cmp, p, t')) == Assembled(Left, l, r, Splayed(head.cmp, p, t))
  {
    Mirrored(head, p, Left, l, r, t, dummy, order);
    done, next, r', t' := Round(head, p, Right, last, r, l, t, dummy, order);
    Mirrored(head, p, Right, r', l, t', dummy, order);
  }

  /** The body of the loop of SPLAY and SPLAY_MINMAX. */
  method EitherRound(head: SplayHead, p: Probe, node: Node, left': Node, right': Node,
                     ghost l': Spine, ghost r': Spine, ghost t': Tree, ghost order: seq<Node>)
    returns (done: bool, left: Node, right: Node, ghost l: Spine, ghost r: Spine, ghost t: Tree)
    requires head.root != null && Splaying(head, p, Left, l', r', t', node, order)
    requires left' == Last(l', node) && right' == Last(r', node) && Compare(head.cmp, p, head.root.key) != 0
    modifies head`root, node, SpineNodes(l'), SpineNodes(r'), Nodes(t')
    ensures head.root != null && Splaying(head, p, Left, l, r, t, node, order)
    ensures left == Last(l, node) && right == Last(r, node)
    ensures SpineNodes(l) + SpineNodes(r) + Nodes(t) == SpineNodes(l') + SpineNodes(r') + Nodes(t')
    ensures if done then Stop(head.cmp, p, t) else Size(t) < Size(t')
    ensures Assembled(Left, l, r, Splayed(head.cmp, p, t)) == Assembled(Left, l', r', Splayed(head.cmp, p, t'))
  {
    left, right, l, r := left', right', l', r';
    if Compare(head.cmp, p, head.root.key) < 0 {
      done, right, r, t := RightRound(head, p, right, l, r, t', node, order);
    } else {
      done, left, l, t := Round(head, p, Left, left, l, r, t', node, order);
    }
  }

  /** The loop of SPLAY and SPLAY_MINMAX. */
  method Descend(head: SplayHead, p: Probe, node: Node, ghost t0: Tree, ghost order: seq<Node>)
    returns (left: Node, right: Node, ghost l: Spine, ghost r: Spine, ghost t: Tree)
    requires head.root != null && Splaying(head, p, Left, End, End, t0, node, order)
    modifies head`root, node, Nodes(t0)
    ensures head.root != null && Splaying(head, p, Left, l, r, t, node, order)
    ensures left == Last(l, node) && right == Last(r, node)
    ensures SpineNodes(l) + SpineNodes(r) + Nodes(t) == Nodes(t0)
    ensures Stop(head.cmp, p, t) && Assembled(Left, l, r, t) == Splayed(head.cmp, p, t0)
  {
    left, right, l, r, t := node, node, End, End, t0;
    ghost var u := Splayed(head.cmp, p, t0);
    assert Assembled(Left, End, End, u) == u;
    var done := false;
    while !done && Compare(head.cmp, p, head.root.key) != 0
      invariant head.root != null && Splaying(head, p, Left, l, r, t, node, order)
      invariant left == Last(l, node) && right == Last(r, node)
      invariant SpineNodes(l) + SpineNodes(r) + Nodes(t) == Nodes(t0)
      invariant done ==> Stop(head.cmp, p, t)
      invariant Assembled(Left, l, r, Splayed(head.cmp, p, t)) == Splayed(head.cmp, p, t0)
      decreases !done, Size(t)
    {
      done, left, right, l, r, t := EitherRound(head, p, node, left, right, l, r, t, order);
    }
  }

  /** SPLAY for a key and SPLAY_MINMAX for an infinity: the same nodes in the same order,
      with what is searched for, or a neighbour of it, at the root. */
  method Splay(head: SplayHead, p: Probe)
    requires head.Valid() && head.root != null
    modifies head, head.nodes
    ensures head.Valid() && head.nodes == old(head.nodes) && head.Contents() == old(head.Contents())
    ensures Parted(head.cmp, p, head.shape) && head.shape == Splayed(head.cmp, p, old(head.shape))
    ensures var was := old(head.shape);
            Height(head.shape) <= Path(head.cmp, p, was) / 2 + 2 + Aside(head.cmp, p, was)
  {
    Halved(head.cmp, p, head.shape);
    var node := new Node(head.root.key);  // __node; its key is never looked at
    ghost var order, t, l, r := head.Contents(), head.shape, End, End;
    assert Order3(Left, l, r, t) == order;
    var left, right;
    left, right, l, r, t := Descend(head, p, node, t, order);
    FinishSplay(head, p, node, left, right, l, r, t, order);
  }
}
