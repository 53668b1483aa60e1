/** SPLAY_INSERT, SPLAY_REMOVE, SPLAY_FIND, SPLAY_NEXT, SPLAY_MIN, SPLAY_MAX and
    SPLAY_FOREACH. */
module SplaySet {
  import opened Order
  import opened SplayShape
  import opened SplayPath
  import opened SplayHeap
  import opened SplayOps

  /** What a splay for `k` says about the rank of `k`. */
  lemma PartedRank(cmp: Comparison, k: Key, t: Tree)
    requires TotalOrder(cmp) && Ascending(cmp, InOrder(t)) && Parted(cmp, At(k), t)
    ensures var s, i, comp, n := InOrder(t), Rank(cmp, InOrder(t), k), cmp(k, t.node.key), |InOrder(t.left)|;
            if comp == 0 then i == n && Lookup(cmp, s, k) == t.node
            else i == (if comp < 0 then n else n + 1) && Lookup(cmp, s, k) == null
  {
    var s, a, b := InOrder(t), InOrder(t.left), InOrder(t.right);
    var comp := cmp(k, t.node.key);
    if comp == 0 {
      RankInside(cmp, a, t.node, b, k);
    } else if comp < 0 {
      assert s[..|a|] == a;
      RankIs(cmp, s, k, |a|);
    } else {
      BeyondProbe(cmp, a, t.node, b, At(k));
      assert s[..|a| + 1] == a + [t.node];
      assert b != [] ==> s[|a| + 1] == b[0];
      RankIs(cmp, s, k, |a| + 1);
    }
  }

  /** An empty tree stays as it is. */
  function Fetched(cmp: Comparison, p: Probe, t: Tree): Tree {
    if t.Leaf? then t else Splayed(cmp, p, t)
  }

  /** SPLAY_FIND; what is found is at the root. */
  method Find(head: SplayHead, elm: Node) returns (r: Node?)
    requires head.Valid()
    modifies head, head.nodes
    ensures head.Valid() && head.nodes == old(head.nodes) && head.Contents() == old(head.Contents())
    ensures r == Lookup(head.cmp, head.Contents(), elm.key) && (r != null ==> head.root == r)
    ensures head.shape == Fetched(head.cmp, At(elm.key), old(head.shape))
  {
    if head.root == null {
      return null;
    }
    Splay(head, At(elm.key));
    PartedRank(head.cmp, elm.key, head.shape);
    if head.cmp(elm.key, head.root.key) == 0 {
      return head.root;
    }
    return null;
  }

  /** The shape after SPLAY_INSERT put `x` above the splayed tree. */
  function Inserted(cmp: Comparison, t: Tree, x: Node): Tree {
    if t.Leaf? then Branch(Leaf, x, Leaf)
    else if cmp(x.key, t.node.key) < 0 then Branch(t.left, x, t.(left := Leaf))
    else Branch(t.(right := Leaf), x, t.right)
  }

  lemma InsertedOk(cmp: Comparison, t: Tree, x: Node)
    requires TotalOrder(cmp) && Ascending(cmp, InOrder(t)) && Lookup(cmp, InOrder(t), x.key) == null
    requires t.Branch? ==> Parted(cmp, At(x.key), t)
    ensures var s, i := InOrder(t), Rank(cmp, InOrder(t), x.key);
            InOrder(Inserted(cmp, t, x)) == s[..i] + [x] + s[i..] && Ascending(cmp, s[..i] + [x] + s[i..])
    ensures x !in Nodes(t)
  {
    NotThere(cmp, t, x);
    AscendingInsert(cmp, InOrder(t), x);
    if t.Branch? {
      PartedRank(cmp, x.key, t);
      CutAround(InOrder(t.left), t.node, InOrder(t.right));
      assert InOrder(t.(left := Leaf)) == [t.node] + InOrder(t.right);
      assert InOrder(t.(right := Leaf)) == InOrder(t.left) + [t.node];
    }
  }

  lemma CutAround(a: seq<Node>, x: Node, b: seq<Node>)
    ensures var s := a + [x] + b;
            s[..|a|] == a && s[|a|..] == [x] + b && s[..|a| + 1] == a + [x] && s[|a| + 1..] == b
  {}

  /** A node whose key is missing is not in the tree. */
  lemma NotThere(cmp: Comparison, t: Tree, x: Node)
    requires TotalOrder(cmp) && Ascending(cmp, InOrder(t)) && Lookup(cmp, InOrder(t), x.key) == null
    ensures x !in Nodes(t)
  {
    var s := InOrder(t);
    InOrderNodes(t);
    if x in s {
      var j :| 0 <= j < |s| && s[j] == x;
      RankAt(cmp, s, j);
    }
  }

  lemma InsertedNodes(cmp: Comparison, t: Tree, x: Node)
    requires Distinct(t) && x !in Nodes(t)
    ensures Nodes(Inserted(cmp, t, x)) == Nodes(t) + {x} && Distinct(Inserted(cmp, t, x))
  {}

  /** SPLAY_INSERT; the node with the key, old or new, is at the root. */
  method Insert(head: SplayHead, elm: Node) returns (r: Node?)
    requires head.Valid()
    modifies head, head.nodes, elm
    ensures head.Valid()
    ensures r == Lookup(head.cmp, old(head.Contents()), elm.key)
    ensures r != null ==> head.Contents() == old(head.Contents()) && head.nodes == old(head.nodes)
    ensures head.root == if r == null then elm else r
    ensures var u := Fetched(head.cmp, At(elm.key), old(head.shape));
            head.shape == if r == null then Inserted(head.cmp, u, elm) else u
    ensures r != null && elm !in head.nodes ==> unchanged(elm)
    ensures r == null ==>
              var s, i := old(head.Contents()), Rank(head.cmp, old(head.Contents()), elm.key);
              head.Contents() == s[..i] + [elm] + s[i..] && head.nodes == old(head.nodes) + {elm}
  {
    if head.root != null {
      Splay(head, At(elm.key));
      PartedRank(head.cmp, elm.key, head.shape);
      if head.cmp(elm.key, head.root.key) == 0 {
        return head.root;
      }
    }
    InsertedOk(head.cmp, head.shape, elm);
    Crown(head, elm);
    return null;
  }

  /** The pointer part of SPLAY_INSERT: `elm` becomes the root. */
  method Crown(head: SplayHead, elm: Node)
    requires head.nodes == Nodes(head.shape) && Distinct(head.shape) && Rep(head.shape, head.root)
    requires elm !in head.nodes
    modifies head, elm, head.root
    ensures head.shape == old(Inserted(head.cmp, head.shape, elm)) && head.nodes == old(head.nodes) + {elm}
    ensures head.nodes == Nodes(head.shape) && Distinct(head.shape) && Rep(head.shape, head.root)
  {
    ghost var t := head.shape;
    InsertedNodes(head.cmp, t, elm);
    if head.root == null {
      elm.left, elm.right := null, null;
    } else {
      var r := head.root;
      if head.cmp(elm.key, r.key) < 0 {
        elm.left := r.left;
        elm.right := r;
        r.left := null;
      } else {
        elm.right := r.right;
        elm.left := r;
        r.right := null;
      }
    }
    head.root := elm;
    head.shape := Inserted(head.cmp, t, elm);
    head.nodes := head.nodes + {elm};
  }

  /** The root of a splayed tree taken out: the key is searched for again on the left, where
      all are smaller, and the right part hung below what comes up. */
  function Joined(cmp: Comparison, k: Key, t: Tree): Tree
    requires t.Branch?
  {
    if t.left.Leaf? then t.right else With(Right, Splayed(cmp, At(k), t.left), t.right)
  }

  /** SPLAY_REMOVE takes out the node with the key of `elm`. */
  method Remove(head: SplayHead, elm: Node) returns (r: Node?)
    requires head.Valid()
    modifies head, head.nodes
    ensures head.Valid()
    ensures var s := old(head.Contents());
            var found, i := Lookup(head.cmp, s, elm.key), Rank(head.cmp, s, elm.key);
            if found == null then r == null && head.Contents() == s && head.nodes == old(head.nodes)
            else r == elm && head.Contents() == s[..i] + s[i + 1..] && head.nodes == old(head.nodes) - {found}
    ensures var u := Fetched(head.cmp, At(elm.key), old(head.shape));
            head.shape == if r == null then u else Joined(head.cmp, elm.key, u)
  {
    if head.root == null {
      return null;
    }
    Splay(head, At(elm.key));
    PartedRank(head.cmp, elm.key, head.shape);
    if head.cmp(elm.key, head.root.key) == 0 {
      CutAround(InOrder(head.shape.left), head.root, InOrder(head.shape.right));
      RemoveRoot(head, elm);
      return elm;
    }
    return null;
  }

  /** The root, which has the key of `elm`, goes; the subtrees of it are joined. */
  method RemoveRoot(head: SplayHead, elm: Node)
    requires head.Valid() && head.root != null && head.cmp(elm.key, head.root.key) == 0
    modifies head, head.nodes
    ensures head.Valid() && head.nodes == old(head.nodes) - {old(head.root)}
    ensures head.Contents() == InOrder(old(head.shape.left)) + InOrder(old(head.shape.right))
    ensures head.shape == Joined(head.cmp, elm.key, old(head.shape))
  {
    ghost var t := head.shape;
    RootGone(head.cmp, elm.key, t);
    head.Child(t);
    if head.root.left == null {
      head.root := head.root.right;
      head.shape := t.right;
      assert InOrder(t.left) + InOrder(t.right) == InOrder(t.right);
      assert Nodes(t.left) + Nodes(t.right) == Nodes(t.right);
    } else {
      var tmp := head.root.right;
      head.root := head.root.left;
      head.shape, head.nodes := t.left, Nodes(t.left);
      Join(head, elm, tmp, t.right);
      assert Nodes(head.shape) == Nodes(t.left) + Nodes(t.right);
    }
    head.nodes := Nodes(head.shape);
  }

  lemma RootGone(cmp: Comparison, k: Key, t: Tree)
    requires TotalOrder(cmp) && t.Branch? && Distinct(t) && Ascending(cmp, InOrder(t)) && cmp(k, t.node.key) == 0
    ensures Nodes(t) - {t.node} == Nodes(t.left) + Nodes(t.right)
    ensures Ascending(cmp, InOrder(t.left) + InOrder(t.right)) && Ascending(cmp, InOrder(t.left)) &&
            Ascending(cmp, InOrder(t.right))
    ensures LiesBefore(cmp, InOrder(t.left), At(k))
  {
    LeaveOut(cmp, InOrder(t.left), t.node, InOrder(t.right));
    BeyondProbe(cmp, InOrder(t.left), t.node, InOrder(t.right), At(k));
  }

  /** Splaying the left part for a key above all of it leaves its root without a right
      child, so the saved right part can hang there. */
  method Join(head: SplayHead, elm: Node, tmp: Node?, ghost b: Tree)
    requires head.Valid() && head.root != null && LiesBefore(head.cmp, head.Contents(), At(elm.key))
    requires Distinct(b) && Rep(b, tmp) && Nodes(b) !! head.nodes
    modifies head, head.nodes
    ensures Distinct(head.shape) && Rep(head.shape, head.root) && Nodes(head.shape) == old(head.nodes) + Nodes(b)
    ensures head.Contents() == old(head.Contents()) + InOrder(b)
    ensures head.shape == With(Right, Splayed(head.cmp, At(elm.key), old(head.shape)), b)
  {
    NodesAllocated(b);
    ghost var s := head.Contents();
    Splay(head, At(elm.key));
    RightEmpty(head.cmp, elm.key, head.shape);
    assert InOrder(head.shape) == InOrder(head.shape.left) + [head.shape.node];
    head.root.right := tmp;
    head.shape := head.shape.(right := b);
  }

  lemma RightEmpty(cmp: Comparison, k: Key, t: Tree)
    requires Parted(cmp, At(k), t) && LiesBefore(cmp, InOrder(t), At(k))
    ensures t.right.Leaf?
  {
    assert InOrder(t)[|InOrder(t.left)|] == t.node;
    if t.right.Branch? {
      var i, j := RightNode(t);
    }
  }

  lemma RightNode(t: Tree) returns (i: nat, j: nat)
    requires t.Branch? && t.right.Branch?
    ensures i < |InOrder(t)| && InOrder(t)[i] == t.right.node
    ensures j < |InOrder(t.right)| && InOrder(t.right)[j] == t.right.node
  {
    j := |InOrder(t.right.left)|;
    i := |InOrder(t.left)| + 1 + j;
  }

  /** The first node of a subtree. */
  method Leftmost(ghost t: Tree, elm': Node) returns (elm: Node)
    requires Rep(t, elm') && t.Branch?
    ensures InOrder(t) != [] && elm == InOrder(t)[0]
  {
    elm := elm';
    ghost var u := t;
    while elm.left != null
      invariant Rep(u, elm) && u.Branch? && InOrder(u) <= InOrder(t)
      decreases Size(u)
    {
      assert Rep(u.left, elm.left);
      elm := elm.left;
      u := u.left;
    }
    assert Rep(u.left, elm.left);
  }

  /** Splaying for a node of the tree brings it to the root, and its successor is the
      first node of the right subtree. */
  lemma NextRank(cmp: Comparison, t: Tree, x: Node)
    requires TotalOrder(cmp) && Ascending(cmp, InOrder(t)) && Parted(cmp, At(x.key), t) && x in InOrder(t)
    ensures t.node == x
    ensures var b := InOrder(t.right); Successor(cmp, InOrder(t), x.key) == if b == [] then null else b[0]
  {
    var s := InOrder(t);
    var i :| 0 <= i < |s| && s[i] == x;
    RankAt(cmp, s, i);
    PartedRank(cmp, x.key, t);
    CutAround(InOrder(t.left), t.node, InOrder(t.right));
  }

  lemma Extremes(cmp: Comparison, t: Tree)
    ensures Parted(cmp, NegInf, t) ==> InOrder(t)[0] == t.node
    ensures Parted(cmp, Inf, t) ==> InOrder(t)[|InOrder(t)| - 1] == t.node
  {
    if t.Branch? {
      var a, b := InOrder(t.left), InOrder(t.right);
      assert a != [] ==> Compare(cmp, NegInf, a[0].key) < 0;
      assert b != [] ==> Compare(cmp, Inf, b[0].key) > 0;
    }
  }

  /** SPLAY_NEXT of a node of the tree. */
  method Next(head: SplayHead, elm: Node) returns (r: Node?)
    requires head.Valid() && elm in head.nodes
    modifies head, head.nodes
    ensures head.Valid() && head.nodes == old(head.nodes) && head.Contents() == old(head.Contents())
    ensures r == Successor(head.cmp, head.Contents(), elm.key)
    ensures head.root == elm && head.shape == Fetched(head.cmp, At(elm.key), old(head.shape))
  {
    InOrderNodes(head.shape);
    Splay(head, At(elm.key));
    ghost var t := head.shape;
    NextRank(head.cmp, t, elm);
    head.Child(t);
    if elm.right != null {
      r := Leftmost(t.right, elm.right);
    } else {
      r := null;
    }
  }

  /** SPLAY_MIN (a negative `val`) and SPLAY_MAX (a positive one). */
  method MinMax(head: SplayHead, val: int) returns (r: Node?)
    requires head.Valid() && val != 0
    modifies head, head.nodes
    ensures head.Valid() && head.nodes == old(head.nodes) && head.Contents() == old(head.Contents())
    ensures var s := head.Contents();
            r == if s == [] then null else if val < 0 then s[0] else s[|s| - 1]
    ensures head.root == r && head.shape == Fetched(head.cmp, if val < 0 then NegInf else Inf, old(head.shape))
  {
    if head.root == null {
      return null;
    }
    Splay(head, if val < 0 then NegInf else Inf);
    Extremes(head.cmp, head.shape);
    return head.root;
  }

  /** One round of SPLAY_FOREACH. */
  method NextRound(head: SplayHead, x: Node, ghost s: seq<Node>, ghost k: nat) returns (y: Node?)
    requires head.Valid() && head.Contents() == s && k < |s| && x == s[k]
    modifies head, head.nodes
    ensures head.Valid() && head.nodes == old(head.nodes) && head.Contents() == s && y == NodeAt(s, k + 1)
  {
    InOrderNodes(head.shape);
    RankAt(head.cmp, s, k);
    y := Next(head, x);
  }

  /** SPLAY_FOREACH: every node once, in ascending order, although every step reshapes
      the tree. */
  method Foreach(head: SplayHead) returns (visited: seq<Node>)
    requires head.Valid()
    modifies head, head.nodes
    ensures head.Valid() && head.nodes == old(head.nodes)
    ensures visited == head.Contents() == old(head.Contents())
  {
    ghost var s, k := head.Contents(), 0;
    visited := [];
    var x := MinMax(head, -1);
    while x != null
      invariant head.Valid() && head.nodes == old(head.nodes) && head.Contents() == s
      invariant Reached(s, k, visited, x)
      decreases |s| - k
    {
      visited := Visit(visited, x, s, k);
      x := NextRound(head, x, s, k);
      k := k + 1;
    }
    ReachedAll(s, k, visited);
  }
}
