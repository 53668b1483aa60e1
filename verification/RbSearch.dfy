/** The descents RB_FIND, RB_NFIND and RB_MINMAX. */
module RbSearch {
  import opened Order
  import opened RbShape
  import opened RbHeap
  import opened RbHeight

  /** The search for `k` has reached the subtree `t`: all before it is smaller and all
      after it is greater. */
  ghost predicate Narrowed(cmp: Comparison, whole: Tree, t: Tree, c: Ctx, k: Key) {
    whole == Plug(t, c) && Depth(c) + Height(t) <= Height(whole) &&
    AllBelow(cmp, Before(c), k) && AllAbove(cmp, After(c), k)
  }

  /** One comparison narrows the search to one child. */
  lemma Descend(cmp: Comparison, whole: Tree, t: Tree, c: Ctx, k: Key)
    requires TotalOrder(cmp) && Ascending(cmp, InOrder(whole))
    requires t.Branch? && Narrowed(cmp, whole, t, c, k)
    ensures cmp(k, t.node.key) < 0 ==> Narrowed(cmp, whole, t.left, Down(Left, c, t.node, t.color, t.right), k)
    ensures cmp(k, t.node.key) > 0 ==> Narrowed(cmp, whole, t.right, Down(Right, c, t.node, t.color, t.left), k)
  {
    PlugInOrderAt(t, c);
    Beyond(cmp, Prior(t, c), t.node, Later(t, c), k);
    assert After(Down(Left, c, t.node, t.color, t.right)) == [t.node] + Later(t, c);
  }

  /** The descent ran off the tree: `k` is missing and belongs in this gap. */
  lemma Missing(cmp: Comparison, whole: Tree, c: Ctx, k: Key)
    requires Narrowed(cmp, whole, Leaf, c, k)
    ensures Rank(cmp, InOrder(whole), k) == |Before(c)| && Lookup(cmp, InOrder(whole), k) == null
    ensures InOrder(whole) == Before(c) + After(c)
  {
    PlugInOrder(Leaf, c);
    var s := InOrder(whole);
    assert s == Before(c) + After(c) && s[..|Before(c)|] == Before(c);
    RankIs(cmp, s, k, |Before(c)|);
  }

  /** The descent met a node with key `k`. */
  lemma Met(cmp: Comparison, whole: Tree, t: Tree, c: Ctx, k: Key)
    requires TotalOrder(cmp) && Ascending(cmp, InOrder(whole)) && Narrowed(cmp, whole, t, c, k)
    requires t.Branch? && cmp(k, t.node.key) == 0
    ensures Lookup(cmp, InOrder(whole), k) == t.node
  {
    PlugInOrderAt(t, c);
    RankInside(cmp, Prior(t, c), t.node, Later(t, c), k);
  }

  /** RB_FIND, with the number of rounds of its loop. */
  method Find(head: Head, elm: Node) returns (r: Node?, ghost steps: nat)
    requires head.Valid()
    ensures r == Lookup(head.cmp, head.Contents(), elm.key)
    ensures Logarithmic(steps, |head.Contents()|)
  {
    var tmp := head.root;
    ghost var t, c := head.shape, Top;
    steps := 0;
    while tmp != null
      invariant head.Zipped(t, c) && tmp == Root(t) && steps == Depth(c)
      invariant Narrowed(head.cmp, head.shape, t, c, elm.key)
      decreases Height(t)
    {
      Descend(head.cmp, head.shape, t, c, elm.key);
      steps := steps + 1;
      var comp := head.cmp(elm.key, tmp.key);
      if comp < 0 {
        head.Refocus(Left, t.left, tmp, t.color, t.right, c);
        tmp := tmp.left;
        t, c := t.left, Down(Left, c, t.node, t.color, t.right);
      } else if comp > 0 {
        head.Refocus(Right, t.right, tmp, t.color, t.left, c);
        tmp := tmp.right;
        t, c := t.right, Down(Right, c, t.node, t.color, t.left);
      } else {
        Met(head.cmp, head.shape, t, c, elm.key);
        HeightBound(head.shape, steps);
        return tmp, steps;
      }
    }
    Missing(head.cmp, head.shape, c, elm.key);
    HeightBound(head.shape, steps);
    return null, steps;
  }

  /** RB_NFIND: the least node not below `elm`. */
  method NFind(head: Head, elm: Node) returns (res: Node?, ghost steps: nat)
    requires head.Valid()
    ensures res == LowerBound(head.cmp, head.Contents(), elm.key)
    ensures Logarithmic(steps, |head.Contents()|)
  {
    var tmp := head.root;
    ghost var t, c := head.shape, Top;
    res := null;
    steps := 0;
    while tmp != null
      invariant head.Zipped(t, c) && tmp == Root(t) && steps == Depth(c)
      invariant Narrowed(head.cmp, head.shape, t, c, elm.key)
      invariant res == if After(c) == [] then null else After(c)[0]
      decreases Height(t)
    {
      Descend(head.cmp, head.shape, t, c, elm.key);
      steps := steps + 1;
      var comp := head.cmp(elm.key, tmp.key);
      if comp < 0 {
        res := tmp;
        head.Refocus(Left, t.left, tmp, t.color, t.right, c);
        tmp := tmp.left;
        t, c := t.left, Down(Left, c, t.node, t.color, t.right);
      } else if comp > 0 {
        head.Refocus(Right, t.right, tmp, t.color, t.left, c);
        tmp := tmp.right;
        t, c := t.right, Down(Right, c, t.node, t.color, t.left);
      } else {
        Met(head.cmp, head.shape, t, c, elm.key);
        HeightBound(head.shape, steps);
        return tmp, steps;
      }
    }
    Missing(head.cmp, head.shape, c, elm.key);
    HeightBound(head.shape, steps);
  }

  /** RB_MINMAX: the first node for a negative `val`, else the last. */
  method MinMax(head: Head, val: int) returns (parent: Node?, ghost steps: nat)
    requires head.Valid()
    ensures var s := head.Contents();
            parent == if s == [] then null else if val < 0 then s[0] else s[|s| - 1]
    ensures Logarithmic(steps, |head.Contents()|)
  {
    var tmp := head.root;
    ghost var t, c := head.shape, Top;
    parent := null;
    steps := 0;
    while tmp != null
      invariant head.Zipped(t, c) && tmp == Root(t) && head.shape == Plug(t, c)
      invariant parent == Parent(c, null)
      invariant if val < 0 then Before(c) == [] else After(c) == []
      invariant c.Down? ==> c.side == if val < 0 then Left else Right
      invariant steps == Depth(c)
      decreases Height(t)
    {
      steps := steps + 1;
      parent := tmp;
      if val < 0 {
        head.Refocus(Left, t.left, tmp, t.color, t.right, c);
        tmp := tmp.left;
        t, c := t.left, Down(Left, c, t.node, t.color, t.right);
      } else {
        head.Refocus(Right, t.right, tmp, t.color, t.left, c);
        tmp := tmp.right;
        t, c := t.right, Down(Right, c, t.node, t.color, t.left);
      }
    }
    PlugInOrder(t, c);
    PlugHeight(t, c);
    HeightBound(head.shape, steps);
  }

  /** The last node on the `s` side of a subtree, below the context `outer`. */
  method Extreme(ghost head: Head, s: Side, elm': Node, ghost t: Tree, ghost outer: Ctx)
    returns (elm: Node, ghost u: Tree, ghost inner: Ctx, ghost steps: nat)
    requires head.Zipped(t, outer) && t.Branch? && elm' == t.node
    ensures head.Zipped(u, Append(inner, outer)) && Plug(u, inner) == t
    ensures u.Branch? && u.node == elm && Sub(u, s).Leaf?
    ensures if s == Left then Before(inner) == [] else After(inner) == []
    ensures var all := InOrder(t); all != [] && elm == if s == Left then all[0] else all[|all| - 1]
    ensures steps < Height(t)
  {
    elm := elm';
    u, inner, steps := t, Top, 0;
    while elm.Child(s) != null
      invariant head.Zipped(u, Append(inner, outer)) && Plug(u, inner) == t
      invariant u.Branch? && u.node == elm
      invariant if s == Left then Before(inner) == [] else After(inner) == []
      invariant steps + Height(u) <= Height(t)
      decreases Height(u)
    {
      steps := steps + 1;
      head.Refocus(s, Sub(u, s), elm, u.color, Sub(u, s.Other()), Append(inner, outer));
      elm := elm.Child(s);
      u, inner := Sub(u, s), Down(s, inner, u.node, u.color, Sub(u, s.Other()));
    }
    assert Rep(u.left, elm.left, elm) && Rep(u.right, elm.right, elm);
    PlugInOrder(u, inner);
  }
}
