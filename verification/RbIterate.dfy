/** RB_NEXT, RB_PREV and the RB_FOREACH family. */
module RbIterate {
  import opened Order
  import opened RbShape
  import opened RbHeap
  import opened RbSearch
  import opened RbHeight
  import opened RbRemove

  /** The node nearest to the focus on one side of it. */
  function Nearest(s: Side, t: Tree, c: Ctx): Node?
    requires t.Branch?
  {
    if s == Right then
      if Later(t, c) == [] then null else Later(t, c)[0]
    else
      var a := Prior(t, c);
      if a == [] then null else a[|a| - 1]
  }

  /** The nearest node on one side is the one that follows, or precedes, in order. */
  lemma NearestIs(cmp: Comparison, t: Tree, c: Ctx, s: Side)
    requires TotalOrder(cmp) && t.Branch? && Ascending(cmp, InOrder(Plug(t, c)))
    ensures var all := InOrder(Plug(t, c));
            Nearest(s, t, c) ==
            if s == Right then Successor(cmp, all, t.node.key) else Predecessor(cmp, all, t.node.key)
  {
    PlugInOrderAt(t, c);
    assert Flips(cmp, t.node.key, t.node.key);
    RankInside(cmp, Prior(t, c), t.node, Later(t, c), t.node.key);
  }

  /** The extreme node of the subtree on side `s`, when there is one. */
  lemma NearestBelow(t: Tree, c: Ctx, s: Side, u: Tree, inner: Ctx)
    requires t.Branch? && u.Branch? && Plug(u, inner) == Sub(t, s) && Sub(u, s.Other()).Leaf?
    requires if s == Right then Before(inner) == [] else After(inner) == []
    ensures Nearest(s, t, c) == u.node
  {
    PlugInOrderAt(u, inner);
    assert if s == Right then Prior(u, inner) == [] else Later(u, inner) == [];
  }

  /** Without a subtree on side `s`, climb over all parents reached from that side. */
  function Turn(s: Side, c: Ctx): Node? {
    if c.Top? then null else if c.side == s then Turn(s, c.up) else c.node
  }

  lemma {:induction false} TurnIs(s: Side, c: Ctx)
    ensures s == Right ==> Turn(s, c) == if After(c) == [] then null else After(c)[0]
    ensures s == Left ==> Turn(s, c) == if Before(c) == [] then null else Before(c)[|Before(c)| - 1]
  {
    if c.Top? {
    } else {
      TurnIs(s, c.up);
    }
  }

  /** RB_NEXT (s == Right) and RB_PREV (s == Left): only links of nodes are read. */
  method Step(ghost head: Head, s: Side, elm': Node) returns (elm: Node?, ghost steps: nat)
    requires head.Valid() && elm' in head.nodes
    ensures elm == if s == Right then Successor(head.cmp, head.Contents(), elm'.key)
                   else Predecessor(head.cmp, head.Contents(), elm'.key)
    ensures Logarithmic(steps, |head.Contents()|)
  {
    ghost var t, c := Locate(head.shape, Top, elm');
    head.ZippedPlug(t, c);
    head.Sides(t, c);
    NearestIs(head.cmp, t, c, s);
    PlugHeight(t, c);
    if elm'.Child(s) != null {
      elm, steps := Below(head, s, elm', t, c);
    } else {
      elm, steps := Above(head, s, elm', t, c);
    }
    HeightBound(head.shape, steps);
  }

  /** There is a subtree on side `s`: its outermost node on the other side. */
  method Below(ghost head: Head, s: Side, elm': Node, ghost t: Tree, ghost c: Ctx) returns (elm: Node, ghost steps: nat)
    requires head.Zipped(t, c) && t.Branch? && elm' == t.node && elm'.Child(s) != null
    ensures elm == Nearest(s, t, c) && steps <= Height(t)
  {
    head.Sides(t, c);
    ghost var sub, u, inner := Sub(t, s), Leaf, Top;
    head.Refocus(s, sub, elm', t.color, Sub(t, s.Other()), c);
    elm, u, inner, steps := Extreme(head, s.Other(), elm'.Child(s), sub, Down(s, c, elm', t.color, Sub(t, s.Other())));
    NearestBelow(t, c, s, u, inner);
  }

  /** There is none: the first node above that is reached from the other side. */
  method Above(ghost head: Head, s: Side, elm': Node, ghost t: Tree, ghost c: Ctx)
    returns (elm: Node?, ghost steps: nat)
    requires head.Zipped(t, c) && t.Branch? && elm' == t.node && Sub(t, s).Leaf?
    ensures elm == Nearest(s, t, c) && steps <= Depth(c)
  {
    TurnIs(s, c);
    head.Sides(t, c);
    elm, steps := elm', 0;
    if elm.parent != null && elm == elm.parent.Child(s.Other()) {
      head.Around(t, c);
      elm := elm.parent;
    } else {
      var x := elm';
      ghost var u, d := t, c;
      while x.parent != null && x == x.parent.Child(s)
        invariant head.Zipped(u, d) && u.Branch? && x == u.node && Turn(s, d) == Turn(s, c)
        invariant steps + Depth(d) <= Depth(c)
        decreases Depth(d)
      {
        steps := steps + 1;
        head.Around(u, d);
        u, d := Mk(d.side, u, d.node, d.color, d.other), d.up;
        x := x.parent;
      }
      head.Sides(u, d);
      if d.Down? { head.Around(u, d); }
      elm := x.parent;
    }
  }

  /** RB_FOREACH: every node once, in ascending order. */
  method Foreach(head: Head) returns (visited: seq<Node>)
    requires head.Valid()
    ensures visited == head.Contents()
  {
    ghost var s, k := head.Contents(), 0;
    visited := [];
    var x;
    ghost var steps;
    x, steps := MinMax(head, -1);
    while x != null
      invariant Reached(s, k, visited, x)
      decreases |s| - k
    {
      visited := Visit(visited, x, s, k);
      InOrderNodes(head.shape);
      RankAt(head.cmp, s, k);
      x, steps := Step(head, Right, x);
      k := k + 1;
    }
    ReachedAll(s, k, visited);
  }

  function Reverse(s: seq<Node>): seq<Node> {
    seq(|s|, i requires 0 <= i < |s| => s[|s| - 1 - i])
  }

  /** RB_FOREACH_REVERSE: every node once, in descending order. */
  method ForeachReverse(head: Head) returns (visited: seq<Node>)
    requires head.Valid()
    ensures var s := head.Contents(); |visited| == |s| && forall i :: 0 <= i < |s| ==> visited[i] == s[|s| - 1 - i]
  {
    ghost var s, k := head.Contents(), 0;
    visited := [];
    var x;
    ghost var steps;
    x, steps := MinMax(head, 1);
    while x != null
      invariant Reached(Reverse(s), k, visited, x)
      decreases |s| - k
    {
      visited := Visit(visited, x, Reverse(s), k);
      InOrderNodes(head.shape);
      RankAt(head.cmp, s, |s| - 1 - k);
      x, steps := Step(head, Left, x);
      k := k + 1;
    }
    ReachedAll(Reverse(s), k, visited);
  }

  /** The nodes that stay when those of `doomed` leave. */
  function Spared(s: seq<Node>, doomed: set<Node>): seq<Node> {
    if s == [] then []
    else Spared(s[..|s| - 1], doomed) + if s[|s| - 1] in doomed then [] else [s[|s| - 1]]
  }

  /** Part of the way through: the spared ones so far, and all that come later. */
  function Midway(s: seq<Node>, k: nat, doomed: set<Node>): seq<Node>
    requires k <= |s|
  {
    Spared(s[..k], doomed) + s[k..]
  }

  lemma MidwayStep(cmp: Comparison, s: seq<Node>, k: nat, doomed: set<Node>)
    requires TotalOrder(cmp) && k < |s| && Ascending(cmp, Midway(s, k, doomed))
    ensures var now, x := Midway(s, k, doomed), s[k];
            var i := Rank(cmp, now, x.key);
            i < |now| && now[i] == x && Successor(cmp, now, x.key) == NodeAt(s, k + 1) &&
            Midway(s, k + 1, doomed) == if x in doomed then now[..i] + now[i + 1..] else now
  {
    var kept, now := Spared(s[..k], doomed), Midway(s, k, doomed);
    assert now[|kept|] == s[k];
    RankAt(cmp, now, |kept|);
    assert s[..k + 1][..k] == s[..k];
  }

  /** One round: the successor is saved before the body may remove the node, and is still
      the right one after it. */
  method SafeRound(head: Head, x: Node, doomed: set<Node>, ghost s: seq<Node>, ghost k: nat) returns (y: Node?)
    requires head.Valid() && k < |s| && x == s[k] && head.Contents() == Midway(s, k, doomed)
    modifies head, head.nodes
    ensures head.Valid() && head.nodes <= old(head.nodes)
    ensures y == NodeAt(s, k + 1) && head.Contents() == Midway(s, k + 1, doomed)
  {
    MidwayStep(head.cmp, s, k, doomed);
    InOrderNodes(head.shape);
    ghost var steps, up;
    y, steps := Step(head, Right, x);
    if x in doomed {
      var gone;
      gone, steps, up := Remove(head, x);
    }
  }

  /** RB_FOREACH_SAFE with a body that removes the current node when it is doomed: all
      original nodes are visited once, in ascending order. */
  method ForeachSafe(head: Head, doomed: set<Node>) returns (visited: seq<Node>)
    requires head.Valid()
    modifies head, head.nodes
    ensures head.Valid()
    ensures visited == old(head.Contents())
    ensures head.Contents() == Spared(old(head.Contents()), doomed)
  {
    ghost var s, k := head.Contents(), 0;
    visited := [];
    var x;
    ghost var steps;
    x, steps := MinMax(head, -1);
    MidwayStarts(s, doomed);
    while x != null
      invariant head.Valid() && head.nodes <= old(head.nodes)
      invariant Reached(s, k, visited, x)
      invariant head.Contents() == Midway(s, k, doomed)
      decreases |s| - k
    {
      visited := Visit(visited, x, s, k);
      x := SafeRound(head, x, doomed, s, k);
      k := k + 1;
    }
    ReachedAll(s, k, visited);
    MidwayEnds(s, doomed);
  }

  /** Exactly the others are spared; with every node doomed, none. */
  lemma {:induction false} SparedIs(s: seq<Node>, doomed: set<Node>, x: Node)
    ensures x in Spared(s, doomed) <==> x in s && x !in doomed
  {
    if s == [] {
    } else {
      SparedIs(s[..|s| - 1], doomed, x);
      assert s == s[..|s| - 1] + [s[|s| - 1]];
    }
  }

  lemma MidwayStarts(s: seq<Node>, doomed: set<Node>)
    ensures Midway(s, 0, doomed) == s
  {}

  lemma MidwayEnds(s: seq<Node>, doomed: set<Node>)
    ensures Midway(s, |s|, doomed) == Spared(s, doomed)
  {
    assert s[..|s|] == s;
  }
}
