/** RB_INSERT and RB_INSERT_COLOR. */
module RbInsert {
  import opened Order
  import opened RbShape
  import opened RbHeap
  import opened RbSearch
  import opened RbHeight

  /** The focus is a red node with a red parent; the grandparent is there and black. */
  ghost predicate RedRed(z: Zip, h: nat) {
    z.t.Branch? && z.t.color == Red && Balanced(z.t, h) && CtxBalanced(z.c, h) &&
    z.c.Down? && z.c.color == Red
  }

  lemma Grandparent(z: Zip, h: nat)
    requires RedRed(z, h)
    ensures z.c.up.Down? && z.c.up.color == Black
  {}

  // ----- the three rearrangements, on values

  /** Red uncle: the blackness of the grandparent moves to its two children. */
  function Recoloured(z: Zip): Zip
    requires z.c.Down? && z.c.up.Down? && z.c.up.other.Branch?
  {
    var p, g := z.c, z.c.up;
    Zip(Mk(g.side, Mk(p.side, z.t, p.node, Black, p.other), g.node, Red, g.other.(color := Black)), g.up)
  }

  /** Inner child: it changes places with its parent. */
  function Straightened(z: Zip): Zip
    requires z.t.Branch? && z.c.Down?
  {
    var s := z.c.side.Other();
    Zip(Mk(s, z.c.other, z.c.node, z.c.color, Sub(z.t, s)),
        Down(s, z.c.up, z.t.node, z.t.color, Sub(z.t, s.Other())))
  }

  /** Outer child: the parent turns black and replaces the grandparent, now red. */
  function Rotated(z: Zip): Zip
    requires z.c.Down? && z.c.up.Down?
  {
    var p, g := z.c, z.c.up;
    Zip(z.t, Down(g.side, g.up, p.node, Black, Mk(g.side, p.other, g.node, Red, g.other)))
  }

  lemma RecolouredOk(z: Zip, h: nat)
    requires RedRed(z, h) && ColorOf(z.c.up.other) == Red
    ensures var y := Recoloured(z);
            y.t.Branch? && y.t.color == Red && Balanced(y.t, h + 1) && CtxBalanced(y.c, h + 1)
    ensures SameOrder(Recoloured(z), z)
  {
    var p, g := z.c, z.c.up;
    assert CtxBalanced(g, h);
    assert Balanced(Mk(p.side, z.t, p.node, Black, p.other), h + 1);
    assert Balanced(g.other.(color := Black), h + 1);
    PlugSame(Recoloured(z).t, Mk(g.side, Mk(p.side, z.t, p.node, p.color, p.other), g.node, g.color, g.other), g.up);
    assert z.Whole() == Plug(Mk(p.side, z.t, p.node, p.color, p.other), g);
    SameOrderIf(Recoloured(z), z);
  }

  lemma StraightenedOk(z: Zip, h: nat)
    requires RedRed(z, h) && z.c.side != z.c.up.side
    ensures var y := Straightened(z); RedRed(y, h) && y.c.side == y.c.up.side && y.c.up == z.c.up
    ensures SameOrder(Straightened(z), z)
  {
    var y := Straightened(z);
    assert Balanced(y.t, h);
    PlugSame(Mk(y.c.side, y.t, y.c.node, y.c.color, y.c.other),
             Mk(z.c.side, z.t, z.c.node, z.c.color, z.c.other), z.c.up);
    SameOrderIf(y, z);
  }

  lemma RotatedOk(z: Zip, h: nat)
    requires RedRed(z, h) && z.c.side == z.c.up.side && ColorOf(z.c.up.other) == Black
    ensures CtxBalanced(Rotated(z).c, h)
    ensures SameOrder(Rotated(z), z)
  {
    var p, g, y := z.c, z.c.up, Rotated(z);
    assert CtxBalanced(g, h);
    assert Balanced(y.c.other, h);
    PlugSame(Mk(y.c.side, y.t, y.c.node, y.c.color, y.c.other),
             Mk(g.side, Mk(p.side, z.t, p.node, p.color, p.other), g.node, g.color, g.other), g.up);
    assert z.Whole() == Plug(Mk(p.side, z.t, p.node, p.color, p.other), g);
    SameOrderIf(y, z);
  }

  // ----- the same rearrangements, in the heap

  /** The red-uncle arm: three colours change. */
  method RecolourArm(head: Head, parent: Node, gparent: Node, tmp: Node, ghost z: Zip)
    requires head.Zipped(z.t, z.c)
    requires z.c.Down? && z.c.up.Down? && z.c.up.other.Branch?
    requires parent == z.c.node && gparent == z.c.up.node && tmp == z.c.up.other.node
    modifies parent`color, gparent`color, tmp`color
    ensures var y := Recoloured(z); head.Zipped(y.t, y.c)
  {
    ghost var p, g := z.c, z.c.up;
    ghost var u := g.other;
    head.Refocus(p.side, z.t, parent, p.color, p.other, g);
    ghost var w := Mk(p.side, z.t, parent, p.color, p.other);
    head.Refocus(g.side, w, gparent, g.color, u, g.up);
    head.Refocus(g.side.Other(), u, gparent, g.color, w, g.up);
    head.Paint(tmp, Black, u.left, u.color, u.right, Down(g.side.Other(), g.up, gparent, g.color, w));
    head.Refocus(g.side.Other(), u.(color := Black), gparent, g.color, w, g.up);
    head.Refocus(g.side, w, gparent, g.color, u.(color := Black), g.up);
    head.Paint(parent, Black, w.left, w.color, w.right, Down(g.side, g.up, gparent, g.color, u.(color := Black)));
    ghost var b := Mk(g.side, w.(color := Black), gparent, g.color, u.(color := Black));
    head.Refocus(g.side, w.(color := Black), gparent, g.color, u.(color := Black), g.up);
    head.Paint(gparent, Red, b.left, b.color, b.right, g.up);
  }

  /** The inner-child arm: one rotation at the parent. */
  method StraightenArm(head: Head, s: Side, parent: Node, ghost z: Zip)
    requires head.Zipped(z.t, z.c)
    requires z.t.Branch? && z.c.Down? && parent == z.c.node && s == z.c.side.Other()
    modifies head, z.All()
    ensures var y := Straightened(z); head.Zipped(y.t, y.c)
  {
    ghost var b, e, o := Sub(z.t, s), Sub(z.t, s.Other()), z.c.other;
    head.Refocus(z.c.side, z.t, parent, z.c.color, o, z.c.up);
    DistinctMk(s, b, z.t.node, z.t.color, e);
    var tmp := head.Rotate(s, parent, o, z.c.color, b, z.t.node, z.t.color, e, z.c.up);
    head.Refocus(s, Mk(s, o, parent, z.c.color, b), tmp, z.t.color, e, z.c.up);
  }

  /** The outer-child arm: two colours and one rotation at the grandparent. */
  method RotateArm(head: Head, s: Side, parent: Node, gparent: Node, ghost z: Zip)
    requires head.Zipped(z.t, z.c)
    requires z.c.Down? && z.c.up.Down? && z.c.side == z.c.up.side == s
    requires parent == z.c.node && gparent == z.c.up.node
    modifies head, z.All()
    ensures var y := Rotated(z); head.Zipped(y.t, y.c)
  {
    ghost var p, g := z.c, z.c.up;
    ghost var w := Mk(s, z.t, parent, p.color, p.other);
    head.Refocus(s, z.t, parent, p.color, p.other, g);
    head.Paint(parent, Black, w.left, w.color, w.right, g);
    head.Refocus(s, w.(color := Black), gparent, g.color, g.other, g.up);
    ghost var v := Mk(s, w.(color := Black), gparent, g.color, g.other);
    head.Paint(gparent, Red, v.left, v.color, v.right, g.up);
    DistinctMk(s, z.t, parent, Black, p.other);
    var tmp := head.Rotate(s.Other(), gparent, g.other, Red, p.other, parent, Black, z.t, g.up);
    head.Refocus(s, z.t, tmp, Black, Mk(s, p.other, gparent, Red, g.other), g.up);
  }

  /** What RB_INSERT_COLOR keeps: a red focus in a tree that is balanced but for the
      colour of the focus and its parent. */
  ghost predicate FixInv(head: Head, elm: Node, z: Zip, h: nat)
    reads head, z.All()
  {
    head.Zipped(z.t, z.c) && z.t.Branch? && z.t.node == elm && z.t.color == Red &&
    Balanced(z.t, h) && CtxBalanced(z.c, h)
  }

  /** RB_INSERT_COLOR: `steps` counts the rounds of its loop. */
  method InsertColor(head: Head, elm': Node, ghost z0: Zip, ghost h0: nat)
    returns (ghost t: Tree, ghost steps: nat)
    requires FixInv(head, elm', z0, h0)
    modifies head, z0.All()
    ensures head.Zipped(t, Top) && RedBlack(t) && InOrder(t) == InOrder(z0.Whole()) && Nodes(t) == z0.All()
    ensures steps <= Depth(z0.c)
  {
    var elm := elm';
    ghost var z, h := z0, h0;
    steps := 0;
    while elm.parent != null && elm.parent.color == Red
      invariant FixInv(head, elm, z, h) && SameOrder(z, z0)
      invariant steps + Depth(z.c) <= Depth(z0.c)
      decreases Depth(z.c)
    {
      elm, z, h := InsertStep(head, elm, z, h);
      steps := steps + 1;
    }
    head.RootThere(z.t, z.c);
    t := Finish(head, z, h);
  }

  /** One round of the loop of RB_INSERT_COLOR. */
  method InsertStep(head: Head, elm': Node, ghost z: Zip, ghost h: nat)
    returns (elm: Node, ghost y: Zip, ghost k: nat)
    requires FixInv(head, elm', z, h)
    requires z.c.Down? && z.c.color == Red
    modifies head, z.All()
    ensures FixInv(head, elm, y, k) && SameOrder(y, z) && Depth(y.c) < Depth(z.c)
  {
    Grandparent(z, h);
    head.Around(z.t, z.c);
    head.Around(Mk(z.c.side, z.t, z.c.node, z.c.color, z.c.other), z.c.up);
    elm := elm';
    var parent := elm.parent;
    var gparent := parent.parent;
    var s := if parent == gparent.left then Left else Right;
    var tmp := gparent.Child(s.Other());
    if tmp != null && tmp.color == Red {
      RecolourArm(head, parent, gparent, tmp, z);
      RecolouredOk(z, h);
      elm := gparent;
      y, k := Recoloured(z), h + 1;
    } else {
      k := h;
      elm, y := Rebalance(head, s, parent, gparent, elm, z, h);
    }
  }

  /** The rotations of a round, when the uncle is black. */
  method Rebalance(head: Head, s: Side, parent': Node, gparent: Node, elm': Node, ghost z: Zip, ghost h: nat)
    returns (elm: Node, ghost y: Zip)
    requires FixInv(head, elm', z, h) && RedRed(z, h) && ColorOf(z.c.up.other) == Black
    requires parent' == z.c.node && gparent == z.c.up.node && s == z.c.up.side
    modifies head, z.All()
    ensures FixInv(head, elm, y, h) && SameOrder(y, z) && Depth(y.c) < Depth(z.c)
  {
    var parent := parent';
    head.Around(z.t, z.c);
    elm, y := elm', z;
    if parent.Child(s.Other()) == elm {
      StraightenArm(head, s, parent, z);
      StraightenedOk(z, h);
      y := Straightened(z);
      parent, elm := elm, parent;
    }
    RotateArm(head, s, parent, gparent, y);
    RotatedOk(y, h);
    y := Rotated(y);
  }

  /** The last line of RB_INSERT_COLOR: the root turns black. */
  method Finish(head: Head, ghost z: Zip, ghost h: nat) returns (ghost t: Tree)
    requires head.Zipped(z.t, z.c) && z.t.Branch? && z.t.color == Red
    requires Balanced(z.t, h) && CtxBalanced(z.c, h)
    requires z.c.Down? ==> z.c.color == Black
    requires head.root != null
    modifies head.root`color
    ensures head.Zipped(t, Top) && RedBlack(t) && InOrder(t) == InOrder(z.Whole()) && Nodes(t) == z.All()
  {
    ghost var w := z.Whole();
    PlugNodes(z.t, z.c);
    head.ZippedPlug(z.t, z.c);
    if z.c.Down? { PlugRedBlack(z.t, z.c, h); }
    head.Paint(head.root, Black, w.left, w.color, w.right, Top);
    t := w.(color := Black);
    assert z.c.Top? ==> Balanced(t, h + 1);
  }

  /** A gap where `x` is missing can take it: the node is new, a red leaf there keeps the
      black counts, and the order is right. */
  lemma GapFits(cmp: Comparison, whole: Tree, c: Ctx, x: Node)
    requires TotalOrder(cmp) && Narrowed(cmp, whole, Leaf, c, x.key) && RedBlack(whole)
    ensures x !in CtxNodes(c) && Nodes(whole) == CtxNodes(c) && CtxBalanced(c, 0)
    ensures InOrder(Plug(Branch(Leaf, x, Red, Leaf), c)) == Before(c) + [x] + After(c)
  {
    var k: nat :| Balanced(Plug(Leaf, c), k);
    var h := UnplugBalanced(Leaf, c, k);
    GapNew(cmp, whole, c, x);
    PlugInOrder(Branch(Leaf, x, Red, Leaf), c);
    assert InOrder(Branch(Leaf, x, Red, Leaf)) == [x];
  }

  lemma GapNew(cmp: Comparison, whole: Tree, c: Ctx, x: Node)
    requires TotalOrder(cmp) && Narrowed(cmp, whole, Leaf, c, x.key)
    ensures x !in CtxNodes(c) && Nodes(whole) == CtxNodes(c)
  {
    PlugNodes(Leaf, c);
    Missing(cmp, whole, c, x.key);
    InOrderNodes(whole);
    assert Flips(cmp, x.key, x.key);
  }

  /** RB_SET and the link that hangs the new node below the end of the descent. */
  method Attach(head: Head, elm: Node, parent: Node?, s: Side, ghost c: Ctx)
    requires head.Zipped(Leaf, c) && elm !in CtxNodes(c) && parent == Parent(c, null)
    requires c.Down? ==> s == c.side
    modifies head`root, elm, parent
    ensures head.Zipped(Branch(Leaf, elm, Red, Leaf), c)
  {
    elm.parent := parent;
    elm.left, elm.right := null, null;
    elm.color := Red;
    if parent != null {
      if s == Left { parent.left := elm; } else { parent.right := elm; }
    } else {
      head.root := elm;
    }
  }

  /** The descent of RB_INSERT. It stops at a node with the same key, or below `parent`
      on the side that `comp` tells, in the gap `c`. */
  method Descent(head: Head, elm: Node)
    returns (tmp: Node?, parent: Node?, comp: int, ghost c: Ctx, ghost steps: nat)
    requires head.Valid()
    ensures tmp == Lookup(head.cmp, head.Contents(), elm.key)
    ensures steps <= Height(head.shape)
    ensures tmp == null ==>
              head.Zipped(Leaf, c) && Narrowed(head.cmp, head.shape, Leaf, c, elm.key) && steps == Depth(c) &&
              parent == Parent(c, null) && (c.Down? ==> c.side == if comp < 0 then Left else Right)
  {
    tmp, parent, comp := head.root, null, 0;
    ghost var t := head.shape;
    c, steps := Top, 0;
    while tmp != null
      invariant head.Zipped(t, c) && tmp == Root(t) && steps == Depth(c) && parent == Parent(c, null)
      invariant Narrowed(head.cmp, head.shape, t, c, elm.key)
      invariant c.Down? ==> c.side == if comp < 0 then Left else Right
      decreases Height(t)
    {
      Descend(head.cmp, head.shape, t, c, elm.key);
      steps := steps + 1;
      parent := tmp;
      comp := head.cmp(elm.key, parent.key);
      if comp < 0 {
        head.Refocus(Left, t.left, tmp, t.color, t.right, c);
        tmp := tmp.left;
        t, c := t.left, Down(Left, c, t.node, t.color, t.right);
      } else if comp > 0 {
        head.Refocus(Right, t.right, tmp, t.color, t.left, c);
        tmp := tmp.right;
        t, c := t.right, Down(Right, c, t.node, t.color, t.left);
      } else {
        Met(head.cmp, head.shape, t, c, elm.key);
        return;
      }
    }
    Missing(head.cmp, head.shape, c, elm.key);
  }

  /** The rest of RB_INSERT: the missing node goes into the gap. */
  method Enter(head: Head, elm: Node, parent: Node?, s: Side, ghost c: Ctx) returns (ghost up: nat)
    requires head.Valid() && head.Zipped(Leaf, c) && Narrowed(head.cmp, head.shape, Leaf, c, elm.key)
    requires parent == Parent(c, null) && (c.Down? ==> s == c.side)
    modifies head, head.nodes, elm
    ensures head.Zipped(head.shape, Top) && RedBlack(head.shape)
    ensures head.nodes == Nodes(head.shape) == old(head.nodes) + {elm}
    ensures head.Contents() == Before(c) + [elm] + After(c)
    ensures up <= Depth(c)
  {
    ghost var z := Zip(Branch(Leaf, elm, Red, Leaf), c);
    GapFits(head.cmp, head.shape, c, elm);
    Attach(head, elm, parent, s, c);
    head.shape, up := InsertColor(head, elm, z, 0);
    head.nodes := Nodes(head.shape);
  }

  /** RB_INSERT: the node with the same key if there is one, and then nothing changes;
      otherwise NULL, and `elm` is in its ascending place. The descent and the
      colour loop make `down` and `up` rounds. */
  method Insert(head: Head, elm: Node) returns (r: Node?, ghost down: nat, ghost up: nat)
    requires head.Valid()
    modifies head, head.nodes, elm
    ensures head.Valid()
    ensures r == Lookup(head.cmp, old(head.Contents()), elm.key)
    ensures r != null ==> unchanged(head) && unchanged(elm) && forall x :: x in head.nodes ==> unchanged(x)
    ensures r == null ==>
              var s, i := old(head.Contents()), Rank(head.cmp, old(head.Contents()), elm.key);
              head.Contents() == s[..i] + [elm] + s[i..] && head.nodes == old(head.nodes) + {elm}
    ensures var n := |old(head.Contents())|; Logarithmic(down, n) && Logarithmic(up, n)
  {
    var parent, comp;
    ghost var c, s, whole := Top, head.Contents(), head.shape;
    up := 0;
    r, parent, comp, c, down := Descent(head, elm);
    if r == null {
      Missing(head.cmp, head.shape, c, elm.key);
      AscendingInsert(head.cmp, s, elm);
      assert s[..|Before(c)|] == Before(c) && s[|Before(c)|..] == After(c);
      up := Enter(head, elm, parent, if comp < 0 then Left else Right, c);
    }
    HeightBound(whole, down);
    HeightBound(whole, up);
  }
}
