/** RB_REMOVE_COLOR and RB_REMOVE. */
module RbRemove {
  import opened Order
  import opened RbShape
  import opened RbHeap
  import opened RbSearch
  import opened RbHeight

  /** A subtree that is one black node short of `h + 1`. A red root makes up for it when
      it turns black, whatever the colours of its children. */
  ghost predicate Short(t: Tree, h: nat) {
    if ColorOf(t) == Red then Balanced(t.(color := Black), h + 1) else Balanced(t, h)
  }

  /** The tree is balanced except that the focus is one black node short. */
  ghost predicate OneShort(z: Zip, h: nat) {
    Short(z.t, h) && CtxBalanced(z.c, h + 1)
  }

  /** The fix-up loop runs on: the focus is black and not the root. */
  ghost predicate Lacking(z: Zip, h: nat) {
    OneShort(z, h) && ColorOf(z.t) == Black && z.c.Down?
  }

  /** The shortage leaves room for a sibling: it is never missing. */
  lemma SiblingThere(z: Zip, h: nat)
    requires Lacking(z, h)
    ensures z.c.other.Branch? && Balanced(z.t, h) && Balanced(z.c.other, h + 1)
    ensures ColorOf(z.c.other) == Red ==> z.c.color == Black
  {}

  // ----- the four rearrangements, on values. The sibling is z.c.other; its near child
  // is on the focus side.

  function Near(z: Zip): Tree
    requires z.c.Down? && z.c.other.Branch?
  {
    Sub(z.c.other, z.c.side)
  }

  function Far(z: Zip): Tree
    requires z.c.Down? && z.c.other.Branch?
  {
    Sub(z.c.other, z.c.side.Other())
  }

  /** Red sibling: it becomes the grandparent of the focus. */
  function SiblingRaised(z: Zip): Zip
    requires z.c.Down? && z.c.other.Branch?
  {
    var c := z.c;
    Zip(z.t, Down(c.side, Down(c.side, c.up, c.other.node, Black, Far(z)), c.node, Red, Near(z)))
  }

  /** Two black nephews: the sibling turns red and the shortage moves up. */
  function MovedUp(z: Zip): Zip
    requires z.c.Down? && z.c.other.Branch?
  {
    var c := z.c;
    Zip(Mk(c.side, z.t, c.node, c.color, c.other.(color := Red)), c.up)
  }

  /** Near nephew red, far one black: the near one becomes the sibling. */
  function NephewRaised(z: Zip): Zip
    requires z.c.Down? && z.c.other.Branch? && Near(z).Branch?
  {
    var s, n := z.c.side, Near(z);
    Zip(z.t, z.c.(other := Mk(s, Sub(n, s), n.node, Black, Mk(s, Sub(n, s.Other()), z.c.other.node, Red, Far(z)))))
  }

  /** Far nephew red: the sibling replaces the parent, and nothing is short any more. */
  function Settled(z: Zip): Zip
    requires z.c.Down? && z.c.other.Branch? && Far(z).Branch?
  {
    var s, c := z.c.side, z.c;
    Zip(Mk(s, Mk(s, z.t, c.node, Black, Near(z)), c.other.node, c.color, Far(z).(color := Black)), c.up)
  }

  lemma SiblingRaisedOk(z: Zip, h: nat)
    requires Lacking(z, h) && ColorOf(z.c.other) == Red
    ensures var y := SiblingRaised(z);
            Lacking(y, h) && ColorOf(y.c.other) == Black && y.c.color == Red && y.c.up.up == z.c.up
    ensures SameOrder(SiblingRaised(z), z)
  {
    var y, c, s := SiblingRaised(z), z.c, z.c.side;
    assert Balanced(Near(z), h + 1) && Balanced(Far(z), h + 1);
    assert CtxBalanced(y.c.up, h + 1);
    PlugSame(Mk(s, Mk(s, z.t, c.node, Red, Near(z)), c.other.node, Black, Far(z)),
             Mk(s, z.t, c.node, c.color, c.other), c.up);
    assert y.Whole() == Plug(Mk(s, z.t, c.node, Red, Near(z)), y.c.up);
    SameOrderIf(y, z);
  }

  lemma MovedUpOk(z: Zip, h: nat) returns (k: nat)
    requires Lacking(z, h) && ColorOf(z.c.other) == Black
    requires ColorOf(Near(z)) == Black && ColorOf(Far(z)) == Black
    ensures OneShort(MovedUp(z), k)
    ensures SameOrder(MovedUp(z), z)
  {
    k := if z.c.color == Black then h + 1 else h;
    assert Balanced(z.c.other.(color := Red), h);
    PlugSame(MovedUp(z).t, Mk(z.c.side, z.t, z.c.node, z.c.color, z.c.other), z.c.up);
    SameOrderIf(MovedUp(z), z);
  }

  lemma NephewRaisedOk(z: Zip, h: nat)
    requires Lacking(z, h) && ColorOf(z.c.other) == Black && ColorOf(Near(z)) == Red && ColorOf(Far(z)) == Black
    ensures var y := NephewRaised(z);
            Lacking(y, h) && ColorOf(y.c.other) == Black && ColorOf(Far(y)) == Red && y.c.up == z.c.up
    ensures SameOrder(NephewRaised(z), z)
  {
    var y, c, s := NephewRaised(z), z.c, z.c.side;
    assert Balanced(Near(z), h) && Balanced(Far(z), h);
    assert Balanced(Far(y), h) && Balanced(Near(y), h);
    assert Near(z) == Mk(s, Sub(Near(z), s), Near(z).node, Near(z).color, Sub(Near(z), s.Other()));
    assert c.other == Mk(s, Near(z), c.other.node, c.other.color, Far(z));
    assert InOrder(y.c.other) == InOrder(c.other);
    PlugSame(Mk(s, y.t, c.node, c.color, y.c.other), Mk(s, z.t, c.node, c.color, c.other), c.up);
    SameOrderIf(y, z);
  }

  lemma SettledOk(z: Zip, h: nat)
    requires Lacking(z, h) && ColorOf(z.c.other) == Black && ColorOf(Far(z)) == Red
    ensures RedBlack(Settled(z).Whole())
    ensures SameOrder(Settled(z), z)
  {
    var y, c, s := Settled(z), z.c, z.c.side;
    assert Balanced(Far(z), h) && Balanced(Near(z), h);
    assert Balanced(Mk(s, z.t, c.node, Black, Near(z)), h + 1) && Balanced(Far(z).(color := Black), h + 1);
    PlugRedBlack(y.t, y.c, if c.color == Black then h + 2 else h + 1);
    assert c.other == Mk(s, Near(z), c.other.node, c.other.color, Far(z));
    assert InOrder(Far(z).(color := Black)) == InOrder(Far(z));
    PlugSame(y.t, Mk(s, z.t, c.node, c.color, c.other), c.up);
    SameOrderIf(y, z);
  }

  // ----- the same rearrangements, in the heap

  method SiblingArm(head: Head, s: Side, parent: Node, tmp: Node, ghost z: Zip) returns (sibling: Node?)
    requires head.Zipped(z.t, z.c) && z.c.Down? && z.c.other.Branch? && s == z.c.side
    requires parent == z.c.node && tmp == z.c.other.node
    modifies head, z.All()
    ensures var y := SiblingRaised(z); head.Zipped(y.t, y.c) && sibling == Root(y.c.other)
  {
    ghost var c := z.c;
    ghost var n, f := Near(z), Far(z);
    head.PaintBeside(tmp, Black, z.t, c);
    head.PaintAbove(parent, Red, z.t, c.(other := c.other.(color := Black)));
    head.Refocus(s, z.t, parent, Red, c.other.(color := Black), c.up);
    var w := head.Rotate(s, parent, z.t, Red, n, tmp, Black, f, c.up);
    head.Refocus(s, Mk(s, z.t, parent, Red, n), tmp, Black, f, c.up);
    head.Refocus(s, z.t, parent, Red, n, Down(s, c.up, tmp, Black, f));
    head.Around(SiblingRaised(z).t, SiblingRaised(z).c);
    sibling := parent.Child(s.Other());
  }

  method MoveUpArm(head: Head, tmp: Node, ghost z: Zip)
    requires head.Zipped(z.t, z.c) && z.c.Down? && z.c.other.Branch? && tmp == z.c.other.node
    modifies tmp`color
    ensures var y := MovedUp(z); head.Zipped(y.t, y.c)
  {
    head.PaintBeside(tmp, Red, z.t, z.c);
    head.Refocus(z.c.side, z.t, z.c.node, z.c.color, z.c.other.(color := Red), z.c.up);
  }

  method NephewArm(head: Head, s: Side, parent: Node, tmp: Node, ghost z: Zip) returns (sibling: Node?)
    requires head.Zipped(z.t, z.c) && z.c.Down? && z.c.other.Branch? && Near(z).Branch? && s == z.c.side
    requires parent == z.c.node && tmp == z.c.other.node
    modifies head, z.All()
    ensures var y := NephewRaised(z); head.Zipped(y.t, y.c) && sibling == Root(y.c.other)
  {
    ghost var c, n, f, d := z.c, Near(z), Far(z), z.c.side.Other();
    ghost var top := Down(d, c.up, parent, c.color, z.t);
    head.Refocus(s, z.t, parent, c.color, c.other, c.up);
    head.Refocus(d, c.other, parent, c.color, z.t, c.up);
    head.Refocus(s, n, tmp, c.other.color, f, top);
    head.Around(n, Down(s, top, tmp, c.other.color, f));
    var oleft := tmp.Child(s);
    if oleft != null {
      head.Paint(oleft, Black, n.left, n.color, n.right, Down(s, top, tmp, c.other.color, f));
    }
    head.PaintAbove(tmp, Red, n.(color := Black), Down(s, top, tmp, c.other.color, f));
    head.Refocus(s, n.(color := Black), tmp, Red, f, top);
    oleft := head.Rotate(s.Other(), tmp, f, Red, Sub(n, d), n.node, Black, Sub(n, s), top);
    head.Refocus(d, NephewRaised(z).c.other, parent, c.color, z.t, c.up);
    head.Refocus(s, z.t, parent, c.color, NephewRaised(z).c.other, c.up);
    head.Around(NephewRaised(z).t, NephewRaised(z).c);
    sibling := parent.Child(s.Other());
  }

  method SettleArm(head: Head, s: Side, parent: Node, tmp: Node, ghost z: Zip)
    requires head.Zipped(z.t, z.c) && z.c.Down? && z.c.other.Branch? && Far(z).Branch? && s == z.c.side
    requires parent == z.c.node && tmp == z.c.other.node
    modifies head, z.All()
    ensures var y := Settled(z); head.Zipped(y.t, y.c)
  {
    ghost var c, n, f, d := z.c, Near(z), Far(z), z.c.side.Other();
    ghost var top := Down(d, c.up, parent, Black, z.t);
    head.Around(z.t, c);
    head.PaintBeside(tmp, parent.color, z.t, c);
    head.PaintAbove(parent, Black, z.t, c.(other := c.other.(color := c.color)));
    head.Refocus(s, z.t, parent, Black, c.other.(color := c.color), c.up);
    head.Refocus(d, c.other.(color := c.color), parent, Black, z.t, c.up);
    head.Refocus(d, f, tmp, c.color, n, top);
    head.Around(f, Down(d, top, tmp, c.color, n));
    if tmp.Child(s.Other()) != null {
      head.Paint(tmp.Child(s.Other()), Black, f.left, f.color, f.right, Down(d, top, tmp, c.color, n));
    }
    head.Refocus(d, f.(color := Black), tmp, c.color, n, top);
    head.Refocus(d, Mk(s, n, tmp, c.color, f.(color := Black)), parent, Black, z.t, c.up);
    var w := head.Rotate(s, parent, z.t, Black, n, tmp, c.color, f.(color := Black), c.up);
  }

  // ----- the loop

  ghost predicate FixInv(head: Head, parent: Node?, elm: Node?, z: Zip, h: nat)
    reads head, z.All()
  {
    head.Zipped(z.t, z.c) && elm == Root(z.t) && (z.c.Down? ==> parent == z.c.node) && OneShort(z, h)
  }

  /** How much of the way to the root is left to go. */
  function Climb(z: Zip): nat {
    if ColorOf(z.t) == Red then 0 else Depth(z.c)
  }

  /** The fix-up is needed exactly while the loop condition of RB_REMOVE_COLOR holds;
      in particular a NULL `elm` is not mistaken for the other child. */
  lemma LoopCondition(head: Head, parent: Node?, elm: Node?, z: Zip, h: nat)
    requires FixInv(head, parent, elm, z, h)
    ensures (elm == null || elm.color == Black) && elm != head.root <==> Lacking(z, h)
    ensures Lacking(z, h) ==> parent != null && (parent.left == elm <==> z.c.side == Left)
  {
    head.ZippedPlug(z.t, z.c);
    PlugNodes(z.t, z.c);
    if z.c.Down? {
      RootAbove(z.t, z.c);
      head.Around(z.t, z.c);
    }
  }

  /** The root of the whole tree lies outside a proper subtree. */
  lemma {:induction false} RootAbove(t: Tree, c: Ctx)
    requires c.Down?
    ensures Plug(t, c).Branch? && Plug(t, c).node in CtxNodes(c)
    decreases c
  {
    if c.up.Top? {
    } else {
      RootAbove(Mk(c.side, t, c.node, c.color, c.other), c.up);
    }
  }

  /** One round of the loop of RB_REMOVE_COLOR; `done` where it breaks out. */
  method RemoveRound(head: Head, parent': Node, elm': Node?, ghost z: Zip, ghost h: nat)
    returns (parent: Node?, elm: Node?, done: bool, ghost y: Zip, ghost k: nat)
    requires FixInv(head, parent', elm', z, h) && Lacking(z, h)
    modifies head, z.All()
    ensures FixInv(head, parent, elm, y, k) && SameOrder(y, z)
    ensures Climb(y) < Climb(z)
    ensures done ==> y.c.Top? && ColorOf(y.t) == Black
  {
    LoopCondition(head, parent', elm', z, h);
    SiblingThere(z, h);
    head.Around(z.t, z.c);
    parent, elm, done, y, k := parent', elm', false, z, h;
    var s := if parent.left == elm then Left else Right;
    var tmp := parent.Child(s.Other());
    if tmp.color == Red {
      SiblingRaisedOk(z, h);
      tmp := SiblingArm(head, s, parent, tmp, z);
      y := SiblingRaised(z);
    }
    SiblingThere(y, h);
    parent, elm, done, y, k := Rebalance(head, s, parent, elm, tmp, y, h);
  }

  /** The part of a round that follows once the sibling is black. */
  method Rebalance(head: Head, s: Side, parent': Node, elm': Node?, tmp': Node, ghost z: Zip, ghost h: nat)
    returns (parent: Node?, elm: Node?, done: bool, ghost y: Zip, ghost k: nat)
    requires FixInv(head, parent', elm', z, h) && Lacking(z, h)
    requires z.c.other.Branch? && z.c.other.color == Black && tmp' == z.c.other.node && s == z.c.side
    modifies head, z.All()
    ensures FixInv(head, parent, elm, y, k) && SameOrder(y, z)
    ensures if done then y.c.Top? && ColorOf(y.t) == Black else y == MovedUp(z)
  {
    var tmp: Node? := tmp';
    y := z;
    Nephews(head, z.t, z.c);
    if (tmp.Child(s) == null || tmp.Child(s).color == Black) &&
       (tmp.Child(s.Other()) == null || tmp.Child(s.Other()).color == Black) {
      k := MovedUpOk(z, h);
      MoveUpArm(head, tmp, z);
      elm, parent, done, y := parent', parent'.parent, false, MovedUp(z);
    } else {
      if tmp.Child(s.Other()) == null || tmp.Child(s.Other()).color == Black {
        NephewRaisedOk(z, h);
        tmp := NephewArm(head, s, parent', tmp, z);
        y := NephewRaised(z);
      }
      SettledOk(y, h);
      SettleArm(head, s, parent', tmp, y);
      parent, elm, done := parent', head.root, true;
      y, k := Whole(head, Settled(y));
    }
  }

  /** The links and colours of the sibling's children. */
  lemma Nephews(head: Head, t: Tree, c: Ctx)
    requires head.Zipped(t, c) && c.Down? && c.other.Branch?
    ensures var w := c.other.node;
            w.left == Root(c.other.left) && w.right == Root(c.other.right) &&
            (w.left != null ==> w.left.color == c.other.left.color) &&
            (w.right != null ==> w.right.color == c.other.right.color)
  {
    var w := c.other.node;
    assert Rep(c.other, w, c.node);
    assert Rep(c.other.left, w.left, w) && Rep(c.other.right, w.right, w);
  }

  /** A red-black tree seen from the top: nothing is short. */
  ghost method Whole(head: Head, z: Zip) returns (y: Zip, k: nat)
    requires head.Zipped(z.t, z.c) && RedBlack(z.Whole())
    ensures y == Zip(z.Whole(), Top) && head.Zipped(y.t, y.c) && SameOrder(y, z)
    ensures OneShort(y, k) && ColorOf(y.t) == Black
  {
    y := Zip(z.Whole(), Top);
    head.ZippedPlug(z.t, z.c);
    SameOrderIf(y, z);
    k :| Balanced(z.Whole(), k);
  }

  /** RB_REMOVE_COLOR: `steps` counts the rounds of its loop. */
  method RemoveColor(head: Head, parent': Node?, elm': Node?, ghost z0: Zip, ghost h0: nat)
    returns (ghost t: Tree, ghost steps: nat)
    requires FixInv(head, parent', elm', z0, h0)
    modifies head, z0.All()
    ensures head.Zipped(t, Top) && RedBlack(t) && InOrder(t) == InOrder(z0.Whole()) && Nodes(t) == z0.All()
    ensures steps <= Depth(z0.c)
  {
    var parent, elm, done := parent', elm', false;
    ghost var z, h := z0, h0;
    steps := 0;
    LoopCondition(head, parent, elm, z, h);
    while (elm == null || elm.color == Black) && elm != head.root
      invariant FixInv(head, parent, elm, z, h) && SameOrder(z, z0)
      invariant (elm == null || elm.color == Black) && elm != head.root <==> Lacking(z, h)
      invariant Lacking(z, h) ==> parent != null
      invariant steps + Climb(z) <= Depth(z0.c)
      decreases Climb(z)
    {
      parent, elm, done, z, h := RemoveRound(head, parent, elm, z, h);
      steps := steps + 1;
      LoopCondition(head, parent, elm, z, h);
      if done {
        break;
      }
    }
    t := Blackened(z).Whole();
    BlackenedOk(z, h);
    PlugNodes(Blackened(z).t, z.c);
    if elm != null {
      head.Paint(elm, Black, z.t.left, z.t.color, z.t.right, z.c);
    }
    head.ZippedPlug(Blackened(z).t, z.c);
  }

  /** The last line of RB_REMOVE_COLOR: the focus turns black. */
  function Blackened(z: Zip): Zip {
    if z.t.Leaf? then z else z.(t := z.t.(color := Black))
  }

  lemma BlackenedOk(z: Zip, h: nat)
    requires OneShort(z, h) && !Lacking(z, h)
    ensures var y := Blackened(z); RedBlack(y.Whole()) && SameOrder(y, z)
  {
    var y := Blackened(z);
    if ColorOf(z.t) == Red {
      PlugRedBlack(y.t, y.c, h + 1);
    } else {
      PlugRedBlack(y.t, y.c, h);
    }
    PlugSame(y.t, z.t, z.c);
    SameOrderIf(y, z);
  }

  // ----- taking a node out

  /** The position of a node. */
  lemma {:induction false} Locate(t: Tree, c: Ctx, x: Node) returns (u: Tree, d: Ctx)
    requires x in Nodes(t)
    ensures u.Branch? && u.node == x && Plug(u, d) == Plug(t, c)
  {
    if x == t.node {
      u, d := t, c;
    } else if x in Nodes(t.left) {
      u, d := Locate(t.left, Down(Left, c, t.node, t.color, t.right), x);
    } else {
      u, d := Locate(t.right, Down(Right, c, t.node, t.color, t.left), x);
    }
  }

  /** What is left after a node without a left or without a right child went away. */
  function Cut(t: Tree): Tree
    requires t.Branch?
  {
    if t.left.Leaf? then t.right else t.left
  }

  ghost predicate CutAt(t: Tree) {
    t.Branch? && (t.left.Leaf? || t.right.Leaf?)
  }

  /** After a node of colour `gone` went: one black short, or balanced. */
  ghost predicate AfterCut(t: Tree, c: Ctx, gone: Color, h: nat) {
    if gone == Black then Short(t, h) && CtxBalanced(c, h + 1)
    else Balanced(t, h) && CtxBalanced(c, h) && ColorOf(t) == Black
  }

  lemma CutOk(t: Tree, c: Ctx) returns (h: nat)
    requires CutAt(t) && RedBlack(Plug(t, c))
    ensures AfterCut(Cut(t), c, t.color, h)
  {
    var k: nat :| Balanced(Plug(t, c), k);
    var g := UnplugBalanced(t, c, k);
    h := if t.color == Black then g - 1 else g;
  }

  /** The node without a left or without a right child is bypassed. */
  method Splice(head: Head, elm: Node, child: Node?, parent: Node?, ghost t: Tree, ghost c: Ctx)
    requires head.Zipped(t, c) && CutAt(t) && elm == t.node
    requires child == Root(Cut(t)) && parent == Parent(c, null)
    modifies head`root, if child == null then {} else {child}`parent, if parent == null then {} else {parent}
    ensures head.Zipped(Cut(t), c)
  {
    NodesAllocated(Cut(t));
    CtxAllocated(c);
    ghost var was := head.root;
    assert Rep(t.left, elm.left, elm) && Rep(t.right, elm.right, elm);
    assert Rep(Cut(t), child, elm);
    SplicePointers(head, elm, child, parent);
    Adopted(Place(Cut(t), child, elm), parent);
    Relinked(Hole(c, elm, was), child, head.root);
  }

  method SplicePointers(head: Head, elm: Node, child: Node?, parent: Node?)
    requires parent != null ==> parent != child && (elm == parent.left) != (elm == parent.right)
    modifies head`root, if child == null then {} else {child}`parent, if parent == null then {} else {parent}
    ensures child != null ==> child.parent == parent
    ensures if parent == null then head.root == child
            else head.root == old(head.root) &&
                 parent.parent == old(parent.parent) && parent.color == old(parent.color) &&
                 parent.left == (if old(parent.left) == elm then child else old(parent.left)) &&
                 parent.right == (if old(parent.left) == elm then old(parent.right) else child)
  {
    if child != null {
      child.parent := parent;
    }
    if parent != null {
      if parent.left == elm {
        parent.left := child;
      } else {
        parent.right := child;
      }
    } else {
      head.root := child;
    }
  }

  /** `s` takes over the place of `old`: all four fields, and the links to it. */
  method TakeOver(head: Head, old': Node, s: Node, ghost t: Tree, ghost c: Ctx)
    requires head.Zipped(t, c) && t.Branch? && t.node == old' && t.left.Branch?
    requires s !in Nodes(t) && s !in CtxNodes(c)
    modifies head`root, s, Nodes(t), CtxNodes(c)
    ensures head.Zipped(t.(node := s), c)
  {
    NodesAllocated(t);
    CtxAllocated(c);
    ghost var was, p := head.root, old'.parent;
    assert t.left.node in Nodes(t.left) && (t.right.Branch? ==> t.right.node in Nodes(t.right));
    assert Rep(t.left, old'.left, old') && Rep(t.right, old'.right, old');
    TakeOverPointers(head, old', s);
    Adopted(Place(t.left, t.left.node, old'), s);
    Adopted(Place(t.right, Root(t.right), old'), s);
    Relinked(Hole(c, old', was), s, head.root);
  }

  method TakeOverPointers(head: Head, o: Node, s: Node)
    requires o != s && o.left != null && o.left != o && o.left != s
    requires o.right != o && o.right != s && o.right != o.left
    requires o.parent != o && o.parent != s && o.parent != o.left && (o.parent != null ==> o.parent != o.right)
    requires o.parent != null ==> (o == o.parent.left) != (o == o.parent.right)
    modifies head`root, s, o.left`parent, if o.right == null then {} else {o.right}`parent
    modifies if o.parent == null then {} else {o.parent}`left, if o.parent == null then {} else {o.parent}`right
    ensures s.left == o.left && s.right == o.right && s.parent == o.parent && s.color == o.color
    ensures o.left.parent == s && (o.right != null ==> o.right.parent == s)
    ensures if o.parent == null then head.root == s
            else head.root == old(head.root) &&
                 o.parent.left == (if old(o.parent.left) == o then s else old(o.parent.left)) &&
                 o.parent.right == (if old(o.parent.left) == o then old(o.parent.right) else s)
  {
    s.left, s.right, s.parent, s.color := o.left, o.right, o.parent, o.color;
    if o.parent != null {
      if o.parent.left == o {
        o.parent.left := s;
      } else {
        o.parent.right := s;
      }
    } else {
      head.root := s;
    }
    o.left.parent := s;
    if o.right != null {
      o.right.parent := s;
    }
  }

  /** A position inside the right subtree, and the branch above that subtree. */
  lemma Rejoin(head: Head, u: Tree, inner: Ctx, l: Tree, x: Node, col: Color, c: Ctx)
    ensures head.Zipped(u, Append(inner, Down(Right, c, x, col, l))) <==>
            head.Zipped(Branch(l, x, col, Plug(u, inner)), c)
    ensures Plug(u, Append(inner, Down(Right, c, x, col, l))) == Plug(Branch(l, x, col, Plug(u, inner)), c)
  {
    var outer := Down(Right, c, x, col, l);
    AppendPlug(u, inner, outer);
    head.ZippedPlug(u, Append(inner, outer));
    head.ZippedPlug(Branch(l, x, col, Plug(u, inner)), c);
  }

  /** What RB_REMOVE hands to its `color:` label: the tree without `gone`, the position
      that lost a node of colour `color`, and the child and parent there. */
  ghost predicate Ready(head: Head, child: Node?, parent: Node?, color: Color, z: Zip, h: nat)
    reads head, z.All()
  {
    head.Zipped(z.t, z.c) && child == Root(z.t) && (z.c.Down? ==> parent == z.c.node) && AfterCut(z.t, z.c, color, h)
  }

  /** In-order, a cut removes exactly the node. */
  lemma CutInOrder(t: Tree, c: Ctx)
    requires CutAt(t)
    ensures InOrder(Plug(Cut(t), c)) == Prior(t, c) + Later(t, c)
  {
    PlugInOrder(Cut(t), c);
  }

  /** In-order, the successor moving up removes exactly the node it replaces. */
  lemma TakeOverInOrder(t: Tree, c: Ctx, u: Tree, inner: Ctx)
    requires t.Branch? && u.Branch? && u.left.Leaf? && Plug(u, inner) == t.right && Before(inner) == []
    ensures InOrder(Plug(t.(node := u.node, right := Plug(u.right, inner)), c)) == Prior(t, c) + Later(t, c)
  {
    var t' := t.(node := u.node, right := Plug(u.right, inner));
    SuccessorFirst(u, inner);
    PlugInOrderAt(t', c);
    Shift(Prior(t, c), u.node, InOrder(t'.right), After(c));
  }

  lemma Shift(p: seq<Node>, x: Node, r: seq<Node>, a: seq<Node>)
    ensures p + [x] + (r + a) == p + (([x] + r) + a)
  {}

  lemma SuccessorFirst(u: Tree, inner: Ctx)
    requires u.Branch? && u.left.Leaf? && Before(inner) == []
    ensures InOrder(Plug(u, inner)) == [u.node] + InOrder(Plug(u.right, inner))
  {
    PlugInOrder(u, inner);
    PlugInOrder(u.right, inner);
    Shift([], u.node, InOrder(u.right), After(inner));
    assert InOrder(u) == [u.node] + InOrder(u.right);
  }

  /** The node has at most one child. */
  method RemoveOuter(head: Head, elm: Node, child: Node?, ghost t: Tree, ghost c: Ctx)
    returns (parent: Node?, color: Color, ghost z: Zip, ghost h: nat)
    requires head.Zipped(t, c) && CutAt(t) && elm == t.node && child == Root(Cut(t)) && RedBlack(Plug(t, c))
    modifies head`root, Nodes(t), CtxNodes(c)
    ensures Ready(head, child, parent, color, z, h)
    ensures z == Zip(Cut(t), c) && unchanged(elm) && Depth(c) <= Height(Plug(t, c))
    ensures InOrder(z.Whole()) == Prior(t, c) + Later(t, c)
  {
    parent := elm.parent;
    color := elm.color;
    z := Zip(Cut(t), c);
    h := CutOk(t, c);
    CutInOrder(t, c);
    PlugHeight(t, c);
    assert child != null ==> child in Nodes(Cut(t));
    Splice(head, elm, child, parent, t, c);
  }

  /** The nodes around a successor `u.node` inside the right subtree of `x`. */
  lemma Inside(u: Tree, inner: Ctx, l: Tree, x: Node, col: Color, c: Ctx)
    requires u.Branch? && u.left.Leaf? && Apart(u, Append(inner, Down(Right, c, x, col, l)))
    ensures var whole := Nodes(Branch(l, x, col, Plug(u, inner))) + CtxNodes(c);
            var rest := Branch(l, x, col, Plug(u.right, inner));
            whole == Nodes(u) + CtxNodes(Append(inner, Down(Right, c, x, col, l))) &&
            Nodes(rest) + CtxNodes(c) == whole - {u.node}
    ensures inner.Down? ==> inner.node != x
  {
    var d := Down(Right, c, x, col, l);
    Outside(u, inner, l, x, col, c);
    Outside(u.right, inner, l, x, col, c);
    AppendNodes(inner, d);
    Without(u, CtxNodes(Append(inner, d)));
  }

  lemma Without(u: Tree, f: set<Node>)
    requires u.Branch? && u.left.Leaf? && u.node !in Nodes(u.right) && u.node !in f
    ensures Nodes(u.right) + f == Nodes(u) + f - {u.node}
  {}

  lemma Outside(u: Tree, inner: Ctx, l: Tree, x: Node, col: Color, c: Ctx)
    ensures Nodes(u) + CtxNodes(Append(inner, Down(Right, c, x, col, l))) ==
            Nodes(Branch(l, x, col, Plug(u, inner))) + CtxNodes(c)
  {
    var d := Down(Right, c, x, col, l);
    AppendPlug(u, inner, d);
    PlugNodes(u, Append(inner, d));
    PlugNodes(Branch(l, x, col, Plug(u, inner)), c);
  }

  /** The node has two children: its successor is spliced out and takes its place. */
  method RemoveInner(head: Head, old': Node, ghost t: Tree, ghost c: Ctx)
    returns (child: Node?, parent: Node?, color: Color, ghost z: Zip, ghost h: nat, ghost down: nat)
    requires head.Zipped(t, c) && t.Branch? && old' == t.node && t.left.Branch? && t.right.Branch?
    requires RedBlack(Plug(t, c))
    modifies head`root, Nodes(t), CtxNodes(c)
    ensures Ready(head, child, parent, color, z, h) && Depth(z.c) <= Height(Plug(t, c)) && down <= Height(Plug(t, c))
    ensures InOrder(z.Whole()) == Prior(t, c) + Later(t, c)
    ensures exists rest :: z.Whole() == Plug(Branch(t.left, InOrder(t.right)[0], t.color, rest), c)
  {
    ghost var d := Down(Right, c, old', t.color, t.left);
    head.Refocus(Right, t.right, old', t.color, t.left, c);
    var elm;
    ghost var u, inner;
    PlugHeight(t, c);
    elm, u, inner, down := Extreme(head, Left, old'.right, t.right, d);
    assert down <= Height(Plug(t, c));
    Rejoin(head, u, inner, t.left, old', t.color, c);
    Inside(u, inner, t.left, old', t.color, c);
    head.Sides(u, Append(inner, d));
    child := elm.right;
    parent, color, z, h := RemoveOuter(head, elm, child, u, Append(inner, d));
    if elm.parent == old' {
      parent := elm;
    }
    Rejoin(head, u.right, inner, t.left, old', t.color, c);
    TakeOver(head, old', elm, t.(right := Plug(u.right, inner)), c);
    Rejoin(head, u.right, inner, t.left, elm, t.color, c);
    AppendBalanced(inner, d, elm, if color == Black then h + 1 else h);
    z := Zip(u.right, Append(inner, d.(node := elm)));
    TakeOverInOrder(t, c, u, inner);
    SuccessorFirst(u, inner);
    assert z.Whole() == Plug(Branch(t.left, elm, t.color, Plug(u.right, inner)), c);
  }

  /** RB_REMOVE up to its `color:` label. */
  method Unlink(head: Head, elm: Node, ghost t: Tree, ghost c: Ctx)
    returns (child: Node?, parent: Node?, color: Color, ghost z: Zip, ghost h: nat, ghost down: nat)
    requires head.Zipped(t, c) && t.Branch? && elm == t.node && RedBlack(Plug(t, c))
    modifies head`root, Nodes(t), CtxNodes(c)
    ensures Ready(head, child, parent, color, z, h) && Depth(z.c) <= Height(Plug(t, c)) && down <= Height(Plug(t, c))
    ensures InOrder(z.Whole()) == Prior(t, c) + Later(t, c)
  {
    head.Sides(t, c);
    down := 0;
    if elm.left == null {
      child := elm.right;
      parent, color, z, h := RemoveOuter(head, elm, child, t, c);
    } else if elm.right == null {
      child := elm.left;
      parent, color, z, h := RemoveOuter(head, elm, child, t, c);
    } else {
      child, parent, color, z, h, down := RemoveInner(head, elm, t, c);
    }
  }

  /** `r` is `s` without its node `x`. */
  ghost predicate LacksOnly(cmp: Comparison, s: seq<Node>, x: Node, r: seq<Node>) {
    var i := Rank(cmp, s, x.key);
    i < |s| && s[i] == x && r == s[..i] + s[i + 1..]
  }

  /** Exactly one node is gone. */
  lemma OneGone(cmp: Comparison, t: Tree, c: Ctx, z: Zip)
    requires TotalOrder(cmp) && t.Branch? && Ascending(cmp, InOrder(Plug(t, c)))
    requires InOrder(z.Whole()) == Prior(t, c) + Later(t, c)
    ensures z.All() == Nodes(Plug(t, c)) - {t.node} && Ascending(cmp, InOrder(z.Whole()))
    ensures LacksOnly(cmp, InOrder(Plug(t, c)), t.node, InOrder(z.Whole()))
  {
    PlugInOrderAt(t, c);
    LeaveOut(cmp, Prior(t, c), t.node, Later(t, c));
    PlugNodes(z.t, z.c);
    InOrderNodes(z.Whole());
    InOrderNodes(Plug(t, c));
    WithoutOne(Prior(t, c), t.node, Later(t, c));
  }

  lemma WithoutOne(a: seq<Node>, x: Node, b: seq<Node>)
    requires x !in a + b
    ensures (set y | y in a + b) == (set y | y in a + [x] + b) - {x}
    ensures (a + [x] + b)[..|a|] == a && (a + [x] + b)[|a| + 1..] == b
  {
    assert forall y :: y in a + [x] + b <==> y == x || y in a + b;
  }

  /** RB_REMOVE of a node of the tree: exactly that node leaves, and every other node
      stays the object it was. The descent to the successor and
      the fix-up make `down` and `up` rounds. */
  method Remove(head: Head, elm: Node) returns (old': Node, ghost down: nat, ghost up: nat)
    requires head.Valid() && elm in head.nodes
    modifies head, head.nodes
    ensures head.Valid() && old' == elm
    ensures head.nodes == old(head.nodes) - {elm}
    ensures var s, i := old(head.Contents()), Rank(head.cmp, old(head.Contents()), elm.key);
            i < |s| && s[i] == elm && head.Contents() == s[..i] + s[i + 1..]
    ensures var n := |old(head.Contents())|; Logarithmic(down, n) && Logarithmic(up, n)
  {
    ghost var whole := head.shape;
    ghost var t, c := Locate(whole, Top, elm);
    down, up := RemoveAt(head, elm, t, c);
    HeightBound(whole, down);
    HeightBound(whole, up);
    old' := elm;
  }

  method RemoveAt(head: Head, elm: Node, ghost t: Tree, ghost c: Ctx)
    returns (ghost down: nat, ghost up: nat)
    requires head.Valid() && t.Branch? && t.node == elm && Plug(t, c) == head.shape
    modifies head, head.nodes
    ensures head.Valid()
    ensures head.nodes == old(head.nodes) - {elm}
    ensures LacksOnly(head.cmp, old(head.Contents()), elm, head.Contents())
    ensures down <= old(Height(head.shape)) && up <= old(Height(head.shape))
  {
    head.ZippedPlug(t, c);
    PlugNodes(t, c);
    var child, parent, color;
    ghost var z, h;
    child, parent, color, z, h, down := Unlink(head, elm, t, c);
    OneGone(head.cmp, t, c, z);
    ghost var u;
    u, up := Recolour(head, parent, child, color, z, h);
    head.shape, head.nodes := u, Nodes(u);
    assert Ascending(head.cmp, InOrder(u)) && head.Zipped(u, Top);
  }

  /** RB_REMOVE from its `color:` label on. */
  method Recolour(head: Head, parent: Node?, child: Node?, color: Color, ghost z: Zip, ghost h: nat)
    returns (ghost t: Tree, ghost steps: nat)
    requires Ready(head, child, parent, color, z, h)
    modifies head, z.All()
    ensures head.Zipped(t, Top) && RedBlack(t) && InOrder(t) == InOrder(z.Whole()) && Nodes(t) == z.All()
    ensures steps <= Depth(z.c)
  {
    if color == Black {
      t, steps := RemoveColor(head, parent, child, z, h);
    } else {
      head.ZippedPlug(z.t, z.c);
      PlugRedBlack(z.t, z.c, h);
      PlugNodes(z.t, z.c);
      t, steps := z.Whole(), 0;
    }
  }
}
