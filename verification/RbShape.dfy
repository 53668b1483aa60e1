/** The value level of the red-black tree: shapes, contexts, and the colour rules. */
module RbShape {
  import opened Order

  /** The shape of a subtree: which node sits where, and its colour. */
  datatype Tree = Leaf | Branch(left: Tree, node: Node, color: Color, right: Tree)

  /** A subtree's surroundings, innermost first: the hole is the `side` child of
      `node`, whose other child is `other`. */
  datatype Ctx = Top | Down(side: Side, up: Ctx, node: Node, color: Color, other: Tree)

  /** A branch seen from one side, so that mirror-image cases share one proof. */
  function Mk(s: Side, near: Tree, x: Node, c: Color, far: Tree): Tree {
    if s == Left then Branch(near, x, c, far) else Branch(far, x, c, near)
  }

  function Sub(t: Tree, s: Side): Tree
    requires t.Branch?
  {
    if s == Left then t.left else t.right
  }

  function Plug(t: Tree, c: Ctx): Tree
    decreases c
  {
    match c
    case Top => t
    case Down(s, up, x, col, o) => Plug(Mk(s, t, x, col, o), up)
  }

  function Depth(c: Ctx): nat {
    if c.Top? then 0 else 1 + Depth(c.up)
  }

  function InOrder(t: Tree): seq<Node> {
    match t
    case Leaf => []
    case Branch(l, x, _, r) => InOrder(l) + [x] + InOrder(r)
  }

  function Height(t: Tree): nat {
    match t
    case Leaf => 0
    case Branch(l, _, _, r) => 1 + if Height(l) < Height(r) then Height(r) else Height(l)
  }

  /** The nodes ascending before (after) the hole of a context. */
  function Before(c: Ctx): seq<Node> {
    match c
    case Top => []
    case Down(s, up, x, _, o) => if s == Left then Before(up) else Before(up) + InOrder(o) + [x]
  }

  function After(c: Ctx): seq<Node> {
    match c
    case Top => []
    case Down(s, up, x, _, o) => if s == Left then [x] + InOrder(o) + After(up) else After(up)
  }

  function Nodes(t: Tree): set<Node> {
    match t
    case Leaf => {}
    case Branch(l, x, _, r) => Nodes(l) + {x} + Nodes(r)
  }

  function CtxNodes(c: Ctx): set<Node> {
    match c
    case Top => {}
    case Down(_, up, x, _, o) => CtxNodes(up) + {x} + Nodes(o)
  }

  /** No node occurs twice. */
  ghost predicate Distinct(t: Tree) {
    match t
    case Leaf => true
    case Branch(l, x, _, r) =>
      Distinct(l) && Distinct(r) && x !in Nodes(l) && x !in Nodes(r) && Nodes(l) !! Nodes(r)
  }

  ghost predicate CtxDistinct(c: Ctx) {
    match c
    case Top => true
    case Down(_, up, x, _, o) =>
      CtxDistinct(up) && Distinct(o) && x !in CtxNodes(up) && x !in Nodes(o) && CtxNodes(up) !! Nodes(o)
  }

  ghost predicate Apart(t: Tree, c: Ctx) {
    Distinct(t) && CtxDistinct(c) && Nodes(t) !! CtxNodes(c)
  }

  function ColorOf(t: Tree): Color {
    if t.Leaf? then Black else t.color
  }

  /** The colour above the hole. The root has no parent; counting it as red says
      that the root itself must be black. */
  function ColorAbove(c: Ctx): Color {
    if c.Top? then Red else c.color
  }

  /** Every path to a leaf has `h` black nodes and no red node has a red child. */
  ghost predicate Balanced(t: Tree, h: nat) {
    match t
    case Leaf => h == 0
    case Branch(l, _, Red, r) =>
      ColorOf(l) == Black && ColorOf(r) == Black && Balanced(l, h) && Balanced(r, h)
    case Branch(l, _, Black, r) =>
      h > 0 && Balanced(l, h - 1) && Balanced(r, h - 1)
  }

  /** The surroundings are balanced when the hole has black count `h`. */
  ghost predicate CtxBalanced(c: Ctx, h: nat) {
    match c
    case Top => true
    case Down(_, up, _, Red, o) =>
      Balanced(o, h) && ColorOf(o) == Black && ColorAbove(up) == Black && CtxBalanced(up, h)
    case Down(_, up, _, Black, o) =>
      Balanced(o, h) && CtxBalanced(up, h + 1)
  }

  /** The red-black conditions on a whole tree. */
  ghost predicate RedBlack(t: Tree) {
    ColorOf(t) == Black && exists h: nat :: Balanced(t, h)
  }

  // ----- sequences and sets of a plugged tree

  lemma {:induction false} PlugInOrder(t: Tree, c: Ctx)
    ensures InOrder(Plug(t, c)) == Before(c) + InOrder(t) + After(c)
    decreases c
  {
    match c
    case Top =>
    case Down(s, up, x, col, o) =>
      PlugInOrder(Mk(s, t, x, col, o), up);
  }

  /** The nodes before and after the root of a focused branch. */
  function Prior(t: Tree, c: Ctx): seq<Node>
    requires t.Branch?
  {
    Before(c) + InOrder(t.left)
  }

  function Later(t: Tree, c: Ctx): seq<Node>
    requires t.Branch?
  {
    InOrder(t.right) + After(c)
  }

  lemma {:induction false} PlugHeight(t: Tree, c: Ctx)
    ensures Depth(c) + Height(t) <= Height(Plug(t, c))
    decreases c
  {
    if c.Top? {
    } else {
      PlugHeight(Mk(c.side, t, c.node, c.color, c.other), c.up);
    }
  }

  lemma PlugInOrderAt(t: Tree, c: Ctx)
    requires t.Branch?
    ensures InOrder(Plug(t, c)) == Prior(t, c) + [t.node] + Later(t, c)
  {
    PlugInOrder(t, c);
  }

  lemma {:induction false} PlugNodes(t: Tree, c: Ctx)
    ensures Nodes(Plug(t, c)) == Nodes(t) + CtxNodes(c)
    ensures Distinct(Plug(t, c)) <==> Apart(t, c)
    decreases c
  {
    match c
    case Top =>
    case Down(s, up, x, col, o) =>
      PlugNodes(Mk(s, t, x, col, o), up);
  }

  /** A position in a tree: a subtree and its surroundings. */
  datatype Zip = Zip(t: Tree, c: Ctx) {
    function Whole(): Tree { Plug(t, c) }

    function All(): set<Node> { Nodes(t) + CtxNodes(c) }
  }

  /** Positions in trees with the same nodes in the same order. */
  ghost predicate SameOrder(y: Zip, z: Zip) {
    InOrder(y.Whole()) == InOrder(z.Whole()) && y.All() == z.All()
  }

  lemma SameOrderIf(y: Zip, z: Zip)
    requires InOrder(y.Whole()) == InOrder(z.Whole())
    ensures SameOrder(y, z)
  {
    PlugNodes(y.t, y.c);
    PlugNodes(z.t, z.c);
    InOrderNodes(Plug(y.t, y.c));
    InOrderNodes(Plug(z.t, z.c));
    assert Nodes(Plug(y.t, y.c)) == Nodes(Plug(z.t, z.c));
  }

  lemma {:induction false} InOrderNodes(t: Tree)
    ensures Nodes(t) == set x | x in InOrder(t)
  {
    match t
    case Leaf =>
    case Branch(l, x, c, r) =>
      InOrderNodes(l);
      InOrderNodes(r);
  }

  /** Replacing a subtree by one with the same nodes in the same order. */
  lemma PlugSame(t: Tree, u: Tree, c: Ctx)
    requires InOrder(t) == InOrder(u)
    ensures InOrder(Plug(t, c)) == InOrder(Plug(u, c))
  {
    PlugInOrder(t, c);
    PlugInOrder(u, c);
  }

  /** A balanced subtree in balanced surroundings is a red-black tree. */
  lemma {:induction false} PlugRedBlack(t: Tree, c: Ctx, h: nat)
    requires Balanced(t, h) && CtxBalanced(c, h)
    requires ColorAbove(c) == Red ==> ColorOf(t) == Black
    ensures RedBlack(Plug(t, c))
    decreases c
  {
    match c
    case Top =>
    case Down(s, up, x, Red, o) => PlugRedBlack(Mk(s, t, x, Red, o), up, h);
    case Down(s, up, x, Black, o) => PlugRedBlack(Mk(s, t, x, Black, o), up, h + 1);
  }

  /** Conversely the surroundings of any subtree of a balanced tree are balanced. */
  lemma {:induction false} UnplugBalanced(t: Tree, c: Ctx, k: nat) returns (h: nat)
    requires Balanced(Plug(t, c), k) && ColorOf(Plug(t, c)) == Black
    ensures Balanced(t, h) && CtxBalanced(c, h)
    ensures ColorAbove(c) == Red ==> ColorOf(t) == Black
    decreases c
  {
    match c
    case Top =>
      h := k;
    case Down(s, up, x, col, o) =>
      var g := UnplugBalanced(Mk(s, t, x, col, o), up, k);
      h := if col == Black then g - 1 else g;
  }

  // ----- a context continued by another

  function Append(inner: Ctx, outer: Ctx): Ctx {
    match inner
    case Top => outer
    case Down(s, up, x, col, o) => Down(s, Append(up, outer), x, col, o)
  }

  lemma {:induction false} AppendPlug(t: Tree, inner: Ctx, outer: Ctx)
    ensures Plug(t, Append(inner, outer)) == Plug(Plug(t, inner), outer)
    decreases inner
  {
    if inner.Top? {
    } else {
      AppendPlug(Mk(inner.side, t, inner.node, inner.color, inner.other), inner.up, outer);
    }
  }

  lemma {:induction false} AppendNodes(inner: Ctx, outer: Ctx)
    ensures CtxNodes(Append(inner, outer)) == CtxNodes(inner) + CtxNodes(outer)
    ensures CtxDistinct(Append(inner, outer)) ==> CtxNodes(inner) !! CtxNodes(outer)
  {
    if inner.Top? {
    } else {
      AppendNodes(inner.up, outer);
    }
  }

  /** Balance looks at colours only, not at which node carries them. */
  lemma {:induction false} AppendBalanced(inner: Ctx, d: Ctx, x: Node, h: nat)
    requires d.Down? && CtxBalanced(Append(inner, d), h)
    ensures CtxBalanced(Append(inner, d.(node := x)), h)
    ensures ColorAbove(Append(inner, d.(node := x))) == ColorAbove(Append(inner, d))
    ensures Depth(Append(inner, d.(node := x))) == Depth(Append(inner, d))
  {
    if inner.Top? {
    } else {
      AppendBalanced(inner.up, d, x, if inner.color == Black then h + 1 else h);
    }
  }
}
