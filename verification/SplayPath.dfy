/** What a splay makes of the shape of a tree, by single rotations from the bottom up, and
    why that shortens the path it went. */
module SplayPath {
  import opened Order
  import opened SplayShape

  /** The side of a node on which what is searched for lies. */
  function Toward(comp: int): Side
    requires comp != 0
  {
    if comp < 0 then Left else Right
  }

  /** Where a search ends: at the key itself, or where nothing is left on its side. */
  predicate Stop(cmp: Comparison, p: Probe, t: Tree) {
    t.Branch? &&
    var comp := Compare(cmp, p, t.node.key);
    comp == 0 || Sub(t, Toward(comp)).Leaf?
  }

  /** The child on side `d` takes the place of its parent. */
  function Raised(d: Side, t: Tree): Tree
    requires t.Branch? && Sub(t, d).Branch?
  {
    var y, o := Sub(t, d), d.Other();
    Mk(d, Sub(y, d), y.node, Mk(d, Sub(y, o), t.node, Sub(t, o)))
  }

  /** The subtree on side `d` replaced. */
  function With(d: Side, t: Tree, v: Tree): Tree
    requires t.Branch?
  {
    Mk(d, v, t.node, Sub(t, d.Other()))
  }

  /** Two steps to the same side: the child is raised first. Then what is found is raised. */
  function Splayed(cmp: Comparison, p: Probe, t: Tree): (u: Tree)
    requires t.Branch?
    ensures u.Branch?
  {
    if Stop(cmp, p, t) then t
    else
      var d := Toward(Compare(cmp, p, t.node.key));
      var y := Sub(t, d);
      var next := Compare(cmp, p, y.node.key);
      if next != 0 && Toward(next) == d then
        if Sub(y, d).Leaf? then Raised(d, t)
        else Raised(d, With(d, Raised(d, t), Splayed(cmp, p, Sub(y, d))))
      else Raised(d, With(d, t, Splayed(cmp, p, y)))
  }

  function Max(a: nat, b: nat): nat { if a < b then b else a }

  function Height(t: Tree): nat {
    match t
    case Leaf => 0
    case Branch(l, _, r) => 1 + Max(Height(l), Height(r))
  }

  /** The number of nodes on the search path. */
  function Path(cmp: Comparison, p: Probe, t: Tree): nat
    requires t.Branch?
  {
    if Stop(cmp, p, t) then 1 else 1 + Path(cmp, p, Sub(t, Toward(Compare(cmp, p, t.node.key))))
  }

  /** The greatest height of a subtree that hangs off the search path. */
  function Aside(cmp: Comparison, p: Probe, t: Tree): nat
    requires t.Branch?
  {
    if Stop(cmp, p, t) then Max(Height(t.left), Height(t.right))
    else
      var d := Toward(Compare(cmp, p, t.node.key));
      Max(Height(Sub(t, d.Other())), Aside(cmp, p, Sub(t, d)))
  }

  /** The heights of the two sides after the last rotation of a step. */
  lemma RaisedHeights(d: Side, t: Tree, v: Tree)
    requires t.Branch? && v.Branch?
    ensures var u, o := Raised(d, With(d, t, v)), d.Other();
            Sub(u, d) == Sub(v, d) && Height(Sub(u, o)) == 1 + Max(Height(Sub(v, o)), Height(Sub(t, o)))
  {}

  /** What `n` nodes of path may make of sides of height `h`: the side left behind by the
      first step gets half of them, the other one half of what remains. */
  predicate Within(u: Tree, d: Side, n: nat, h: nat)
    requires u.Branch? && n > 0
  {
    Height(Sub(u, d.Other())) <= h + 1 + n / 2 && Height(Sub(u, d)) <= h + 1 + (n - 1) / 2
  }

  lemma {:induction false} SidesHalved(cmp: Comparison, p: Probe, t: Tree, h: nat)
    requires t.Branch? && Aside(cmp, p, t) <= h
    ensures if Stop(cmp, p, t) then Height(t.left) <= h && Height(t.right) <= h
            else Within(Splayed(cmp, p, t), Toward(Compare(cmp, p, t.node.key)), Path(cmp, p, t), h)
  {
    if Stop(cmp, p, t) {
    } else {
      var d := Toward(Compare(cmp, p, t.node.key));
      var y, o := Sub(t, d), d.Other();
      var next := Compare(cmp, p, y.node.key);
      if next != 0 && Toward(next) == d {
        if Sub(y, d).Branch? {
          SidesHalved(cmp, p, Sub(y, d), h);
          TwoSteps(cmp, p, d, t, h);
        }
      } else {
        SidesHalved(cmp, p, y, h);
        OneStep(cmp, p, d, t, h);
      }
    }
  }

  lemma TwoSteps(cmp: Comparison, p: Probe, d: Side, t: Tree, h: nat)
    requires t.Branch? && Sub(t, d).Branch? && Sub(Sub(t, d), d).Branch?
    requires Height(Sub(t, d.Other())) <= h && Height(Sub(Sub(t, d), d.Other())) <= h
    requires var z := Sub(Sub(t, d), d);
             if Stop(cmp, p, z) then Height(z.left) <= h && Height(z.right) <= h
             else Within(Splayed(cmp, p, z), Toward(Compare(cmp, p, z.node.key)), Path(cmp, p, z), h)
    ensures var z := Sub(Sub(t, d), d);
            Within(Raised(d, With(d, Raised(d, t), Splayed(cmp, p, z))), d, 2 + Path(cmp, p, z), h)
  {
    var z := Sub(Sub(t, d), d);
    RaisedHeights(d, t, Sub(t, d));
    RaisedHeights(d, Raised(d, t), Splayed(cmp, p, z));
  }

  lemma OneStep(cmp: Comparison, p: Probe, d: Side, t: Tree, h: nat)
    requires t.Branch? && Sub(t, d).Branch? && Height(Sub(t, d.Other())) <= h
    requires var y := Sub(t, d);
             if Stop(cmp, p, y) then Height(y.left) <= h && Height(y.right) <= h
             else Toward(Compare(cmp, p, y.node.key)) == d.Other() &&
                  Within(Splayed(cmp, p, y), d.Other(), Path(cmp, p, y), h)
    ensures var y := Sub(t, d); Within(Raised(d, With(d, t, Splayed(cmp, p, y))), d, 1 + Path(cmp, p, y), h)
  {
    RaisedHeights(d, t, Splayed(cmp, p, Sub(t, d)));
  }

  /** Whatever is searched for, of the path that the splay went at most half is left as
      height above the subtrees that hung off it. */
  lemma Halved(cmp: Comparison, p: Probe, t: Tree)
    requires t.Branch?
    ensures Height(Splayed(cmp, p, t)) <= Path(cmp, p, t) / 2 + 2 + Aside(cmp, p, t)
  {
    SidesHalved(cmp, p, t, Aside(cmp, p, t));
  }

  // ----- splaying for an end of the tree

  /** The number of nodes along side `d` from the root, and what hangs on the other side of
      the last of them. */
  function Len(d: Side, t: Tree): nat {
    if t.Leaf? then 0 else 1 + Len(d, Sub(t, d))
  }

  function Tip(d: Side, t: Tree): (u: Tree)
    requires t.Branch?
    ensures u.Branch?
  {
    if Sub(t, d).Leaf? then t else Tip(d, Sub(t, d))
  }

  /** What is searched for lies on side `d` of all nodes, or is the last of them. */
  ghost predicate AtEnd(cmp: Comparison, p: Probe, d: Side, t: Tree) {
    forall i :: 0 <= i < |InOrder(t)| ==>
      var comp := Compare(cmp, p, InOrder(t)[i].key); comp == 0 || Toward(comp) == d
  }

  lemma AtEndBelow(cmp: Comparison, p: Probe, d: Side, t: Tree)
    requires TotalOrder(cmp) && t.Branch? && Ascending(cmp, InOrder(t)) && AtEnd(cmp, p, d, t)
    ensures Ascending(cmp, InOrder(Sub(t, d))) && AtEnd(cmp, p, d, Sub(t, d))
    ensures var comp := Compare(cmp, p, t.node.key);
            (comp == 0 || Toward(comp) == d) && (Sub(t, d).Branch? ==> comp != 0)
  {
    var a, x, b := InOrder(t.left), t.node, InOrder(t.right);
    LeaveOut(cmp, a, x, b);
    BeyondProbe(cmp, a, x, b, p);
    assert InOrder(t)[|a|] == x;
    assert forall i :: 0 <= i < |a| ==> InOrder(t)[i] == a[i];
    assert forall i :: 0 <= i < |b| ==> InOrder(t)[|a| + 1 + i] == b[i];
    if Sub(t, d).Branch? {
      var y := Sub(t, d);
      assert InOrder(y)[|InOrder(y.left)|] == y.node;
    }
  }

  /** Splaying for the first or last node, by its key or by an infinity, brings it to the
      root and halves the chain of nodes that led there, exactly. */
  lemma {:induction false} ChainHalved(cmp: Comparison, p: Probe, d: Side, t: Tree)
    requires TotalOrder(cmp) && t.Branch? && Ascending(cmp, InOrder(t)) && AtEnd(cmp, p, d, t)
    ensures var u, o := Splayed(cmp, p, t), d.Other();
            u.node == Tip(d, t).node && Sub(u, d).Leaf? &&
            Len(d, Sub(u, o)) == Len(d, t) / 2 + Len(d, Sub(Tip(d, t), o))
  {
    AtEndBelow(cmp, p, d, t);
    if Sub(t, d).Leaf? {
      assert Stop(cmp, p, t) && Len(d, t) == 1 + Len(d, Sub(t, d));
    } else {
      var y := Sub(t, d);
      AtEndBelow(cmp, p, d, y);
      if Sub(y, d).Branch? {
        ChainHalved(cmp, p, d, Sub(y, d));
      } else {
        assert Stop(cmp, p, y);
      }
    }
  }
}
