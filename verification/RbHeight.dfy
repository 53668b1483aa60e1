/** The bound on the height of a red-black tree, and so on every loop of its operations. */
module RbHeight {
  import opened Order
  import opened RbShape

  function Pow2(n: nat): (p: nat)
    ensures p > 0
  {
    if n == 0 then 1 else 2 * Pow2(n - 1)
  }

  lemma {:induction false} Pow2Add(a: nat, b: nat)
    ensures Pow2(a + b) == Pow2(a) * Pow2(b)
  {
    if a == 0 {
    } else {
      Pow2Add(a - 1, b);
      assert Pow2(a + b) == 2 * (Pow2(a - 1) * Pow2(b)) == (2 * Pow2(a - 1)) * Pow2(b);
    }
  }

  lemma {:induction false} Pow2Monotone(a: nat, b: nat)
    requires a <= b
    ensures Pow2(a) <= Pow2(b)
  {
    if a == b {
    } else {
      Pow2Monotone(a, b - 1);
    }
  }

  lemma SquareMonotone(a: nat, b: nat)
    requires a <= b
    ensures a * a <= b * b
  {
    assert a * a <= a * b;
  }

  /** Black nodes alone already make the tree this big. */
  lemma {:induction false} BlackSize(t: Tree, h: nat)
    requires Balanced(t, h)
    ensures Pow2(h) <= |InOrder(t)| + 1
  {
    match t
    case Leaf =>
    case Branch(l, _, Red, r) => BlackSize(l, h); BlackSize(r, h);
    case Branch(l, _, Black, r) => BlackSize(l, h - 1); BlackSize(r, h - 1);
  }

  /** At most every other node on a path is red. */
  lemma {:induction false} BlackHeight(t: Tree, h: nat)
    requires Balanced(t, h)
    ensures Height(t) <= 2 * h + if ColorOf(t) == Red then 1 else 0
  {
    match t
    case Leaf =>
    case Branch(l, _, Red, r) => BlackHeight(l, h); BlackHeight(r, h);
    case Branch(l, _, Black, r) => BlackHeight(l, h - 1); BlackHeight(r, h - 1);
  }

  /** rounds <= 2 lg(n + 1), without logarithms. */
  predicate Logarithmic(rounds: nat, n: nat) {
    Pow2(rounds) <= (n + 1) * (n + 1)
  }

  /** The height is at most 2 lg(n + 1), and so is every count of rounds below it. */
  lemma HeightBound(t: Tree, rounds: nat)
    requires RedBlack(t) && rounds <= Height(t)
    ensures Logarithmic(rounds, |InOrder(t)|)
  {
    var h: nat :| Balanced(t, h);
    var n := |InOrder(t)|;
    BlackSize(t, h);
    BlackHeight(t, h);
    Pow2Monotone(rounds, h + h);
    Pow2Add(h, h);
    SquareMonotone(Pow2(h), n + 1);
  }
}
