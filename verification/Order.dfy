/** Keys, the client's comparison macro `cmp`, and ascending node sequences. */
module Order {

  /** The client's key type; only `cmp` can look inside it. */
  type Key(!new)

  /** `cmp(a, b)` is negative, zero or positive as a is below, equal to or above b. */
  type Comparison = (Key, Key) -> int

  ghost predicate Flips(cmp: Comparison, a: Key, b: Key) {
    cmp(a, b) < 0 <==> cmp(b, a) > 0
  }

  ghost predicate Chains(cmp: Comparison, a: Key, b: Key, c: Key) {
    cmp(a, b) <= 0 && cmp(b, c) <= 0 ==> cmp(a, c) <= 0
  }

  /** What every user of tree.h must supply. */
  ghost predicate TotalOrder(cmp: Comparison) {
    && (forall a, b :: Flips(cmp, a, b))
    && (forall a, b, c :: Chains(cmp, a, b, c))
  }

  /** Transitivity in the mixed forms the searches use. */
  lemma Transitive(cmp: Comparison, a: Key, b: Key, c: Key)
    requires TotalOrder(cmp)
    ensures cmp(a, b) <= 0 && cmp(b, c) < 0 ==> cmp(a, c) < 0
    ensures cmp(a, b) < 0 && cmp(b, c) <= 0 ==> cmp(a, c) < 0
  {
    assert Flips(cmp, a, c) && Flips(cmp, c, a) && Flips(cmp, a, b) && Flips(cmp, b, a) &&
           Flips(cmp, b, c) && Flips(cmp, c, b);
    assert Chains(cmp, c, a, b) && Chains(cmp, b, c, a);
  }

  // ----- nodes

  datatype Color = Black | Red

  datatype Side = Left | Right {
    function Other(): Side { if this == Left then Right else Left }
  }

  /** A client node with its intrusive entry. A splay tree (SPLAY_ENTRY) uses the two
      child links, a red-black tree (RB_ENTRY) all four fields. */
  class Node {
    const key: Key
    var left: Node?
    var right: Node?
    var parent: Node?
    var color: Color

    constructor (key: Key)
      ensures this.key == key
    {
      this.key := key;
      left, right, parent, color := null, null, null, Black;
    }

    function Child(s: Side): Node?
      reads this
    {
      if s == Left then left else right
    }

    method SetChild(s: Side, n: Node?)
      modifies this`left, this`right
      ensures Child(s) == n && Child(s.Other()) == old(Child(s.Other()))
    {
      if s == Left { left := n; } else { right := n; }
    }
  }

  // ----- ascending sequences of nodes

  ghost predicate Less(cmp: Comparison, s: seq<Node>, i: nat, j: nat)
    requires i < |s| && j < |s|
  {
    cmp(s[i].key, s[j].key) < 0
  }

  ghost predicate Ascending(cmp: Comparison, s: seq<Node>) {
    forall i, j :: 0 <= i < j < |s| ==> Less(cmp, s, i, j)
  }

  /** How many nodes at the front of `s` are below `k`: where `k` is, or belongs. */
  function Rank(cmp: Comparison, s: seq<Node>, k: Key): (i: nat)
    ensures i <= |s|
  {
    if s == [] || cmp(k, s[0].key) <= 0 then 0 else 1 + Rank(cmp, s[1..], k)
  }

  /** The node of `s` with key `k`, if any. */
  function Lookup(cmp: Comparison, s: seq<Node>, k: Key): Node? {
    var i := Rank(cmp, s, k);
    if i < |s| && cmp(k, s[i].key) == 0 then s[i] else null
  }

  /** The least node of `s` that is not below `k`, if any. */
  function LowerBound(cmp: Comparison, s: seq<Node>, k: Key): Node? {
    var i := Rank(cmp, s, k);
    if i < |s| then s[i] else null
  }

  ghost predicate AllBelow(cmp: Comparison, s: seq<Node>, k: Key) {
    forall i :: 0 <= i < |s| ==> cmp(k, s[i].key) > 0
  }

  ghost predicate AllAbove(cmp: Comparison, s: seq<Node>, k: Key) {
    forall i :: 0 <= i < |s| ==> cmp(k, s[i].key) < 0
  }

  /** The position that separates the smaller keys from the others is the rank. */
  lemma {:induction false} RankIs(cmp: Comparison, s: seq<Node>, k: Key, i: nat)
    requires i <= |s| && AllBelow(cmp, s[..i], k)
    requires i < |s| ==> cmp(k, s[i].key) <= 0
    ensures Rank(cmp, s, k) == i
  {
    if i == 0 {
    } else {
      assert s[..i][0] == s[0] && s[1..][..i - 1] == s[..i][1..];
      RankIs(cmp, s[1..], k, i - 1);
    }
  }

  /** In an ascending sequence the rank separates: below it all are smaller, and
      every node from it on, except one with key `k` itself, is greater. */
  lemma {:induction false} RankSeparates(cmp: Comparison, s: seq<Node>, k: Key)
    requires TotalOrder(cmp) && Ascending(cmp, s)
    ensures var i := Rank(cmp, s, k);
            AllBelow(cmp, s[..i], k) &&
            (i < |s| ==> cmp(k, s[i].key) <= 0 && AllAbove(cmp, s[i + 1..], k))
  {
    var i := Rank(cmp, s, k);
    if s == [] {
    } else if cmp(k, s[0].key) <= 0 {
      forall j | 1 <= j < |s| ensures cmp(k, s[j].key) < 0 {
        assert Less(cmp, s, 0, j);
        Transitive(cmp, k, s[0].key, s[j].key);
      }
    } else {
      forall i, j | 0 <= i < j < |s[1..]| ensures Less(cmp, s[1..], i, j) {
        assert Less(cmp, s, i + 1, j + 1);
      }
      RankSeparates(cmp, s[1..], k);
      assert s[..i] == [s[0]] + s[1..][..i - 1];
    }
  }

  /** Whatever lies beyond a node on the far side of `k` does so too. */
  lemma Beyond(cmp: Comparison, a: seq<Node>, x: Node, b: seq<Node>, k: Key)
    requires TotalOrder(cmp) && Ascending(cmp, a + [x] + b)
    ensures cmp(k, x.key) <= 0 ==> AllAbove(cmp, b, k)
    ensures cmp(k, x.key) >= 0 ==> AllBelow(cmp, a, k)
  {
    var s := a + [x] + b;
    assert s[|a|] == x;
    forall i | cmp(k, x.key) <= 0 && 0 <= i < |b| ensures cmp(k, b[i].key) < 0 {
      assert s[|a| + 1 + i] == b[i] && Less(cmp, s, |a|, |a| + 1 + i);
      Transitive(cmp, k, x.key, b[i].key);
    }
    forall i | cmp(k, x.key) >= 0 && 0 <= i < |a| ensures cmp(k, a[i].key) > 0 {
      assert s[i] == a[i] && Less(cmp, s, i, |a|);
      assert Flips(cmp, a[i].key, k) && Flips(cmp, x.key, k) && Flips(cmp, k, x.key);
      Transitive(cmp, a[i].key, x.key, k);
    }
  }

  /** The rank of a key that occurs is where it occurs. */
  lemma RankInside(cmp: Comparison, a: seq<Node>, x: Node, b: seq<Node>, k: Key)
    requires TotalOrder(cmp) && Ascending(cmp, a + [x] + b) && cmp(k, x.key) == 0
    ensures Rank(cmp, a + [x] + b, k) == |a| && Lookup(cmp, a + [x] + b, k) == x
  {
    var s := a + [x] + b;
    Beyond(cmp, a, x, b, k);
    assert s[..|a|] == a;
    RankIs(cmp, s, k, |a|);
  }

  /** An ascending sequence stays ascending when a missing key is put at its rank. */
  lemma AscendingInsert(cmp: Comparison, s: seq<Node>, x: Node)
    requires TotalOrder(cmp) && Ascending(cmp, s) && Lookup(cmp, s, x.key) == null
    ensures var i := Rank(cmp, s, x.key); Ascending(cmp, s[..i] + [x] + s[i..])
  {
    RankSeparates(cmp, s, x.key);
    var i := Rank(cmp, s, x.key);
    forall j | 0 <= j < i ensures cmp(s[j].key, x.key) < 0 {
      assert s[..i][j] == s[j] && Flips(cmp, s[j].key, x.key);
    }
    forall j | i <= j < |s| ensures cmp(x.key, s[j].key) < 0 {
      assert j > i ==> s[i + 1..][j - i - 1] == s[j];
    }
    AscendingPut(cmp, s, i, x);
  }

  lemma AscendingPut(cmp: Comparison, s: seq<Node>, i: nat, x: Node)
    requires Ascending(cmp, s) && i <= |s|
    requires forall j :: 0 <= j < i ==> cmp(s[j].key, x.key) < 0
    requires forall j :: i <= j < |s| ==> cmp(x.key, s[j].key) < 0
    ensures Ascending(cmp, s[..i] + [x] + s[i..])
  {
    var r := s[..i] + [x] + s[i..];
    forall a, b | 0 <= a < b < |r| ensures Less(cmp, r, a, b) {
      if a != i && b != i {
        assert Less(cmp, s, if a < i then a else a - 1, if b < i then b else b - 1);
      }
    }
  }

  /** Leaving one node out of an ascending sequence. */
  lemma LeaveOut(cmp: Comparison, a: seq<Node>, x: Node, b: seq<Node>)
    requires TotalOrder(cmp) && Ascending(cmp, a + [x] + b)
    ensures Ascending(cmp, a) && Ascending(cmp, b) && Ascending(cmp, a + b)
    ensures x !in a + b && Rank(cmp, a + [x] + b, x.key) == |a|
  {
    var s := a + [x] + b;
    assert Flips(cmp, x.key, x.key);
    RankInside(cmp, a, x, b, x.key);
    Beyond(cmp, a, x, b, x.key);
    forall i, j | 0 <= i < j < |a| ensures Less(cmp, a, i, j) {
      assert Less(cmp, s, i, j);
    }
    forall i, j | 0 <= i < j < |b| ensures Less(cmp, b, i, j) {
      assert Less(cmp, s, |a| + 1 + i, |a| + 1 + j);
    }
    forall i, j | 0 <= i < j < |a + b| ensures Less(cmp, a + b, i, j) {
      assert Less(cmp, s, if i < |a| then i else i + 1, if j < |a| then j else j + 1);
    }
  }

  /** The neighbours of a node of `s`, given by its key. */
  function Successor(cmp: Comparison, s: seq<Node>, k: Key): Node? {
    var i := Rank(cmp, s, k);
    if i + 1 < |s| then s[i + 1] else null
  }

  function Predecessor(cmp: Comparison, s: seq<Node>, k: Key): Node? {
    var i := Rank(cmp, s, k);
    if 0 < i then s[i - 1] else null
  }

  /** In an ascending sequence every node is found at its own index. */
  lemma RankAt(cmp: Comparison, s: seq<Node>, i: nat)
    requires TotalOrder(cmp) && Ascending(cmp, s) && i < |s|
    ensures Rank(cmp, s, s[i].key) == i && Lookup(cmp, s, s[i].key) == s[i]
  {
    assert Flips(cmp, s[i].key, s[i].key) && s == s[..i] + [s[i]] + s[i + 1..];
    RankInside(cmp, s[..i], s[i], s[i + 1..], s[i].key);
  }

  /** What the searches promise, without ranks: Lookup finds a node with an equal key
      exactly if there is one, LowerBound the least node that is not below the key, and
      the two agree exactly when the key is there or nothing is above it either. */
  lemma SearchesMean(cmp: Comparison, s: seq<Node>, k: Key)
    requires TotalOrder(cmp) && Ascending(cmp, s)
    ensures var x := Lookup(cmp, s, k);
            if x == null then forall y :: y in s ==> cmp(k, y.key) != 0
            else x in s && cmp(k, x.key) == 0 && forall y :: y in s && cmp(k, y.key) == 0 ==> y == x
    ensures var x := LowerBound(cmp, s, k);
            if x == null then forall y :: y in s ==> cmp(k, y.key) > 0
            else x in s && cmp(k, x.key) <= 0 &&
                 forall y :: y in s && cmp(k, y.key) <= 0 ==> y == x || cmp(x.key, y.key) < 0
    ensures LowerBound(cmp, s, k) == Lookup(cmp, s, k) <==>
            Lookup(cmp, s, k) != null || AllBelow(cmp, s, k)
  {
    var i := Rank(cmp, s, k);
    RankSeparates(cmp, s, k);
    forall y | y in s
      ensures exists j :: 0 <= j < |s| && s[j] == y &&
                (if j < i then cmp(k, y.key) > 0
                 else cmp(k, s[i].key) <= 0 && (j == i || (cmp(k, y.key) < 0 && Less(cmp, s, i, j))))
    {
      var j :| 0 <= j < |s| && s[j] == y;
      assert if j < i then s[..i][j] == y else j == i || s[i + 1..][j - i - 1] == y;
    }
    if i < |s| { assert s[i] in s; }
  }

  /** Successor and predecessor undo each other. */
  lemma SuccessorPredecessor(cmp: Comparison, s: seq<Node>, x: Node)
    requires TotalOrder(cmp) && Ascending(cmp, s) && x in s
    ensures var y := Successor(cmp, s, x.key); y != null ==> y in s && Predecessor(cmp, s, y.key) == x
    ensures var y := Predecessor(cmp, s, x.key); y != null ==> y in s && Successor(cmp, s, y.key) == x
  {
    var i :| 0 <= i < |s| && s[i] == x;
    RankAt(cmp, s, i);
    if i + 1 < |s| { RankAt(cmp, s, i + 1); }
    if 0 < i { RankAt(cmp, s, i - 1); }
  }

  // ----- loops that visit all nodes

  /** The node at an index, or NULL past either end, where the loops stop. */
  function NodeAt(s: seq<Node>, i: int): Node? {
    if 0 <= i < |s| then s[i] else null
  }

  /** The first `k` nodes of `s` have been visited; the loop stands at the next one. */
  ghost predicate Reached(s: seq<Node>, k: nat, visited: seq<Node>, x: Node?) {
    k <= |s| && visited == s[..k] && x == NodeAt(s, k)
  }

  lemma ReachedAll(s: seq<Node>, k: nat, visited: seq<Node>)
    requires Reached(s, k, visited, null)
    ensures visited == s && k == |s|
  {}

  /** The current node is appended to the visited ones. */
  method Visit(v: seq<Node>, x: Node, ghost s: seq<Node>, ghost k: nat) returns (r: seq<Node>)
    requires Reached(s, k, v, x)
    ensures k < |s| && x == s[k] && r == s[..k + 1]
  {
    r := v + [x];
  }
}
