/** The red-black tree and the splay tree give the answers of the sorted sequence. */
module Refinement {
  import opened Order
  import opened OrderedSet
  import Rb = RbHeap
  import RbSearch
  import RbInsert
  import RbRemove
  import Splay = SplayHeap
  import SplaySet
  import RbShape
  import SplayShape

  function Keys(s: seq<Node>): seq<Key> {
    seq(|s|, i requires 0 <= i < |s| => s[i].key)
  }

  lemma {:induction false} PlaceIsRank(cmp: Comparison, s: seq<Node>, k: Key)
    ensures Place(cmp, Keys(s), k) == Rank(cmp, s, k)
  {
    if s == [] {
    } else {
      assert Keys(s)[1..] == Keys(s[1..]);
      PlaceIsRank(cmp, s[1..], k);
    }
  }

  /** What an operation does to a sequence of nodes, as its tree's contract says. */
  ghost predicate Did(cmp: Comparison, op: Op, elm: Node, s: seq<Node>, t: seq<Node>, r: Node?) {
    var i := Rank(cmp, s, op.key);
    elm.key == op.key && r == Lookup(cmp, s, op.key) &&
    t == if r == null && op.Insert? then s[..i] + [elm] + s[i..]
         else if r != null && op.Remove? then s[..i] + s[i + 1..]
         else s
  }

  /** That is what the sorted sequence does. */
  lemma DidApply(cmp: Comparison, op: Op, elm: Node, s: seq<Node>, t: seq<Node>, r: Node?)
    requires Did(cmp, op, elm, s, t, r)
    ensures Apply(cmp, Keys(s), op) == State(Keys(t), AnswerOf(r))
  {
    PlaceIsRank(cmp, s, op.key);
    var i := Rank(cmp, s, op.key);
    assert Keys(s[..i] + [elm] + s[i..]) == Keys(s)[..i] + [elm.key] + Keys(s)[i..];
    if i < |s| {
      assert Keys(s[..i] + s[i + 1..]) == Keys(s)[..i] + Keys(s)[i + 1..];
    }
  }

  function AnswerOf(r: Node?): Answer {
    if r == null then Absent else Present(r.key)
  }

  /** The node found for a key has the rank of that key. */
  lemma FoundRank(cmp: Comparison, s: seq<Node>, k: Key)
    requires TotalOrder(cmp) && Ascending(cmp, s) && Lookup(cmp, s, k) != null
    ensures var r := Lookup(cmp, s, k); r in s && Rank(cmp, s, r.key) == Rank(cmp, s, k) && Lookup(cmp, s, r.key) == r
  {
    RankAt(cmp, s, Rank(cmp, s, k));
  }

  method RbStep(head: Rb.Head, op: Op) returns (a: Answer)
    requires head.Valid()
    modifies head, head.nodes
    ensures head.Valid() && fresh(head.nodes - old(head.nodes))
    ensures State(Keys(head.Contents()), a) == Apply(head.cmp, Keys(old(head.Contents())), op)
  {
    ghost var s := head.Contents();
    var elm := new Node(op.key);
    var r;
    ghost var m, n;
    if op.Insert? {
      r, m, n := RbInsert.Insert(head, elm);
    } else {
      r, m := RbSearch.Find(head, elm);
      if op.Remove? && r != null {
        FoundRank(head.cmp, s, op.key);
        RbShape.InOrderNodes(head.shape);
        var gone;
        gone, m, n := RbRemove.Remove(head, r);
      }
    }
    DidApply(head.cmp, op, elm, s, head.Contents(), r);
    a := AnswerOf(r);
  }

  method SplayStep(head: Splay.SplayHead, op: Op) returns (a: Answer)
    requires head.Valid()
    modifies head, head.nodes
    ensures head.Valid() && fresh(head.nodes - old(head.nodes))
    ensures State(Keys(head.Contents()), a) == Apply(head.cmp, Keys(old(head.Contents())), op)
  {
    ghost var s := head.Contents();
    var elm := new Node(op.key);
    var r;
    if op.Insert? {
      r := SplaySet.Insert(head, elm);
    } else {
      r := SplaySet.Find(head, elm);
      if op.Remove? && r != null {
        FoundRank(head.cmp, s, op.key);
        var gone := SplaySet.Remove(head, r);
      }
    }
    DidApply(head.cmp, op, elm, s, head.Contents(), r);
    a := AnswerOf(r);
  }

  lemma OneMore(cmp: Comparison, ops: seq<Op>, i: nat)
    requires i < |ops|
    ensures var next := Apply(cmp, Contents(cmp, ops[..i]), ops[i]);
            Contents(cmp, ops[..i + 1]) == next.keys &&
            Answers(cmp, ops[..i + 1]) == Answers(cmp, ops[..i]) + [next.answer]
  {
    assert ops[..i + 1][..i] == ops[..i];
  }

  /** Any sequence of operations on an empty red-black tree. */
  method RunRb(cmp: Comparison, ops: seq<Op>) returns (answers: seq<Answer>)
    requires TotalOrder(cmp)
    ensures answers == Answers(cmp, ops)
  {
    var head := new Rb.Head(cmp);
    answers := [];
    var i := 0;
    while i < |ops|
      invariant 0 <= i <= |ops|
      invariant head.Valid() && head.cmp == cmp && fresh(head) && fresh(head.nodes)
      invariant answers == Answers(cmp, ops[..i]) && Keys(head.Contents()) == Contents(cmp, ops[..i])
    {
      var a := RbStep(head, ops[i]);
      OneMore(cmp, ops, i);
      answers := answers + [a];
      i := i + 1;
    }
    assert ops[..|ops|] == ops;
  }

  /** The same on an empty splay tree: the same answers. */
  method RunSplay(cmp: Comparison, ops: seq<Op>) returns (answers: seq<Answer>)
    requires TotalOrder(cmp)
    ensures answers == Answers(cmp, ops)
  {
    var head := new Splay.SplayHead(cmp);
    answers := [];
    var i := 0;
    while i < |ops|
      invariant 0 <= i <= |ops|
      invariant head.Valid() && head.cmp == cmp && fresh(head) && fresh(head.nodes)
      invariant answers == Answers(cmp, ops[..i]) && Keys(head.Contents()) == Contents(cmp, ops[..i])
    {
      var a := SplayStep(head, ops[i]);
      OneMore(cmp, ops, i);
      answers := answers + [a];
      i := i + 1;
    }
    assert ops[..|ops|] == ops;
  }
}
