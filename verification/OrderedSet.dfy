/** The ordered set of keys that both trees implement: a sorted sequence. */
module OrderedSet {
  import opened Order

  /** An operation with a key: insert it, look it up, or look it up and remove what was
      found. The answer is the stored key that was met, if any. */
  datatype Op = Insert(key: Key) | Find(key: Key) | Remove(key: Key)

  datatype Answer = Absent | Present(key: Key)

  datatype State = State(keys: seq<Key>, answer: Answer)

  function Place(cmp: Comparison, ks: seq<Key>, k: Key): (i: nat)
    ensures i <= |ks|
  {
    if ks == [] || cmp(k, ks[0]) <= 0 then 0 else 1 + Place(cmp, ks[1..], k)
  }

  /** One operation on a sorted sequence. */
  function Apply(cmp: Comparison, ks: seq<Key>, op: Op): State {
    var i := Place(cmp, ks, op.key);
    if i < |ks| && cmp(op.key, ks[i]) == 0 then
      State(if op.Remove? then ks[..i] + ks[i + 1..] else ks, Present(ks[i]))
    else
      State(if op.Insert? then ks[..i] + [op.key] + ks[i..] else ks, Absent)
  }

  /** The contents and all answers after a sequence of operations on the empty set. */
  function Contents(cmp: Comparison, ops: seq<Op>): seq<Key> {
    if ops == [] then [] else Apply(cmp, Contents(cmp, ops[..|ops| - 1]), ops[|ops| - 1]).keys
  }

  function Answers(cmp: Comparison, ops: seq<Op>): seq<Answer> {
    if ops == [] then []
    else Answers(cmp, ops[..|ops| - 1]) + [Apply(cmp, Contents(cmp, ops[..|ops| - 1]), ops[|ops| - 1]).answer]
  }

  // ----- the sorted sequence is a set

  /** Membership as the history alone tells it: the last insertion or removal of a key
      equal to `q` was an insertion. */
  predicate InSet(cmp: Comparison, ops: seq<Op>, q: Key) {
    ops != [] &&
    var op := ops[|ops| - 1];
    if cmp(q, op.key) == 0 && !op.Find? then op.Insert? else InSet(cmp, ops[..|ops| - 1], q)
  }

  ghost predicate Below(cmp: Comparison, ks: seq<Key>, i: nat, j: nat)
    requires i < |ks| && j < |ks|
  {
    cmp(ks[i], ks[j]) < 0
  }

  ghost predicate Sorted(cmp: Comparison, ks: seq<Key>) {
    forall i, j :: 0 <= i < j < |ks| ==> Below(cmp, ks, i, j)
  }

  ghost predicate Has(cmp: Comparison, ks: seq<Key>, q: Key) {
    exists j :: 0 <= j < |ks| && cmp(q, ks[j]) == 0
  }

  lemma {:induction false} PlaceSeparates(cmp: Comparison, ks: seq<Key>, k: Key)
    requires TotalOrder(cmp) && Sorted(cmp, ks)
    ensures var i := Place(cmp, ks, k);
            (forall j :: 0 <= j < i ==> cmp(k, ks[j]) > 0) && (i < |ks| ==> cmp(k, ks[i]) <= 0) &&
            (forall j :: i < j < |ks| ==> cmp(k, ks[j]) < 0)
  {
    if ks == [] {
    } else {
      if cmp(k, ks[0]) <= 0 {
        forall j | 0 < j < |ks| ensures cmp(k, ks[j]) < 0 {
          assert Below(cmp, ks, 0, j);
          Transitive(cmp, k, ks[0], ks[j]);
        }
      } else {
        forall i, j | 0 <= i < j < |ks[1..]| ensures Below(cmp, ks[1..], i, j) {
          assert Below(cmp, ks, i + 1, j + 1);
        }
        PlaceSeparates(cmp, ks[1..], k);
        assert forall j :: 0 < j < |ks| ==> ks[j] == ks[1..][j - 1];
      }
    }
  }

  lemma SortedPut(cmp: Comparison, ks: seq<Key>, i: nat, k: Key)
    requires TotalOrder(cmp) && Sorted(cmp, ks) && i <= |ks|
    requires (forall j :: 0 <= j < i ==> cmp(k, ks[j]) > 0) && (forall j :: i <= j < |ks| ==> cmp(k, ks[j]) < 0)
    ensures Sorted(cmp, ks[..i] + [k] + ks[i..])
  {
    var r := ks[..i] + [k] + ks[i..];
    forall a, b | 0 <= a < b < |r| ensures Below(cmp, r, a, b) {
      if a == i {
        assert r[b] == ks[b - 1];
      } else if b == i {
        assert r[a] == ks[a] && Flips(cmp, ks[a], k);
      } else {
        assert Below(cmp, ks, if a < i then a else a - 1, if b < i then b else b - 1);
      }
    }
  }

  lemma SortedDrop(cmp: Comparison, ks: seq<Key>, i: nat)
    requires Sorted(cmp, ks) && i < |ks|
    ensures Sorted(cmp, ks[..i] + ks[i + 1..])
  {
    var r := ks[..i] + ks[i + 1..];
    forall a, b | 0 <= a < b < |r| ensures Below(cmp, r, a, b) {
      assert Below(cmp, ks, if a < i then a else a + 1, if b < i then b else b + 1);
    }
  }

  lemma ApplySorted(cmp: Comparison, ks: seq<Key>, op: Op)
    requires TotalOrder(cmp) && Sorted(cmp, ks)
    ensures Sorted(cmp, Apply(cmp, ks, op).keys)
  {
    var i := Place(cmp, ks, op.key);
    PlaceSeparates(cmp, ks, op.key);
    if i < |ks| && cmp(op.key, ks[i]) == 0 {
      SortedDrop(cmp, ks, i);
    } else {
      SortedPut(cmp, ks, i, op.key);
    }
  }

  /** Keys equal under `cmp` compare alike. */
  lemma SameKey(cmp: Comparison, a: Key, b: Key, c: Key)
    requires TotalOrder(cmp) && cmp(a, b) == 0
    ensures cmp(a, c) == 0 <==> cmp(b, c) == 0
  {
    assert Flips(cmp, a, b) && Flips(cmp, b, a) && Flips(cmp, a, c) && Flips(cmp, c, a) && Flips(cmp, b, c) &&
           Flips(cmp, c, b);
    assert Chains(cmp, a, b, c) && Chains(cmp, b, a, c) && Chains(cmp, c, a, b) && Chains(cmp, c, b, a);
  }

  lemma HasPut(cmp: Comparison, ks: seq<Key>, i: nat, k: Key, q: Key)
    requires i <= |ks|
    ensures Has(cmp, ks[..i] + [k] + ks[i..], q) <==> cmp(q, k) == 0 || Has(cmp, ks, q)
  {
    var r := ks[..i] + [k] + ks[i..];
    assert r[i] == k && forall j :: 0 <= j < |ks| ==> ks[j] == r[if j < i then j else j + 1];
  }

  lemma HasDrop(cmp: Comparison, ks: seq<Key>, i: nat, k: Key, q: Key)
    requires TotalOrder(cmp) && i < |ks| && cmp(k, ks[i]) == 0
    requires forall j :: 0 <= j < |ks| && j != i ==> cmp(k, ks[j]) != 0
    ensures Has(cmp, ks[..i] + ks[i + 1..], q) <==> cmp(q, k) != 0 && Has(cmp, ks, q)
  {
    if Has(cmp, ks[..i] + ks[i + 1..], q) {
      DropKept(cmp, ks, i, k, q);
    }
    if cmp(q, k) != 0 && Has(cmp, ks, q) {
      KeptDrop(cmp, ks, i, k, q);
    }
  }

  lemma DropKept(cmp: Comparison, ks: seq<Key>, i: nat, k: Key, q: Key)
    requires TotalOrder(cmp) && i < |ks| && Has(cmp, ks[..i] + ks[i + 1..], q)
    requires forall j :: 0 <= j < |ks| && j != i ==> cmp(k, ks[j]) != 0
    ensures cmp(q, k) != 0 && Has(cmp, ks, q)
  {
    var r := ks[..i] + ks[i + 1..];
    var j :| 0 <= j < |r| && cmp(q, r[j]) == 0;
    var m := if j < i then j else j + 1;
    assert r[j] == ks[m];
    if cmp(q, k) == 0 { SameKey(cmp, q, k, ks[m]); }
  }

  lemma KeptDrop(cmp: Comparison, ks: seq<Key>, i: nat, k: Key, q: Key)
    requires TotalOrder(cmp) && i < |ks| && cmp(k, ks[i]) == 0 && cmp(q, k) != 0 && Has(cmp, ks, q)
    ensures Has(cmp, ks[..i] + ks[i + 1..], q)
  {
    var r := ks[..i] + ks[i + 1..];
    var m :| 0 <= m < |ks| && cmp(q, ks[m]) == 0;
    assert Flips(cmp, q, k) && Flips(cmp, k, q) && Flips(cmp, q, ks[i]) && Flips(cmp, ks[i], q);
    SameKey(cmp, k, ks[i], q);
    assert r[if m < i then m else m - 1] == ks[m];
  }

  lemma HasPlace(cmp: Comparison, ks: seq<Key>, k: Key, q: Key)
    requires TotalOrder(cmp) && Sorted(cmp, ks) && cmp(q, k) == 0
    ensures var i := Place(cmp, ks, k); Has(cmp, ks, q) <==> i < |ks| && cmp(k, ks[i]) == 0
  {
    PlaceSeparates(cmp, ks, k);
    forall j | 0 <= j < |ks| ensures cmp(q, ks[j]) == 0 <==> cmp(k, ks[j]) == 0 { SameKey(cmp, q, k, ks[j]); }
  }

  lemma ApplyHas(cmp: Comparison, ks: seq<Key>, op: Op, q: Key)
    requires TotalOrder(cmp) && Sorted(cmp, ks)
    ensures Has(cmp, Apply(cmp, ks, op).keys, q) <==>
            if cmp(q, op.key) == 0 && !op.Find? then op.Insert? else Has(cmp, ks, q)
    ensures Apply(cmp, ks, op).answer.Present? <==> Has(cmp, ks, op.key)
    ensures var a := Apply(cmp, ks, op).answer; a.Present? ==> a.key in ks && cmp(op.key, a.key) == 0
  {
    var i := Place(cmp, ks, op.key);
    assert Flips(cmp, op.key, op.key);
    HasPlace(cmp, ks, op.key, op.key);
    if cmp(q, op.key) == 0 { HasPlace(cmp, ks, op.key, q); }
    if i < |ks| && cmp(op.key, ks[i]) == 0 {
      PlaceSeparates(cmp, ks, op.key);
      HasDrop(cmp, ks, i, op.key, q);
    } else {
      HasPut(cmp, ks, i, op.key, q);
    }
  }

  /** The contents stay sorted, and a key is in them exactly if the history says so. */
  lemma {:induction false} ContentsAreSet(cmp: Comparison, ops: seq<Op>, q: Key)
    requires TotalOrder(cmp)
    ensures Sorted(cmp, Contents(cmp, ops))
    ensures Has(cmp, Contents(cmp, ops), q) <==> InSet(cmp, ops, q)
  {
    if ops == [] {
    } else {
      var was, op := ops[..|ops| - 1], ops[|ops| - 1];
      ContentsAreSet(cmp, was, q);
      ApplySorted(cmp, Contents(cmp, was), op);
      ApplyHas(cmp, Contents(cmp, was), op, q);
    }
  }

  /** Every answer tells whether the key was in the set at that point of the history, and
      with which stored key. */
  lemma {:induction false} AnswersAreMembership(cmp: Comparison, ops: seq<Op>, i: nat)
    requires TotalOrder(cmp) && i < |ops|
    ensures |Answers(cmp, ops)| == |ops|
    ensures Answers(cmp, ops)[i].Present? <==> InSet(cmp, ops[..i], ops[i].key)
    ensures var a := Answers(cmp, ops)[i];
            a.Present? ==> a.key in Contents(cmp, ops[..i]) && cmp(ops[i].key, a.key) == 0
  {
    var was, op := ops[..|ops| - 1], ops[|ops| - 1];
    if i < |was| {
      AnswersAreMembership(cmp, was, i);
      assert was[..i] == ops[..i];
    } else {
      AnswersLength(cmp, was);
      ContentsAreSet(cmp, was, op.key);
      ApplyHas(cmp, Contents(cmp, was), op, op.key);
    }
  }

  lemma {:induction false} AnswersLength(cmp: Comparison, ops: seq<Op>)
    ensures |Answers(cmp, ops)| == |ops|
  {
    if ops == [] {
    } else {
      AnswersLength(cmp, ops[..|ops| - 1]);
    }
  }
}
