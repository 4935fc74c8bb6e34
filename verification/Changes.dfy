/**
 Element-wise differences of two equally long sequences, the loop shape both drivers use to turn
 two input states into changes: walk the indices upwards, keep those that differ, with the new value.
 */
module Changes {
  datatype Change<+T> = Change(index: nat, value: T)

  /** The changes among the first n elements. */
  function Diff<T(==)>(before: seq<T>, after: seq<T>, n: nat): seq<Change<T>>
    requires n <= |before| == |after|
  {
    if n == 0 then []
    else if before[n - 1] != after[n - 1] then Diff(before, after, n - 1) + [Change(n - 1, after[n - 1])]
    else Diff(before, after, n - 1)
  }

  /** Applies changes in order. */
  function Patch<T>(s: seq<T>, changes: seq<Change<T>>): (r: seq<T>)
    requires forall c :: c in changes ==> c.index < |s|
    ensures |r| == |s|
  {
    if changes == [] then s
    else
      var last := changes[|changes| - 1];
      assert last in changes;
      Patch(s, changes[..|changes| - 1])[last.index := last.value]
  }

  lemma PatchSnoc<T>(s: seq<T>, changes: seq<Change<T>>, c: Change<T>)
    requires forall d :: d in changes + [c] ==> d.index < |s|
    ensures forall d :: d in changes ==> d.index < |s|
    ensures Patch(s, changes + [c]) == Patch(s, changes)[c.index := c.value]
  {
    assert forall d :: d in changes ==> d in changes + [c];
    assert (changes + [c])[..|changes|] == changes;
    assert c in changes + [c];
  }

  lemma {:induction false} DiffInRange<T>(before: seq<T>, after: seq<T>, n: nat)
    requires n <= |before| == |after|
    ensures forall c :: c in Diff(before, after, n) ==> c.index < n
  {
    if n > 0 { DiffInRange(before, after, n - 1); }
  }

  lemma {:induction false} DiffOfSame<T>(s: seq<T>, n: nat)
    requires n <= |s|
    ensures Diff(s, s, n) == []
  {
    if n > 0 { DiffOfSame(s, n - 1); }
  }

  lemma OneMore<T>(before: seq<T>, after: seq<T>, n: nat)
    requires 0 < n <= |before| == |after|
    ensures after[..n] + before[n..] == (after[..n - 1] + before[n - 1..])[n - 1 := after[n - 1]]
  {
  }

  /** Patching with the difference gives the new sequence. */
  lemma {:induction false} PatchDiff<T>(before: seq<T>, after: seq<T>, n: nat)
    requires n <= |before| == |after|
    ensures forall c :: c in Diff(before, after, n) ==> c.index < |before|
    ensures Patch(before, Diff(before, after, n)) == after[..n] + before[n..]
  {
    DiffInRange(before, after, n);
    if n > 0 {
      PatchDiff(before, after, n - 1);
      OneMore(before, after, n);
      if before[n - 1] != after[n - 1] {
        PatchSnoc(before, Diff(before, after, n - 1), Change(n - 1, after[n - 1]));
      }
    }
  }

  predicate Increasing<T>(changes: seq<Change<T>>) {
    forall i, j :: 0 <= i < j < |changes| ==> changes[i].index < changes[j].index
  }

  lemma {:induction false} DiffIncreases<T>(before: seq<T>, after: seq<T>, n: nat)
    requires n <= |before| == |after|
    ensures Increasing(Diff(before, after, n))
  {
    if n > 0 {
      DiffIncreases(before, after, n - 1);
      DiffInRange(before, after, n - 1);
      var e := Diff(before, after, n - 1);
      assert forall k :: 0 <= k < |e| ==> e[k] in e;
    }
  }

  /** A difference lists exactly the changed elements with their new values. */
  lemma {:induction false} DiffIsExact<T>(before: seq<T>, after: seq<T>, n: nat, c: Change<T>)
    requires n <= |before| == |after|
    ensures c in Diff(before, after, n) <==>
            c.index < n && before[c.index] != after[c.index] && c.value == after[c.index]
  {
    if n > 0 { DiffIsExact(before, after, n - 1, c); }
  }
}
