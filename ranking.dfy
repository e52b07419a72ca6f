/// The ordering step shared by the leaderboard and the date-ordered
/// listings: Array.prototype.sort with a comparator. That sort is stable,
/// so for a consistent comparator its result is fixed: ordered by the
/// comparator, with elements the comparator calls equal kept in their
/// original order. Sort below is that result, built by insertion; SortInPlace
/// computes it on an array in place.
module Ranking {
  import Seqs

  /// `before(x, y)` says the comparator lets x stay ahead of y, that is
  /// `cmp(x, y) <= 0`. A consistent comparator makes it a total preorder.
  ghost predicate TotalPreorder<T(!new)>(before: (T, T) -> bool)
  {
    (forall x, y :: before(x, y) || before(y, x)) &&
    (forall x, y, z :: before(x, y) && before(y, z) ==> before(x, z))
  }

  predicate Sorted<T>(s: seq<T>, before: (T, T) -> bool)
  {
    forall i, j :: 0 <= i < j < |s| ==> before(s[i], s[j])
  }

  /// Tied(s, before, k): the elements of s the comparator cannot tell
  /// apart from k, in their order in s.
  function TiedWith<T>(before: (T, T) -> bool, k: T): T -> bool
  {
    x => before(x, k) && before(k, x)
  }

  function Tied<T>(s: seq<T>, before: (T, T) -> bool, k: T): seq<T>
  {
    Seqs.Filter(s, TiedWith(before, k))
  }

  /// Places x, which followed every element of s in the input, behind the
  /// last element that may stay ahead of it.
  function Insert<T>(s: seq<T>, x: T, before: (T, T) -> bool): (r: seq<T>)
    ensures multiset(r) == multiset(s) + multiset{x}
    ensures |r| == |s| + 1
  {
    if s == [] || before(s[|s| - 1], x) then s + [x]
    else
      var front := s[..|s| - 1];
      assert s == front + [s[|s| - 1]];
      Insert(front, x, before) + [s[|s| - 1]]
  }

  /// The stable sort of s under the comparator.
  function Sort<T>(s: seq<T>, before: (T, T) -> bool): (r: seq<T>)
    ensures multiset(r) == multiset(s)
    ensures |r| == |s|
  {
    if s == [] then []
    else
      var front := s[..|s| - 1];
      assert s == front + [s[|s| - 1]];
      Insert(Sort(front, before), s[|s| - 1], before)
  }

  lemma {:induction false} InsertSorted<T(!new)>(s: seq<T>, x: T, before: (T, T) -> bool)
    requires TotalPreorder(before) && Sorted(s, before)
    ensures Sorted(Insert(s, x, before), before)
  {
    if s == [] || before(s[|s| - 1], x) {
    } else {
      var front, last := s[..|s| - 1], s[|s| - 1];
      InsertSorted(front, x, before);
      var r := Insert(front, x, before);
      assert before(x, last);
      forall y | y in r ensures before(y, last) {
        assert y in multiset(r);
        if y != x {
          assert y in multiset(front);
          var i :| 0 <= i < |front| && front[i] == y;
          assert s[i] == y;
        }
      }
      forall i, j | 0 <= i < j < |r + [last]| ensures before((r + [last])[i], (r + [last])[j]) {
        if j == |r| {
          assert r[i] in r;
        }
      }
    }
  }

  /// The stable sort is ordered by the comparator.
  lemma {:induction false} SortSorted<T(!new)>(s: seq<T>, before: (T, T) -> bool)
    requires TotalPreorder(before)
    ensures Sorted(Sort(s, before), before)
  {
    if s != [] {
      SortSorted(s[..|s| - 1], before);
      InsertSorted(Sort(s[..|s| - 1], before), s[|s| - 1], before);
    }
  }

  /// An element that may not stay ahead of x is never tied with x.
  lemma NotBothTied<T(!new)>(before: (T, T) -> bool, y: T, x: T, k: T)
    requires TotalPreorder(before) && !before(y, x)
    ensures !(TiedWith(before, k)(y) && TiedWith(before, k)(x))
  {
  }

  /// Two pieces of which one is empty may be appended in either order.
  lemma SwapEmpty<T>(a: seq<T>, b: seq<T>, c: seq<T>)
    requires b == [] || c == []
    ensures a + b + c == a + c + b
  {
  }

  /// Insertion moves x only past elements that cannot be tied with it, so
  /// within any tie class x lands last, where it was in the input.
  lemma {:induction false} InsertTied<T(!new)>(s: seq<T>, x: T, before: (T, T) -> bool, k: T)
    requires TotalPreorder(before)
    ensures Tied(Insert(s, x, before), before, k) == Tied(s, before, k) + Tied([x], before, k)
  {
    var p := TiedWith(before, k);
    if s == [] || before(s[|s| - 1], x) {
      Seqs.FilterConcat(s, [x], p);
    } else {
      var front, last := s[..|s| - 1], s[|s| - 1];
      assert s == front + [last];
      NotBothTied(before, last, x, k);
      InsertTied(front, x, before, k);
      var fx, fl := Seqs.Filter([x], p), Seqs.Filter([last], p);
      Seqs.FilterSingle(x, p);
      Seqs.FilterSingle(last, p);
      assert Insert(s, x, before) == Insert(front, x, before) + [last];
      calc {
        Tied(Insert(s, x, before), before, k);
        { Seqs.FilterConcat(Insert(front, x, before), [last], p); }
        Seqs.Filter(Insert(front, x, before), p) + fl;
        Seqs.Filter(front, p) + fx + fl;
        { SwapEmpty(Seqs.Filter(front, p), fx, fl); }
        Seqs.Filter(front, p) + fl + fx;
        { Seqs.FilterConcat(front, [last], p); }
        Seqs.Filter(s, p) + fx;
      }
    }
  }

  /// The sort is stable: every tie class keeps its input order.
  lemma {:induction false} SortStable<T(!new)>(s: seq<T>, before: (T, T) -> bool, k: T)
    requires TotalPreorder(before)
    ensures Tied(Sort(s, before), before, k) == Tied(s, before, k)
  {
    if s != [] {
      var front, last := s[..|s| - 1], s[|s| - 1];
      assert s == front + [last];
      calc {
        Tied(Sort(s, before), before, k);
        Tied(Insert(Sort(front, before), last, before), before, k);
        { InsertTied(Sort(front, before), last, before, k); }
        Tied(Sort(front, before), before, k) + Tied([last], before, k);
        { SortStable(front, before, k); }
        Tied(front, before, k) + Tied([last], before, k);
        { Seqs.FilterConcat(front, [last], TiedWith(before, k)); }
        Tied(s, before, k);
      }
    }
  }

  /// Sorting a prefix one element longer inserts that element.
  lemma SortPrefix<T>(s: seq<T>, i: nat, before: (T, T) -> bool)
    requires i < |s|
    ensures Sort(s[..i + 1], before) == Insert(Sort(s[..i], before), s[i], before)
  {
    assert s[..i + 1][..i] == s[..i];
  }

  /// Where the inner loop of SortInPlace stops, x goes: behind the last
  /// element that may stay ahead of it, past all those that may not.
  lemma {:induction false} InsertAt<T>(s: seq<T>, x: T, before: (T, T) -> bool, j: nat)
    requires j <= |s| && (j == 0 || before(s[j - 1], x))
    requires forall k :: j <= k < |s| ==> !before(s[k], x)
    ensures Insert(s, x, before) == s[..j] + [x] + s[j..]
  {
    if j == |s| {
      assert s[..j] == s && s[j..] == [];
    } else {
      var front, last := s[..|s| - 1], s[|s| - 1];
      assert !before(last, x);
      assert Insert(s, x, before) == Insert(front, x, before) + [last];
      assert front[..j] == s[..j];
      assert forall k :: j <= k < |front| ==> front[k] == s[k];
      InsertAt(front, x, before, j);
      DropFromInit(s, j);
      AppendAssociative(s[..j] + [x], front[j..], [last]);
    }
  }

  /// The tail from j of a non-empty sequence is the tail from j of all but
  /// its last element, then that element.
  lemma DropFromInit<T>(s: seq<T>, j: nat)
    requires j < |s|
    ensures s[j..] == s[..|s| - 1][j..] + [s[|s| - 1]]
  {
  }

  lemma AppendAssociative<T>(a: seq<T>, b: seq<T>, c: seq<T>)
    ensures a + b + c == a + (b + c)
  {
  }

  /// The array prefix the inner loop of SortInPlace leaves behind: the
  /// shifted elements on both sides of the gap, and x in it.
  lemma Placed<T>(s: seq<T>, done: seq<T>, x: T, j: nat)
    requires |s| == |done| + 1 && j <= |done|
    requires forall k :: 0 <= k < j ==> s[k] == done[k]
    requires s[j] == x
    requires forall k :: j < k < |s| ==> s[k] == done[k - 1]
    ensures s == done[..j] + [x] + done[j..]
  {
    var placed := done[..j] + [x] + done[j..];
    forall k | 0 <= k < |s| ensures s[k] == placed[k] {
      if k < j {
        assert placed[k] == done[k];
      } else if j < k {
        assert placed[k] == done[k - 1];
      }
    }
  }

  /// Moves a[i] left past the elements of the sorted prefix a[..i] that
  /// may not stay ahead of it.
  method InsertInPlace<T>(a: array<T>, i: nat, before: (T, T) -> bool)
    requires i < a.Length
    modifies a
    ensures a[..i + 1] == Insert(old(a[..i]), old(a[i]), before)
    ensures forall k :: i < k < a.Length ==> a[k] == old(a[k])
  {
    var x := a[i];
    ghost var done := a[..i];
    var j := ShiftPast(a, i, x, before);
    a[j] := x;
    InsertAt(done, x, before, j);
    Placed(a[..i + 1], done, x, j);
  }

  /// The inner loop of SortInPlace: shifts the elements at the end of
  /// a[..i] that may not stay ahead of x one place right, and returns the
  /// gap they leave.
  method ShiftPast<T>(a: array<T>, i: nat, x: T, before: (T, T) -> bool) returns (j: nat)
    requires i < a.Length
    modifies a
    ensures j <= i && (j == 0 || before(a[j - 1], x))
    ensures forall k :: 0 <= k < j ==> a[k] == old(a[k])
    ensures forall k :: j < k <= i ==> a[k] == old(a[k - 1])
    ensures forall k :: i < k < a.Length ==> a[k] == old(a[k])
    ensures forall k :: j <= k < i ==> !before(old(a[k]), x)
  {
    j := i;
    while j > 0 && !before(a[j - 1], x)
      invariant 0 <= j <= i
      invariant forall k :: 0 <= k < j ==> a[k] == old(a[k])
      invariant forall k :: j < k <= i ==> a[k] == old(a[k - 1])
      invariant forall k :: i < k < a.Length ==> a[k] == old(a[k])
      invariant forall k :: j <= k < i ==> !before(old(a[k]), x)
    {
      a[j] := a[j - 1];
      j := j - 1;
    }
  }

  /// Sorting in place: insertion sort, each element in turn moved left into
  /// the sorted prefix.
  method SortInPlace<T>(a: array<T>, before: (T, T) -> bool)
    modifies a
    ensures a[..] == Sort(old(a[..]), before)
  {
    ghost var input := a[..];
    var i := 0;
    while i < a.Length
      invariant 0 <= i <= a.Length
      invariant a[..i] == Sort(input[..i], before)
      invariant forall k :: i <= k < a.Length ==> a[k] == input[k]
    {
      InsertInPlace(a, i, before);
      SortPrefix(input, i, before);
      i := i + 1;
    }
    assert a[..] == a[..a.Length];
    assert input == input[..a.Length];
  }

  /// Insertion adds exactly the inserted element to any sum.
  lemma {:induction false} SumInsert<T>(s: seq<T>, x: T, before: (T, T) -> bool, f: T -> int)
    ensures Seqs.Sum(Insert(s, x, before), f) == Seqs.Sum(s, f) + f(x)
  {
    if s == [] || before(s[|s| - 1], x) {
      assert (s + [x])[..|s|] == s;
    } else {
      var front, last := s[..|s| - 1], s[|s| - 1];
      var r := Insert(front, x, before);
      SumInsert(front, x, before, f);
      assert (r + [last])[..|r|] == r;
    }
  }

  /// Sorting does not change a sum: the order of the terms does not matter.
  lemma {:induction false} SumSort<T>(s: seq<T>, before: (T, T) -> bool, f: T -> int)
    ensures Seqs.Sum(Sort(s, before), f) == Seqs.Sum(s, f)
  {
    if s != [] {
      var front := s[..|s| - 1];
      SumSort(front, before, f);
      SumInsert(Sort(front, before), s[|s| - 1], before, f);
    }
  }
}
