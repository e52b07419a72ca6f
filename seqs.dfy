/// Sequence operations with the meaning of the Array.prototype methods the
/// route handlers are built from: find / findIndex (first match), filter,
/// reduce with `+` from 0, and splice(i, 1).
module Seqs {

  datatype Option<T> = None | Some(value: T)

  /// The first position whose element satisfies p (findIndex; find returns
  /// the element at that position).
  function FirstIndex<T>(s: seq<T>, p: T -> bool): (r: Option<nat>)
    ensures r.Some? ==> r.value < |s| && p(s[r.value])
    ensures r.Some? ==> forall j :: 0 <= j < r.value ==> !p(s[j])
    ensures r.None? <==> forall j :: 0 <= j < |s| ==> !p(s[j])
  {
    if s == [] then None
    else if p(s[0]) then Some(0)
    else match FirstIndex(s[1..], p)
      case None => None
      case Some(i) => Some(i + 1)
  }

  /// The elements that satisfy p, in their original order (filter).
  function Filter<T>(s: seq<T>, p: T -> bool): (r: seq<T>)
    ensures |r| <= |s|
    ensures forall x :: x in r ==> x in s && p(x)
  {
    if s == [] then []
    else
      var front := s[..|s| - 1];
      assert forall x :: x in front ==> x in s;
      Filter(front, p) + (if p(s[|s| - 1]) then [s[|s| - 1]] else [])
  }

  /// The left fold `reduce((acc, x) => acc + f(x), 0)`.
  function Sum<T>(s: seq<T>, f: T -> int): int
  {
    if s == [] then 0 else Sum(s[..|s| - 1], f) + f(s[|s| - 1])
  }

  /// splice(i, 1): the sequence without its element at position i.
  function RemoveAt<T>(s: seq<T>, i: nat): (r: seq<T>)
    requires i < |s|
    ensures |r| == |s| - 1
    ensures forall j :: 0 <= j < i ==> r[j] == s[j]
    ensures forall j :: i <= j < |r| ==> r[j] == s[j + 1]
  {
    s[..i] + s[i + 1..]
  }

  lemma {:induction false} FilterConcat<T>(a: seq<T>, b: seq<T>, p: T -> bool)
    ensures Filter(a + b, p) == Filter(a, p) + Filter(b, p)
  {
    if b != [] {
      var b' := b[..|b| - 1];
      assert (a + b)[..|a + b| - 1] == a + b';
      FilterConcat(a, b', p);
    } else {
      assert a + b == a;
    }
  }

  lemma {:induction false} SumConcat<T>(a: seq<T>, b: seq<T>, f: T -> int)
    ensures Sum(a + b, f) == Sum(a, f) + Sum(b, f)
  {
    if b != [] {
      var b' := b[..|b| - 1];
      assert (a + b)[..|a + b| - 1] == a + b';
      SumConcat(a, b', f);
    } else {
      assert a + b == a;
    }
  }

  /// Filtering one element keeps it exactly when it passes.
  lemma FilterSingle<T>(x: T, p: T -> bool)
    ensures Filter([x], p) == if p(x) then [x] else []
  {
    assert [x][..0] == [];
  }

  /// A one-element sequence contributes its element's share, or nothing.
  lemma SumFilterSingle<T>(x: T, p: T -> bool, f: T -> int)
    ensures Sum(Filter([x], p), f) == if p(x) then f(x) else 0
  {
    FilterSingle(x, p);
    if p(x) {
      assert Sum([x], f) == Sum([x][..0], f) + f(x);
      assert [x][..0] == [];
    }
  }

  /// Filtering and then summing splits around one element in the middle.
  lemma SumFilterAround<T>(pre: seq<T>, x: T, post: seq<T>, p: T -> bool, f: T -> int)
    ensures Sum(Filter(pre + [x] + post, p), f)
         == Sum(Filter(pre, p), f) + (if p(x) then f(x) else 0) + Sum(Filter(post, p), f)
  {
    FilterConcat(pre + [x], post, p);
    SumConcat(Filter(pre + [x], p), Filter(post, p), f);
    FilterConcat(pre, [x], p);
    SumConcat(Filter(pre, p), Filter([x], p), f);
    SumFilterSingle(x, p, f);
  }

  lemma SplitAt<T>(s: seq<T>, i: nat)
    requires i < |s|
    ensures s == s[..i] + [s[i]] + s[i + 1..]
  {
    assert s[i..] == [s[i]] + s[i + 1..];
    assert s == s[..i] + s[i..];
  }

  /// Filtering and then summing splits around any one position: the total
  /// is what lies before i, plus the element at i when it is kept, plus
  /// what lies after i.
  lemma SumFilterAt<T>(s: seq<T>, p: T -> bool, f: T -> int, i: nat)
    requires i < |s|
    ensures Sum(Filter(s, p), f)
         == Sum(Filter(s[..i], p), f) + (if p(s[i]) then f(s[i]) else 0) + Sum(Filter(s[i + 1..], p), f)
  {
    SplitAt(s, i);
    SumFilterAround(s[..i], s[i], s[i + 1..], p, f);
  }

  /// Replacing one element changes the filtered sum by exactly the change
  /// at that element.
  lemma SumFilterUpdate<T>(s: seq<T>, p: T -> bool, f: T -> int, i: nat, x: T)
    requires i < |s|
    ensures Sum(Filter(s[i := x], p), f)
         == Sum(Filter(s, p), f) - (if p(s[i]) then f(s[i]) else 0) + (if p(x) then f(x) else 0)
  {
    SumFilterAt(s, p, f, i);
    SumFilterAt(s[i := x], p, f, i);
    assert s[i := x][..i] == s[..i];
    assert s[i := x][i + 1..] == s[i + 1..];
  }

  /// Removing one element lowers the filtered sum by exactly that element's
  /// share.
  lemma SumFilterRemoveAt<T>(s: seq<T>, p: T -> bool, f: T -> int, i: nat)
    requires i < |s|
    ensures Sum(Filter(RemoveAt(s, i), p), f) == Sum(Filter(s, p), f) - (if p(s[i]) then f(s[i]) else 0)
  {
    SumFilterAt(s, p, f, i);
    FilterConcat(s[..i], s[i + 1..], p);
    SumConcat(Filter(s[..i], p), Filter(s[i + 1..], p), f);
  }

  /// Appending one element adds its share to the filtered sum.
  lemma SumFilterAppend<T>(s: seq<T>, p: T -> bool, f: T -> int, x: T)
    ensures Sum(Filter(s + [x], p), f) == Sum(Filter(s, p), f) + (if p(x) then f(x) else 0)
  {
    FilterConcat(s, [x], p);
    SumConcat(Filter(s, p), Filter([x], p), f);
    SumFilterSingle(x, p, f);
  }

  /// A second filter by a predicate that implies the first one sees the
  /// same elements as filtering once.
  lemma {:induction false} FilterNarrow<T>(s: seq<T>, p: T -> bool, q: T -> bool)
    requires forall x :: p(x) ==> q(x)
    ensures Filter(Filter(s, q), p) == Filter(s, p)
  {
    if s != [] {
      var front := s[..|s| - 1];
      FilterNarrow(front, p, q);
      var tail := if q(s[|s| - 1]) then [s[|s| - 1]] else [];
      FilterConcat(Filter(front, q), tail, p);
      if q(s[|s| - 1]) {
        assert tail[..0] == [];
      }
    }
  }

  /// Nothing survives two filters that exclude each other.
  lemma {:induction false} FilterExclusive<T>(s: seq<T>, p: T -> bool, q: T -> bool)
    requires forall x :: p(x) ==> !q(x)
    ensures Filter(Filter(s, q), p) == []
  {
    if s != [] {
      var front := s[..|s| - 1];
      FilterExclusive(front, p, q);
      var tail := if q(s[|s| - 1]) then [s[|s| - 1]] else [];
      FilterConcat(Filter(front, q), tail, p);
      if q(s[|s| - 1]) {
        assert tail[..0] == [];
      }
    }
  }

  /// Filtering keeps every element that satisfies p.
  lemma {:induction false} FilterKeepsAll<T>(s: seq<T>, p: T -> bool)
    ensures forall x :: x in Filter(s, p) <==> x in s && p(x)
  {
    if s != [] {
      var front := s[..|s| - 1];
      FilterKeepsAll(front, p);
      assert s == front + [s[|s| - 1]];
    }
  }
}
