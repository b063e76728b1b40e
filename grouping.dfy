/**
 * Counting and distinct values over a column, in the sense of pandas'
 * `unique()` (distinct values in order of first appearance) and of
 * counting how often a value occurs.
 */
module Grouping {

  /** No value occurs twice. */
  predicate NoDuplicates<T(==)>(s: seq<T>) {
    forall i, j :: 0 <= i < j < |s| ==> s[i] != s[j]
  }

  /** How often `x` occurs in `s`. */
  function Count<T(==)>(s: seq<T>, x: T): (n: nat)
    ensures n <= |s|
    ensures n == 0 <==> x !in s
  {
    if s == [] then 0 else (if s[0] == x then 1 else 0) + Count(s[1..], x)
  }

  /** The position of the first occurrence of `x` in `s`. */
  function FirstIndex<T(==)>(s: seq<T>, x: T): (i: nat)
    requires x in s
    ensures i < |s| && s[i] == x
    ensures forall j :: 0 <= j < i ==> s[j] != x
  {
    if s[0] == x then 0 else 1 + FirstIndex(s[1..], x)
  }

  /** Appending leaves the first occurrence of an existing value where it was. */
  lemma FirstIndexAppend<T>(s: seq<T>, y: T, x: T)
    requires x in s
    ensures FirstIndex(s + [y], x) == FirstIndex(s, x)
  {
    var i := FirstIndex(s, x);
    var k := FirstIndex(s + [y], x);
    assert (s + [y])[i] == x;
    assert forall j :: 0 <= j < |s| ==> (s + [y])[j] == s[j];
  }

  /** `unique()`: the distinct values of `s`, in order of first appearance. */
  function Distinct<T(==)>(s: seq<T>): (d: seq<T>)
    ensures NoDuplicates(d)
    ensures forall i :: 0 <= i < |s| ==> s[i] in d
    ensures forall i :: 0 <= i < |d| ==> d[i] in s
    ensures |d| <= |s|
  {
    if s == [] then
      []
    else
      var init := s[..|s| - 1];
      var last := s[|s| - 1];
      assert s == init + [last];
      var d := Distinct(init);
      if last in d then d else d + [last]
  }

  /** `unique()` lists values in the order in which they first appear. */
  lemma {:induction false} DistinctInFirstAppearanceOrder<T>(s: seq<T>, i: nat, j: nat)
    requires i < j < |Distinct(s)|
    ensures FirstIndex(s, Distinct(s)[i]) < FirstIndex(s, Distinct(s)[j])
  {
    var init := s[..|s| - 1];
    var last := s[|s| - 1];
    assert s == init + [last];
    var d := Distinct(init);
    var x := Distinct(s)[i];
    var y := Distinct(s)[j];
    assert x in init by {
      assert Distinct(s)[i] == d[i];
    }
    FirstIndexAppend(init, last, x);
    if last in d {
      FirstIndexAppend(init, last, y);
      DistinctInFirstAppearanceOrder(init, i, j);
    } else if j < |d| {
      FirstIndexAppend(init, last, y);
      DistinctInFirstAppearanceOrder(init, i, j);
    } else {
      assert y == last && last !in init;
      assert FirstIndex(s, y) == |init|;
    }
  }

  /** Summing the counts of a repetition-free list of values. */
  function SumCounts<T(==)>(s: seq<T>, values: seq<T>): nat {
    if values == [] then 0 else Count(s, values[0]) + SumCounts(s, values[1..])
  }

  /** One more element adds one to the total of the value lists that contain it once. */
  lemma {:induction false} SumCountsCons<T>(x: T, s: seq<T>, values: seq<T>)
    requires NoDuplicates(values)
    ensures SumCounts([x] + s, values) == SumCounts(s, values) + (if x in values then 1 else 0)
  {
    if values != [] {
      assert ([x] + s)[1..] == s;
      SumCountsCons(x, s, values[1..]);
      if x == values[0] {
        assert x !in values[1..];
      }
    }
  }

  /** Counting over values covering every element, with none repeated, counts every element once. */
  lemma {:induction false} SumCountsCovers<T>(s: seq<T>, values: seq<T>)
    requires NoDuplicates(values)
    requires forall i :: 0 <= i < |s| ==> s[i] in values
    ensures SumCounts(s, values) == |s|
  {
    if s == [] {
      SumCountsEmpty(values);
    } else {
      assert s == [s[0]] + s[1..];
      SumCountsCovers(s[1..], values);
      SumCountsCons(s[0], s[1..], values);
    }
  }

  lemma {:induction false} SumCountsEmpty<T>(values: seq<T>)
    ensures SumCounts([], values) == 0
  {
    if values != [] {
      SumCountsEmpty(values[1..]);
    }
  }
}
