/**
 * `data['Department'].value_counts()`: how many rows each department
 * has, largest count first.
 */
module Aggregator {
  import opened Grouping

  /** One entry of the department counts: a label and how many rows carry it. */
  type Entry = (string, nat)

  /** The labels of a list of entries. */
  function KeysOf(entries: seq<Entry>): (keys: seq<string>)
    ensures |keys| == |entries|
    ensures forall i :: 0 <= i < |entries| ==> keys[i] == entries[i].0
  {
    if entries == [] then [] else [entries[0].0] + KeysOf(entries[1..])
  }

  /** The sum of the counts. */
  function Total(entries: seq<Entry>): nat {
    if entries == [] then 0 else entries[0].1 + Total(entries[1..])
  }

  /** Counts do not increase from left to right. */
  predicate Descending(entries: seq<Entry>) {
    forall i, j :: 0 <= i < j < |entries| ==> entries[i].1 >= entries[j].1
  }

  /** The count of every listed label, in the order listed. */
  function CountsFor(labels: seq<string>, values: seq<string>): (entries: seq<Entry>)
    ensures KeysOf(entries) == values
    ensures forall i :: 0 <= i < |entries| ==> entries[i].1 == Count(labels, values[i])
    ensures Total(entries) == SumCounts(labels, values)
  {
    if values == [] then []
    else
      var rest := CountsFor(labels, values[1..]);
      var entries := [(values[0], Count(labels, values[0]))] + rest;
      assert entries[1..] == rest;
      entries
  }

  /** The counts with labels in order of first appearance. */
  function CountsInFirstAppearanceOrder(labels: seq<string>): (r: seq<Entry>)
    ensures KeysOf(r) == Distinct(labels)
    ensures forall i :: 0 <= i < |r| ==> r[i].1 == Count(labels, Distinct(labels)[i])
  {
    CountsFor(labels, Distinct(labels))
  }

  /**
   * Inserts an entry into a descending list ahead of the first entry whose
   * count is not larger, so that among equal counts earlier entries stay first.
   */
  function InsertByCount(e: Entry, sorted: seq<Entry>): (r: seq<Entry>)
    requires Descending(sorted)
    ensures Descending(r)
    ensures multiset(r) == multiset(sorted) + multiset{e}
    ensures |r| == |sorted| + 1 && (r[0] == e || (sorted != [] && r[0] == sorted[0]))
  {
    if sorted == [] || e.1 >= sorted[0].1 then
      [e] + sorted
    else
      var rest := InsertByCount(e, sorted[1..]);
      assert sorted == [sorted[0]] + sorted[1..];
      var r := [sorted[0]] + rest;
      assert forall k :: 0 < k < |r| ==> r[k] == rest[k - 1];
      r
  }

  /** The labels and the total of a list with one more entry in front. */
  lemma KeysAndTotalCons(x: Entry, rest: seq<Entry>)
    ensures KeysOf([x] + rest) == [x.0] + KeysOf(rest)
    ensures multiset(KeysOf([x] + rest)) == multiset{x.0} + multiset(KeysOf(rest))
    ensures Total([x] + rest) == x.1 + Total(rest)
  {
    assert ([x] + rest)[1..] == rest;
  }

  /** The labels of a non-empty list: the first one, then those of the rest. */
  lemma KeysOfNonEmpty(s: seq<Entry>)
    requires s != []
    ensures multiset(KeysOf(s)) == multiset{s[0].0} + multiset(KeysOf(s[1..]))
    ensures Total(s) == s[0].1 + Total(s[1..])
  {
    assert s == [s[0]] + s[1..];
    KeysAndTotalCons(s[0], s[1..]);
  }

  /** Where an entry goes: in front, or after the first entry when that one has a larger count. */
  lemma InsertByCountStep(e: Entry, sorted: seq<Entry>)
    requires Descending(sorted)
    ensures sorted == [] || e.1 >= sorted[0].1 ==> InsertByCount(e, sorted) == [e] + sorted
    ensures sorted != [] && e.1 < sorted[0].1 ==>
              InsertByCount(e, sorted)[0] == sorted[0]
              && InsertByCount(e, sorted)[1..] == InsertByCount(e, sorted[1..])
  {
  }

  /** Inserting adds the entry's label and nothing else. */
  lemma {:induction false} InsertByCountKeys(e: Entry, sorted: seq<Entry>)
    requires Descending(sorted)
    ensures multiset(KeysOf(InsertByCount(e, sorted))) == multiset(KeysOf(sorted)) + multiset{e.0}
  {
    if sorted == [] || e.1 >= sorted[0].1 {
      InsertByCountStep(e, sorted);
      KeysAndTotalCons(e, sorted);
    } else {
      InsertByCountKeys(e, sorted[1..]);
      InsertByCountStep(e, sorted);
      KeysOfNonEmpty(InsertByCount(e, sorted));
      KeysOfNonEmpty(sorted);
    }
  }

  /** Inserting adds the entry's count to the total. */
  lemma {:induction false} InsertByCountTotal(e: Entry, sorted: seq<Entry>)
    requires Descending(sorted)
    ensures Total(InsertByCount(e, sorted)) == Total(sorted) + e.1
  {
    if sorted == [] || e.1 >= sorted[0].1 {
      InsertByCountStep(e, sorted);
      KeysAndTotalCons(e, sorted);
    } else {
      InsertByCountTotal(e, sorted[1..]);
      InsertByCountStep(e, sorted);
      KeysOfNonEmpty(InsertByCount(e, sorted));
      KeysOfNonEmpty(sorted);
    }
  }

  /** Inserting adds the entry's label and count and nothing else. */
  lemma InsertByCountKeysAndTotal(e: Entry, sorted: seq<Entry>)
    requires Descending(sorted)
    ensures multiset(KeysOf(InsertByCount(e, sorted))) == multiset(KeysOf(sorted)) + multiset{e.0}
    ensures Total(InsertByCount(e, sorted)) == Total(sorted) + e.1
  {
    InsertByCountKeys(e, sorted);
    InsertByCountTotal(e, sorted);
  }

  /** Sorts entries by count, largest first, keeping the given order among equal counts. */
  function SortByCount(entries: seq<Entry>): (r: seq<Entry>)
    ensures Descending(r)
    ensures multiset(r) == multiset(entries)
  {
    if entries == [] then []
    else
      assert entries == [entries[0]] + entries[1..];
      InsertByCount(entries[0], SortByCount(entries[1..]))
  }

  /** Sorting keeps the labels, as a multiset. */
  lemma {:induction false} SortByCountKeys(entries: seq<Entry>)
    ensures multiset(KeysOf(SortByCount(entries))) == multiset(KeysOf(entries))
  {
    if entries != [] {
      SortByCountKeys(entries[1..]);
      InsertByCountKeys(entries[0], SortByCount(entries[1..]));
      KeysOfNonEmpty(entries);
    }
  }

  /** Sorting keeps the total. */
  lemma {:induction false} SortByCountTotal(entries: seq<Entry>)
    ensures Total(SortByCount(entries)) == Total(entries)
  {
    if entries != [] {
      SortByCountTotal(entries[1..]);
      InsertByCountTotal(entries[0], SortByCount(entries[1..]));
      KeysOfNonEmpty(entries);
    }
  }

  /** Sorting keeps the labels, as a multiset, and the total. */
  lemma SortByCountKeysAndTotal(entries: seq<Entry>)
    ensures multiset(KeysOf(SortByCount(entries))) == multiset(KeysOf(entries))
    ensures Total(SortByCount(entries)) == Total(entries)
  {
    SortByCountKeys(entries);
    SortByCountTotal(entries);
  }

  /** `value_counts()`: the department counts, largest first. */
  function ValueCounts(labels: seq<string>): (r: seq<Entry>)
    ensures Descending(r)
  {
    SortByCount(CountsInFirstAppearanceOrder(labels))
  }

  /** A multiset has an element at most once when no element of the sequence is repeated. */
  lemma {:induction false} NoDuplicatesMultiplicity(s: seq<string>, x: string)
    requires NoDuplicates(s)
    ensures multiset(s)[x] <= 1
  {
    if s != [] {
      assert s == [s[0]] + s[1..];
      NoDuplicatesMultiplicity(s[1..], x);
      if s[0] == x {
        assert x !in s[1..];
      }
    }
  }

  /** Rearranging a repetition-free sequence gives a repetition-free sequence. */
  lemma PermutationKeepsNoDuplicates(a: seq<string>, b: seq<string>)
    requires multiset(a) == multiset(b) && NoDuplicates(a)
    ensures NoDuplicates(b)
  {
    forall i, j | 0 <= i < j < |b|
      ensures b[i] != b[j]
    {
      NoDuplicatesMultiplicity(a, b[i]);
      assert b == b[..j] + [b[j]] + b[j + 1..];
      assert b[i] in b[..j];
    }
  }

  /**
   * The department counts list every distinct label exactly once, largest
   * count first.
   */
  lemma ValueCountsKeys(labels: seq<string>)
    ensures Descending(ValueCounts(labels))
    ensures NoDuplicates(KeysOf(ValueCounts(labels)))
    ensures forall i :: 0 <= i < |labels| ==> labels[i] in KeysOf(ValueCounts(labels))
  {
    var u := Distinct(labels);
    var c := CountsFor(labels, u);
    var r := SortByCount(c);
    SortByCountKeysAndTotal(c);
    PermutationKeepsNoDuplicates(KeysOf(c), KeysOf(r));
    forall i | 0 <= i < |labels|
      ensures labels[i] in KeysOf(r)
    {
      assert labels[i] in u;
      assert labels[i] in multiset(KeysOf(c));
    }
  }

  /**
   * Every entry of the department counts is a label that occurs, with the
   * number of rows carrying it, hence at least one.
   */
  lemma ValueCountsEntries(labels: seq<string>, i: nat)
    requires i < |ValueCounts(labels)|
    ensures ValueCounts(labels)[i].0 in labels
    ensures ValueCounts(labels)[i].1 == Count(labels, ValueCounts(labels)[i].0)
    ensures ValueCounts(labels)[i].1 >= 1
  {
    var u := Distinct(labels);
    var c := CountsFor(labels, u);
    var r := SortByCount(c);
    assert r[i] in multiset(c);
    var k :| 0 <= k < |c| && c[k] == r[i];
    assert u[k] in labels;
  }

  /** The counts add up to the number of rows. */
  lemma ValueCountsTotal(labels: seq<string>)
    ensures Total(ValueCounts(labels)) == |labels|
  {
    var u := Distinct(labels);
    SortByCountKeysAndTotal(CountsFor(labels, u));
    SumCountsCovers(labels, u);
  }

  /** No rows, no counts. */
  lemma ValueCountsEmpty()
    ensures ValueCounts([]) == []
  {
  }
}
