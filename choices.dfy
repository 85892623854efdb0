/** `Series.unique()` and `sorted(...)` on columns of names, and the
    origin and destination choice lists built from the OD table
    (code/FareCalcMap.py lines 54 and 161-162). */
module Choices {
  import opened StringOrder
  import opened Tables
  import Rows
  import Sorting

  /** The sentinel put at the head of the destination list. */
  const AnyDestination: string := "Any"

  /** Position of the first occurrence of `x` in `s`. */
  function FirstIndex(s: seq<string>, x: string): (i: nat)
    requires x in s
    ensures i < |s| && s[i] == x && x !in s[..i]
  {
    if s[0] == x then 0 else 1 + FirstIndex(s[1..], x)
  }

  /** `unique()`: each distinct value once, in order of first occurrence. */
  function Unique(s: seq<string>): (r: seq<string>)
    ensures forall x :: multiset(r)[x] == if x in s then 1 else 0
    ensures forall x :: x in r <==> x in s
  {
    if s == [] then []
    else
      var u := Unique(s[..|s| - 1]);
      var y := s[|s| - 1];
      assert s == s[..|s| - 1] + [y];
      if y in u then u else u + [y]
  }

  lemma {:induction false} FirstIndexAppend(s: seq<string>, y: string, x: string)
    requires x in s
    ensures FirstIndex(s + [y], x) == FirstIndex(s, x)
  {
    if s[0] != x {
      assert (s + [y])[1..] == s[1..] + [y];
      FirstIndexAppend(s[1..], y, x);
    }
  }

  lemma FirstIndexLast(s: seq<string>, y: string)
    requires y !in s
    ensures FirstIndex(s + [y], y) == |s|
  {
  }

  /** `unique()` lists the values in the order in which they first occur. */
  lemma {:induction false} UniqueKeepsFirstOccurrenceOrder(s: seq<string>)
    ensures forall i, j :: 0 <= i < j < |Unique(s)| ==>
      FirstIndex(s, Unique(s)[i]) < FirstIndex(s, Unique(s)[j])
  {
    if s != [] {
      var p, y := s[..|s| - 1], s[|s| - 1];
      assert s == p + [y];
      UniqueKeepsFirstOccurrenceOrder(p);
      var u := Unique(p);
      forall x | x in p
        ensures FirstIndex(s, x) == FirstIndex(p, x) < |p|
      {
        FirstIndexAppend(p, y, x);
      }
      if y !in u {
        FirstIndexLast(p, y);
      }
    }
  }

  /** `x <= y` for every earlier `x` and later `y`. */
  predicate Ascending(s: seq<string>)
  {
    Sorting.SortedBy(s, Below)
  }

  /** Ascending with no value twice. */
  predicate StrictlyAscending(s: seq<string>)
  {
    forall i, j :: 0 <= i < j < |s| ==> Below(s[i], s[j]) && s[i] != s[j]
  }

  /** Python's `sorted` on a list of names: an ascending permutation. */
  function SortNames(s: seq<string>): (r: seq<string>)
    ensures multiset(r) == multiset(s)
    ensures Ascending(r)
  {
    BelowIsTotalPreorder();
    Sorting.InsertionSort(s, Below)
  }

  lemma TwoPositionsCountTwice(s: seq<string>, i: nat, j: nat)
    requires i < j < |s| && s[i] == s[j]
    ensures multiset(s)[s[i]] >= 2
  {
    assert s == s[..i] + [s[i]] + s[i + 1..j] + [s[j]] + s[j + 1..];
  }

  /** Sorting the unique values of a column gives each value exactly once,
      strictly ascending. */
  function SortedUnique(s: seq<string>): (r: seq<string>)
    ensures StrictlyAscending(r)
    ensures forall x :: x in r <==> x in s
  {
    var u := Unique(s);
    var r := SortNames(u);
    assert forall x :: x in r <==> x in multiset(r);
    forall i, j | 0 <= i < j < |r|
      ensures r[i] != r[j]
    {
      if r[i] == r[j] {
        TwoPositionsCountTwice(r, i, j);
      }
    }
    r
  }

  /** `station_list`: the sorted distinct origins of the OD table. */
  function OriginList(od: seq<ODRow>): (r: seq<string>)
    ensures StrictlyAscending(r)
    ensures forall x :: x in r <==> exists row :: row in od && row.origin == x
  {
    SortedUnique(Rows.Column(od, (row: ODRow) => row.origin))
  }

  /** `destination_list`: `"Any"`, then the sorted distinct destinations. */
  function DestinationList(od: seq<ODRow>): (r: seq<string>)
    ensures |r| > 0 && r[0] == AnyDestination
    ensures StrictlyAscending(r[1..])
    ensures forall x :: x in r[1..] <==> exists row :: row in od && row.destination == x
  {
    var d := SortedUnique(Rows.Column(od, (row: ODRow) => row.destination));
    assert ([AnyDestination] + d)[1..] == d;
    [AnyDestination] + d
  }
}
