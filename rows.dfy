/** Order-keeping operations on the rows of a table, shared by every
    boolean-mask selection and column read in code/FareCalcMap.py. */
module Rows {

  /** `r` is `s` with some rows left out and the rest in their order. */
  predicate SubsequenceOf<T(==)>(r: seq<T>, s: seq<T>)
    decreases |s|
  {
    r == [] ||
    (s != [] &&
     ((r[|r| - 1] == s[|s| - 1] && SubsequenceOf(r[..|r| - 1], s[..|s| - 1])) ||
      SubsequenceOf(r, s[..|s| - 1])))
  }

  /** `df[mask]`: the rows that satisfy `keep`, each as often as it occurs,
      in table order. */
  function Filter<T(==,!new)>(s: seq<T>, keep: T -> bool): (r: seq<T>)
    ensures forall x :: multiset(r)[x] == if keep(x) then multiset(s)[x] else 0
    ensures forall x :: x in r <==> x in s && keep(x)
    ensures SubsequenceOf(r, s)
  {
    if s == [] then []
    else
      var init, last := s[..|s| - 1], s[|s| - 1];
      var kept := Filter(init, keep);
      assert s == init + [last];
      if keep(last) then
        var r := kept + [last];
        assert r[..|r| - 1] == kept && r[|r| - 1] == last;
        assert forall x :: x in r <==> x in kept || x == last;
        r
      else
        kept
  }

  /** Two masks that agree on every row select the same rows. */
  lemma {:induction false} FilterAgrees<T(!new)>(s: seq<T>, p: T -> bool, q: T -> bool)
    requires forall x :: x in s ==> p(x) == q(x)
    ensures Filter(s, p) == Filter(s, q)
  {
    if s != [] {
      var init := s[..|s| - 1];
      assert forall x :: x in init ==> x in s;
      FilterAgrees(init, p, q);
      assert s[|s| - 1] in s;
    }
  }

  /** `df[column]` for the column that `f` reads. */
  function Column<T(!new)>(s: seq<T>, f: T -> string): (r: seq<string>)
    ensures |r| == |s| && forall i :: 0 <= i < |s| ==> r[i] == f(s[i])
    ensures forall v :: v in r <==> exists x :: x in s && f(x) == v
  {
    var r := seq(|s|, i requires 0 <= i < |s| => f(s[i]));
    assert forall x :: x in s ==> f(x) in r by {
      forall x | x in s ensures f(x) in r {
        var i :| 0 <= i < |s| && s[i] == x;
        assert r[i] == f(x);
      }
    }
    r
  }
}
