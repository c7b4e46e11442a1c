/** Descriptive statistics of one table column, as pandas computes them after
    `dropna()`: count, mean, median (linear interpolation between the two
    middle order statistics), min and max. The standard deviation is not part
    of this model. */
module ColumnStats {
  import opened Wrappers

  /** A column of a table; `None` is a missing value (NaN or NA). */
  type Column = seq<Option<real>>

  /** The non-missing values of a column, in their original order. */
  function DropMissing(c: Column): (r: seq<real>)
    ensures |r| <= |c|
    ensures forall x :: x in r <==> Some(x) in c
    ensures forall x :: multiset(r)[x] == multiset(c)[Some(x)]
  {
    if c == [] then []
    else
      var rest := DropMissing(c[1..]);
      assert c == [c[0]] + c[1..];
      assert multiset(c) == multiset{c[0]} + multiset(c[1..]);
      match c[0]
      case Some(x) => [x] + rest
      case None => rest
  }

  /** Dropping missing values commutes with concatenation, so together with
      the one-entry cases it keeps the present values in their order. */
  lemma {:induction false} DropMissingAppend(a: Column, b: Column)
    ensures DropMissing(a + b) == DropMissing(a) + DropMissing(b)
    decreases |a|
  {
    if a == [] {
      assert a + b == b;
    } else {
      assert (a + b)[1..] == a[1..] + b;
      DropMissingAppend(a[1..], b);
    }
  }

  /** The one-entry cases: a present value is kept, a missing one dropped. */
  lemma DropMissingSingle(x: Option<real>)
    ensures DropMissing([x]) == (if x.Some? then [x.value] else [])
  {
  }

  lemma DropMissingEmpty(c: Column)
    ensures DropMissing(c) == [] <==> forall i :: 0 <= i < |c| ==> c[i].None?
  {
    if DropMissing(c) != [] {
      var x := DropMissing(c)[0];
      assert x in DropMissing(c);
    }
  }

  function Sum(s: seq<real>): real
  {
    if s == [] then 0.0 else s[0] + Sum(s[1..])
  }

  function Mean(s: seq<real>): real
    requires |s| > 0
  {
    Sum(s) / |s| as real
  }

  function Min(s: seq<real>): (r: real)
    requires |s| > 0
    ensures r in s
    ensures forall i :: 0 <= i < |s| ==> r <= s[i]
  {
    if |s| == 1 then s[0]
    else
      var m := Min(s[1..]);
      if s[0] <= m then s[0] else m
  }

  function Max(s: seq<real>): (r: real)
    requires |s| > 0
    ensures r in s
    ensures forall i :: 0 <= i < |s| ==> s[i] <= r
  {
    if |s| == 1 then s[0]
    else
      var m := Max(s[1..]);
      if s[0] >= m then s[0] else m
  }

  predicate Sorted(s: seq<real>)
  {
    forall i, j :: 0 <= i < j < |s| ==> s[i] <= s[j]
  }

  /** Inserts `x` before the first element it does not exceed. */
  function Insert(x: real, s: seq<real>): seq<real>
  {
    if s == [] || x <= s[0] then [x] + s else [s[0]] + Insert(x, s[1..])
  }

  lemma {:induction false} InsertPermutes(x: real, s: seq<real>)
    ensures multiset(Insert(x, s)) == multiset(s) + multiset{x}
  {
    if !(s == [] || x <= s[0]) {
      InsertPermutes(x, s[1..]);
      assert s == [s[0]] + s[1..];
    }
  }

  lemma {:induction false} InsertSorted(x: real, s: seq<real>)
    requires Sorted(s)
    ensures Sorted(Insert(x, s))
  {
    if !(s == [] || x <= s[0]) {
      var rest := Insert(x, s[1..]);
      InsertSorted(x, s[1..]);
      InsertPermutes(x, s[1..]);
      forall k | 0 <= k < |rest|
        ensures s[0] <= rest[k]
      {
        assert rest[k] in multiset(rest);
        if rest[k] != x {
          assert rest[k] in s[1..];
          HeadIsLeast(s, rest[k]);
        }
      }
    }
  }

  lemma HeadIsLeast(s: seq<real>, y: real)
    requires Sorted(s) && y in s
    ensures s[0] <= y
  {
    var j :| 0 <= j < |s| && s[j] == y;
    if j > 0 {
      assert s[0] <= s[j];
    }
  }

  /** The values in ascending order (the order statistics). */
  function SortAscending(s: seq<real>): (r: seq<real>)
    ensures Sorted(r)
    ensures multiset(r) == multiset(s)
  {
    if s == [] then []
    else
      var rest := SortAscending(s[1..]);
      InsertSorted(s[0], rest);
      InsertPermutes(s[0], rest);
      assert s == [s[0]] + s[1..];
      Insert(s[0], rest)
  }

  /** The median with linear interpolation: the middle order statistic, or
      the average of the two middle ones for an even count. */
  function Median(s: seq<real>): (r: real)
    requires |s| > 0
    ensures Min(s) <= r <= Max(s)
    ensures |s| % 2 == 1 ==> r in s
  {
    var o := SortAscending(s);
    assert |o| == |multiset(o)| == |multiset(s)| == |s|;
    var n := |s|;
    SortedElementsAreValues(s, n / 2);
    SortedElementsAreValues(s, if n % 2 == 0 then n / 2 - 1 else n / 2);
    if n % 2 == 1 then o[n / 2] else (o[n / 2 - 1] + o[n / 2]) / 2.0
  }

  /** The summary pandas prints for one column; `count` counts non-missing
      values only. */
  datatype Summary = Summary(count: nat, mean: real, median: real, min: real, max: real)

  /** pandas `mean()` with `skipna`: missing when no value is present. */
  function MeanOf(c: Column): (r: Option<real>)
    ensures r.None? <==> forall i :: 0 <= i < |c| ==> c[i].None?
  {
    DropMissingEmpty(c);
    var v := DropMissing(c);
    if v == [] then None else Some(Mean(v))
  }

  /** `dropna()` followed by mean, median, min and max; every statistic is
      unavailable for a column without any present value. */
  function Describe(c: Column): (r: Option<Summary>)
    ensures r.None? <==> forall i :: 0 <= i < |c| ==> c[i].None?
    ensures r.Some? ==> r.value.count == |DropMissing(c)| && r.value.count > 0
    ensures r.Some? ==> MeanOf(c) == Some(r.value.mean)
  {
    DropMissingEmpty(c);
    var v := DropMissing(c);
    if v == [] then None
    else Some(Summary(|v|, Mean(v), Median(v), Min(v), Max(v)))
  }

  lemma {:induction false} SumBounds(s: seq<real>, lo: real, hi: real)
    requires forall i :: 0 <= i < |s| ==> lo <= s[i] <= hi
    ensures |s| as real * lo <= Sum(s) <= |s| as real * hi
  {
    if s != [] {
      SumBounds(s[1..], lo, hi);
      assert |s| as real * lo == lo + (|s| - 1) as real * lo;
      assert |s| as real * hi == hi + (|s| - 1) as real * hi;
    }
  }

  lemma QuotientBounds(total: real, n: real, lo: real, hi: real)
    requires n > 0.0 && n * lo <= total <= n * hi
    ensures lo <= total / n <= hi
  {
    assert total / n - lo == (total - n * lo) / n;
    assert hi - total / n == (n * hi - total) / n;
  }

  lemma MeanBounds(s: seq<real>, lo: real, hi: real)
    requires |s| > 0
    requires forall i :: 0 <= i < |s| ==> lo <= s[i] <= hi
    ensures lo <= Mean(s) <= hi
  {
    SumBounds(s, lo, hi);
    QuotientBounds(Sum(s), |s| as real, lo, hi);
  }

  /** The mean lies between the smallest and the largest value. */
  lemma {:induction false} MeanBetweenMinAndMax(s: seq<real>)
    requires |s| > 0
    ensures Min(s) <= Mean(s) <= Max(s)
  {
    MeanBounds(s, Min(s), Max(s));
  }

  lemma SortedElementsAreValues(s: seq<real>, k: int)
    requires 0 <= k < |SortAscending(s)|
    ensures SortAscending(s)[k] in s
  {
    var o := SortAscending(s);
    assert o[k] in multiset(o);
  }

  /** For a column with at least one present value the summary is ordered:
      min <= median <= max and min <= mean <= max. */
  lemma {:induction false} SummaryIsOrdered(c: Column)
    requires Describe(c).Some?
    ensures Describe(c).value.min <= Describe(c).value.median <= Describe(c).value.max
    ensures Describe(c).value.min <= Describe(c).value.mean <= Describe(c).value.max
  {
    var v := DropMissing(c);
    MeanBetweenMinAndMax(v);
  }
}
