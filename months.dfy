/** Calendar months as a linear index.
    The ledger is keyed by year and month (1..12); the engine steps one
    calendar month at a time. A month is identified here by the single
    integer `year * 12 + month - 1`, so "the next month" is `i + 1` and a
    day-level comparison `date <= end` becomes `i <= last`. */
module Months {

  /** The linear index of (year, month), month in 1..12. */
  function MonthIndex(year: int, month: int): int
  {
    year * 12 + month - 1
  }

  /** The calendar year of a month index. */
  function YearOf(i: int): int
  {
    i / 12
  }

  /** The calendar month (1..12) of a month index. */
  function MonthOf(i: int): (m: int)
    ensures 1 <= m <= 12
    ensures MonthIndex(YearOf(i), m) == i
  {
    i % 12 + 1
  }

  /** Joining a year and a valid month and splitting them back is the identity. */
  lemma FieldsRoundTrip(year: int, month: int)
    requires 1 <= month <= 12
    ensures YearOf(MonthIndex(year, month)) == year
    ensures MonthOf(MonthIndex(year, month)) == month
  {
  }

  /** The `count` consecutive months starting at `first`. */
  function Span(first: int, count: nat): (s: set<int>)
    ensures forall i :: i in s <==> first <= i < first + count
    ensures |s| == count
  {
    if count == 0 then {} else Span(first, count - 1) + {first + count - 1}
  }

  /** `keys` are exactly the `count` consecutive months from `first`. */
  ghost predicate Covers(keys: set<int>, first: int, count: nat)
  {
    forall i :: i in keys <==> first <= i < first + count
  }

  /** A set covering a run of months has the run's length as its size. */
  lemma CoversCount(keys: set<int>, first: int, count: nat)
    requires Covers(keys, first, count)
    ensures |keys| == count
  {
    assert forall i :: i in keys <==> i in Span(first, count);
    assert keys == Span(first, count);
  }

  /** Number of months from `first` through `last`, both included. */
  function Count(first: int, last: int): (n: nat)
    ensures first <= last ==> first + n == last + 1
    ensures last < first ==> n == 0
  {
    if first <= last then last - first + 1 else 0
  }
}
