/** The portfolio summary: total tonnes, total value and the average price per
    tonne of a sequence of positions, in exact arithmetic. */
module Summaries {
  import opened Options
  import opened Positions

  /** The sum of `term` over `ps`. */
  function Sum(ps: seq<Position>, term: Position -> real): real
  {
    if ps == [] then 0.0 else term(ps[0]) + Sum(ps[1..], term)
  }

  /** A position's contribution to the total tonnes. */
  function Tonnes(p: Position): real { p.tonnes }

  /** A position's contribution to the total value. */
  function LineValue(p: Position): real { p.tonnes * p.pricePerTonne }

  /** The response body of the summary endpoint. `None` as the average stands
      for the non-finite value a division by zero total tonnes produces. */
  datatype Summary = Summary(
    totalTonnes: real,
    totalValue: real,
    averagePricePerTonne: Option<real>)

  /** Aggregates a sequence of positions into its summary. */
  function ComputeSummary(ps: seq<Position>): (s: Summary)
    ensures ps == [] ==> s == Summary(0.0, 0.0, None)
    ensures s.averagePricePerTonne.None? <==> s.totalTonnes == 0.0
    ensures s.averagePricePerTonne.Some? ==>
              s.averagePricePerTonne.value * s.totalTonnes == s.totalValue
  {
    var totalTonnes := Sum(ps, Tonnes);
    var totalValue := Sum(ps, LineValue);
    Summary(totalTonnes, totalValue,
            if totalTonnes == 0.0 then None else Some(totalValue / totalTonnes))
  }

  /** Sums are additive over concatenation. */
  lemma {:induction false} SumAppend(a: seq<Position>, b: seq<Position>, term: Position -> real)
    ensures Sum(a + b, term) == Sum(a, term) + Sum(b, term)
  {
    if a == [] {
      assert a + b == b;
    } else {
      assert (a + b)[1..] == a[1..] + b;
      SumAppend(a[1..], b, term);
    }
  }

  /** Removing the element at `i` takes exactly its term off the sum. */
  lemma SumRemove(b: seq<Position>, i: int, term: Position -> real)
    requires 0 <= i < |b|
    ensures Sum(b, term) == term(b[i]) + Sum(b[..i] + b[i+1..], term)
  {
    assert b == b[..i] + b[i..];
    SumAppend(b[..i], b[i..], term);
    SumAppend(b[..i], b[i+1..], term);
    assert b[i..][1..] == b[i+1..];
  }

  /** Sums do not depend on the order of the positions. */
  lemma {:induction false} SumPermutation(a: seq<Position>, b: seq<Position>, term: Position -> real)
    requires multiset(a) == multiset(b)
    ensures Sum(a, term) == Sum(b, term)
    decreases |a|
  {
    if a == [] {
      assert |b| == |multiset(b)| == 0;
    } else {
      var x := a[0];
      assert x in multiset(b);
      var i :| 0 <= i < |b| && b[i] == x;
      var b' := b[..i] + b[i+1..];
      assert b == b[..i] + [x] + b[i+1..];
      assert multiset(b') == multiset(b) - multiset{x};
      assert a == [x] + a[1..];
      assert multiset(a[1..]) == multiset(a) - multiset{x};
      SumPermutation(a[1..], b', term);
      SumRemove(b, i, term);
    }
  }

  /** Every position is either available or retired, so a sum over all
      positions splits into the available part and the retired part. */
  lemma {:induction false} SumPartition(ps: seq<Position>, term: Position -> real)
    ensures Sum(ps, term)
         == Sum(FilterByStatus(ps, "available"), term) + Sum(FilterByStatus(ps, "retired"), term)
  {
    if ps != [] {
      SumPartition(ps[1..], term);
      var av := FilterByStatus(ps[1..], "available");
      var re := FilterByStatus(ps[1..], "retired");
      if ps[0].status == Available {
        assert FilterByStatus(ps, "available") == [ps[0]] + av;
        assert FilterByStatus(ps, "retired") == re;
        assert ([ps[0]] + av)[1..] == av;
      } else {
        assert FilterByStatus(ps, "available") == av;
        assert FilterByStatus(ps, "retired") == [ps[0]] + re;
        assert ([ps[0]] + re)[1..] == re;
      }
    }
  }

  /** The summary of a concatenation has the summed totals of its parts. */
  lemma SummaryAppend(a: seq<Position>, b: seq<Position>)
    ensures ComputeSummary(a + b).totalTonnes
         == ComputeSummary(a).totalTonnes + ComputeSummary(b).totalTonnes
    ensures ComputeSummary(a + b).totalValue
         == ComputeSummary(a).totalValue + ComputeSummary(b).totalValue
  {
    SumAppend(a, b, Tonnes);
    SumAppend(a, b, LineValue);
  }

  /** Reordering the positions leaves the whole summary unchanged. */
  lemma SummaryPermutation(a: seq<Position>, b: seq<Position>)
    requires multiset(a) == multiset(b)
    ensures ComputeSummary(a) == ComputeSummary(b)
  {
    SumPermutation(a, b, Tonnes);
    SumPermutation(a, b, LineValue);
  }

  /** With positive tonnes, the total is zero exactly for an empty sequence and
      positive otherwise. */
  lemma {:induction false} TotalTonnesPositive(ps: seq<Position>)
    requires forall i :: 0 <= i < |ps| ==> WellFormed(ps[i])
    ensures Sum(ps, Tonnes) >= 0.0
    ensures Sum(ps, Tonnes) == 0.0 <==> ps == []
  {
    if ps != [] {
      TotalTonnesPositive(ps[1..]);
    }
  }

  /** For well-formed positions the average is defined exactly when there is at
      least one position: only the empty selection divides zero by zero. */
  lemma AverageDefinedIffNonEmpty(ps: seq<Position>)
    requires forall i :: 0 <= i < |ps| ==> WellFormed(ps[i])
    ensures ComputeSummary(ps).averagePricePerTonne.Some? <==> ps != []
  {
    TotalTonnesPositive(ps);
  }

  /** Total value is at least the total tonnes priced at any lower bound of
      the individual prices. */
  lemma {:induction false} TotalValueAtLeast(ps: seq<Position>, lo: real)
    requires forall i :: 0 <= i < |ps| ==> ps[i].tonnes > 0.0 && lo <= ps[i].pricePerTonne
    ensures lo * Sum(ps, Tonnes) <= Sum(ps, LineValue)
  {
    if ps != [] {
      TotalValueAtLeast(ps[1..], lo);
      var t, rest := ps[0].tonnes, Sum(ps[1..], Tonnes);
      assert lo * (t + rest) == lo * t + lo * rest;
      assert lo * t <= t * ps[0].pricePerTonne;
    }
  }

  /** Total value is at most the total tonnes priced at any upper bound of
      the individual prices. */
  lemma {:induction false} TotalValueAtMost(ps: seq<Position>, hi: real)
    requires forall i :: 0 <= i < |ps| ==> ps[i].tonnes > 0.0 && ps[i].pricePerTonne <= hi
    ensures Sum(ps, LineValue) <= hi * Sum(ps, Tonnes)
  {
    if ps != [] {
      TotalValueAtMost(ps[1..], hi);
      var t, rest := ps[0].tonnes, Sum(ps[1..], Tonnes);
      assert hi * (t + rest) == hi * t + hi * rest;
      assert t * ps[0].pricePerTonne <= hi * t;
    }
  }

  /** The average price per tonne is a weighted mean: it lies within any range
      that holds every position's price. */
  lemma AverageWithinPriceRange(ps: seq<Position>, lo: real, hi: real)
    requires ps != []
    requires forall i :: 0 <= i < |ps| ==> WellFormed(ps[i])
    requires forall i :: 0 <= i < |ps| ==> lo <= ps[i].pricePerTonne <= hi
    ensures ComputeSummary(ps).averagePricePerTonne.Some?
    ensures lo <= ComputeSummary(ps).averagePricePerTonne.value <= hi
  {
    TotalTonnesPositive(ps);
    TotalValueAtLeast(ps, lo);
    TotalValueAtMost(ps, hi);
    var s := ComputeSummary(ps);
    assert s.totalTonnes == Sum(ps, Tonnes) && s.totalValue == Sum(ps, LineValue);
    CancelPositiveFactor(lo, s.averagePricePerTonne.value, s.totalTonnes, s.totalValue);
    CancelPositiveFactor(s.averagePricePerTonne.value, hi, s.totalTonnes, s.totalValue);
  }

  /** Comparing two prices through the value they give a positive quantity. */
  lemma CancelPositiveFactor(x: real, y: real, t: real, v: real)
    requires t > 0.0
    requires (x * t <= v && v == y * t) || (x * t == v && v <= y * t)
    ensures x <= y
  {
  }
}
