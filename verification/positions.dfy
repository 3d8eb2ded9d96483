/** Carbon-credit positions and the status filter the summary endpoint applies
    to them (`positions.filter((p) => p.status === statusParam)`). */
module Positions {

  /** The lifecycle state of a position; the source's `PositionStatus`. */
  datatype Status = Available | Retired

  /** The wire spelling of a status, as compared against the query string. */
  function StatusName(s: Status): (name: string)
    ensures name == "available" || name == "retired"
  {
    match s
    case Available => "available"
    case Retired => "retired"
  }

  /** A position record. Tonnes and prices are exact reals, not floats. */
  datatype Position = Position(
    id: string,
    projectName: string,
    tonnes: real,
    pricePerTonne: real,
    status: Status,
    vintage: int)

  /** Positions as the static store holds them: positive quantity and price. */
  predicate WellFormed(p: Position) {
    p.tonnes > 0.0 && p.pricePerTonne > 0.0
  }

  /** `a` can be obtained from `b` by deleting elements: same order, no
      element invented. */
  predicate IsSubsequence<T(==)>(a: seq<T>, b: seq<T>)
    decreases |b|
  {
    if a == [] then true
    else if b == [] then false
    else (a[0] == b[0] && IsSubsequence(a[1..], b[1..])) || IsSubsequence(a, b[1..])
  }

  /** The positions whose status spells exactly `name`, in their original order. */
  function FilterByStatus(ps: seq<Position>, name: string): (r: seq<Position>)
    ensures |r| <= |ps|
    ensures forall i :: 0 <= i < |r| ==> StatusName(r[i].status) == name
    ensures forall p :: p in r <==> p in ps && StatusName(p.status) == name
  {
    if ps == [] then []
    else if StatusName(ps[0].status) == name then [ps[0]] + FilterByStatus(ps[1..], name)
    else FilterByStatus(ps[1..], name)
  }

  /** The filter keeps the input's order and drops, never adds, elements. */
  lemma {:induction false} FilterIsSubsequence(ps: seq<Position>, name: string)
    ensures IsSubsequence(FilterByStatus(ps, name), ps)
  {
    if ps != [] {
      FilterIsSubsequence(ps[1..], name);
      var rest := FilterByStatus(ps[1..], name);
      if StatusName(ps[0].status) == name {
        assert ([ps[0]] + rest)[1..] == rest;
      } else {
        SubsequenceOfTail(FilterByStatus(ps, name), ps);
      }
    }
  }

  lemma SubsequenceOfTail<T>(a: seq<T>, b: seq<T>)
    requires b != [] && IsSubsequence(a, b[1..])
    ensures IsSubsequence(a, b)
  {
  }

  /** Each position is kept exactly as often as it occurs in the input when its
      status matches, and not at all otherwise. */
  lemma {:induction false} FilterMultiplicity(ps: seq<Position>, name: string, p: Position)
    ensures multiset(FilterByStatus(ps, name))[p]
         == if StatusName(p.status) == name then multiset(ps)[p] else 0
  {
    if ps != [] {
      var x, tail := ps[0], ps[1..];
      var rest := FilterByStatus(tail, name);
      FilterMultiplicity(tail, name, p);
      assert ps == [x] + tail;
      assert multiset(ps)[p] == multiset([x])[p] + multiset(tail)[p];
      if StatusName(x.status) == name {
        assert FilterByStatus(ps, name) == [x] + rest;
        assert multiset([x] + rest)[p] == multiset([x])[p] + multiset(rest)[p];
      } else {
        assert FilterByStatus(ps, name) == rest;
        assert x != p || StatusName(p.status) != name;
      }
    }
  }

  /** Filtering distributes over concatenation, so it never reorders across
      the boundary. */
  lemma {:induction false} FilterAppend(a: seq<Position>, b: seq<Position>, name: string)
    ensures FilterByStatus(a + b, name) == FilterByStatus(a, name) + FilterByStatus(b, name)
  {
    if a == [] {
      assert a + b == b;
    } else {
      assert (a + b)[1..] == a[1..] + b;
      FilterAppend(a[1..], b, name);
    }
  }

  /** Filtering twice by the same status changes nothing further. */
  lemma {:induction false} FilterIdempotent(ps: seq<Position>, name: string)
    ensures FilterByStatus(FilterByStatus(ps, name), name) == FilterByStatus(ps, name)
  {
    if ps != [] {
      FilterIdempotent(ps[1..], name);
      if StatusName(ps[0].status) == name {
        var rest := FilterByStatus(ps[1..], name);
        assert ([ps[0]] + rest)[1..] == rest;
      }
    }
  }
}
