/** The reference semantics of the summary, written out by the endpoint's test
    suite as `calculateExpectedSummary`: filter by an optional status, then
    two `Array.reduce` folds and a division. */
module ExpectedSummary {
  import opened Options
  import opened Positions
  import opened Summaries
  import opened SummaryEndpoint

  /** `ps.reduce((acc, p) => acc + term(p), acc)`: a left fold from `acc`. */
  function ReduceLeft(ps: seq<Position>, acc: real, term: Position -> real): real
  {
    if ps == [] then acc else ReduceLeft(ps[1..], acc + term(ps[0]), term)
  }

  /** The left fold the test uses adds up exactly what the right-recursive
      `Sum` does, whatever the starting value. */
  lemma {:induction false} ReduceLeftIsSum(ps: seq<Position>, acc: real, term: Position -> real)
    ensures ReduceLeft(ps, acc, term) == acc + Sum(ps, term)
  {
    if ps != [] {
      ReduceLeftIsSum(ps[1..], acc + term(ps[0]), term);
    }
  }

  /** The test helper: the positions of `filterStatus` (all when absent), their
      reduced totals, and the total value divided by the total tonnes. */
  function CalculateExpectedSummary(positions: seq<Position>, filterStatus: Option<Status>): (s: Summary)
    ensures s.totalTonnes == 0.0 <==> s.averagePricePerTonne.None?
    ensures filterStatus.None? ==> s.totalTonnes == Sum(positions, Tonnes)
    ensures filterStatus.None? ==> s.totalValue == Sum(positions, LineValue)
    ensures filterStatus.Some? ==>
              s.totalTonnes == Sum(FilterByStatus(positions, StatusName(filterStatus.value)), Tonnes)
    ensures filterStatus.Some? ==>
              s.totalValue == Sum(FilterByStatus(positions, StatusName(filterStatus.value)), LineValue)
  {
    var filtered := if filterStatus.Some? then FilterByStatus(positions, StatusName(filterStatus.value))
                    else positions;
    var totalTonnes := ReduceLeft(filtered, 0.0, Tonnes);
    var totalValue := ReduceLeft(filtered, 0.0, LineValue);
    ReduceLeftIsSum(filtered, 0.0, Tonnes);
    ReduceLeftIsSum(filtered, 0.0, LineValue);
    Summary(totalTonnes, totalValue,
            if totalTonnes == 0.0 then None else Some(totalValue / totalTonnes))
  }

  /** The query string a filter choice is sent as: none for "all". */
  function QueryFor(filterStatus: Option<Status>): (q: Option<string>)
    ensures q.None? <==> filterStatus.None?
    ensures q.Some? ==> q.value in ValidStatuses
  {
    match filterStatus
    case None => None
    case Some(st) => Some(StatusName(st))
  }

  /** For no filter, `available` and `retired`, the endpoint answers 200 with
      exactly the summary the test helper computes. */
  lemma EndpointMatchesReference(positions: seq<Position>, filterStatus: Option<Status>)
    ensures HandleSummary(positions, QueryFor(filterStatus))
         == Ok(CalculateExpectedSummary(positions, filterStatus))
  {
  }
}
