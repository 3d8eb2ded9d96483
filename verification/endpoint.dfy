/** The `GET /api/portfolio/summary` handler: validate the optional `status`
    query value, filter the position store by it, and answer with the summary
    of the selection or a 400 error body. */
module SummaryEndpoint {
  import opened Options
  import opened Positions
  import opened Summaries

  /** What the handler sends back: a 200 with the summary, or a 400 whose JSON
      body carries an error category and a human-readable message. */
  datatype Response = Ok(summary: Summary) | BadRequest(error: string, message: string)

  /** The HTTP status code of a response. */
  function StatusCode(r: Response): (code: int)
    ensures code == 200 <==> r.Ok?
    ensures code == 400 <==> r.BadRequest?
  {
    match r
    case Ok(_) => 200
    case BadRequest(_, _) => 400
  }

  /** The accepted query values, in the order the error message lists them. */
  const ValidStatuses: seq<string> := [StatusName(Available), StatusName(Retired)]

  const InvalidStatusError: string := "Invalid status parameter"

  /** `sub` occurs in `s` starting at index `i`. */
  predicate OccursAt(s: string, sub: string, i: int) {
    0 <= i <= |s| - |sub| && s[i..i + |sub|] == sub
  }

  /** `sub` occurs somewhere in `s` as a contiguous run. */
  predicate Contains(s: string, sub: string) {
    exists i :: 0 <= i <= |s| && OccursAt(s, sub, i)
  }

  /** The elements of `xs` separated by `sep`, as JavaScript's `Array.join`. */
  function Join(xs: seq<string>, sep: string): string
  {
    if |xs| == 0 then ""
    else if |xs| == 1 then xs[0]
    else xs[0] + sep + Join(xs[1..], sep)
  }

  lemma ContainsPrefix(s: string, tail: string, sub: string)
    requires |sub| <= |s| && s[..|sub|] == sub
    ensures Contains(s + tail, sub)
  {
    assert (s + tail)[0..|sub|] == s[..|sub|];
    assert OccursAt(s + tail, sub, 0);
  }

  lemma ContainsAfter(head: string, s: string, sub: string)
    requires Contains(s, sub)
    ensures Contains(head + s, sub)
  {
    var i :| 0 <= i <= |s| && OccursAt(s, sub, i);
    assert i + |sub| <= |s| && s[i..i + |sub|] == sub;
    var j := |head| + i;
    assert (head + s)[j..j + |sub|] == s[i..i + |sub|];
    assert OccursAt(head + s, sub, j);
  }

  /** Every joined element appears in the joined string. */
  lemma {:induction false} JoinContainsEach(xs: seq<string>, sep: string, k: int)
    requires 0 <= k < |xs|
    ensures Contains(Join(xs, sep), xs[k])
  {
    if |xs| == 1 {
      assert Join(xs, sep)[0..|xs[0]|] == xs[0];
      assert OccursAt(Join(xs, sep), xs[0], 0);
    } else if k == 0 {
      ContainsPrefix(xs[0], sep + Join(xs[1..], sep), xs[0]);
      assert xs[0] + sep + Join(xs[1..], sep) == xs[0] + (sep + Join(xs[1..], sep));
    } else {
      JoinContainsEach(xs[1..], sep, k - 1);
      ContainsAfter(xs[0] + sep, Join(xs[1..], sep), xs[k]);
    }
  }

  /** The 400 message, built from the accepted values. */
  function InvalidStatusMessage(): (m: string)
    ensures m == "Status must be one of: available, retired"
    ensures forall k :: 0 <= k < |ValidStatuses| ==> Contains(m, ValidStatuses[k])
  {
    var m := "Status must be one of: " + Join(ValidStatuses, ", ");
    assert forall k :: 0 <= k < |ValidStatuses| ==> Contains(m, ValidStatuses[k]) by {
      forall k | 0 <= k < |ValidStatuses|
        ensures Contains(m, ValidStatuses[k])
      {
        JoinContainsEach(ValidStatuses, ", ", k);
        ContainsAfter("Status must be one of: ", Join(ValidStatuses, ", "), ValidStatuses[k]);
      }
    }
    m
  }

  /** JavaScript truthiness of the query value: present and not empty. */
  predicate Truthy(statusParam: Option<string>) {
    statusParam.Some? && statusParam.value != ""
  }

  /** The query value survives validation: absent, or one of the accepted values. */
  predicate PassesValidation(statusParam: Option<string>) {
    statusParam.None? || statusParam.value in ValidStatuses
  }

  /** The handler body after its delay, over the position store `positions`. */
  function HandleSummary(positions: seq<Position>, statusParam: Option<string>): (r: Response)
    ensures statusParam.None? ==> r == Ok(ComputeSummary(positions))
    ensures r.BadRequest? <==>
              statusParam.Some? && statusParam.value != "available" && statusParam.value != "retired"
    ensures r.BadRequest? ==>
              r.error == "Invalid status parameter"
              && r.message == "Status must be one of: available, retired"
    ensures r.Ok? && statusParam.Some? ==>
              r.summary == ComputeSummary(FilterByStatus(positions, statusParam.value))
  {
    if statusParam.Some? && statusParam.value !in ValidStatuses then
      BadRequest(InvalidStatusError, InvalidStatusMessage())
    else
      var filtered := if Truthy(statusParam) then FilterByStatus(positions, statusParam.value)
                      else positions;
      Ok(ComputeSummary(filtered))
  }

  /** The 400 message names both accepted values. */
  lemma ErrorMessageNamesValidStatuses(positions: seq<Position>, bad: string)
    requires bad != "available" && bad != "retired"
    ensures HandleSummary(positions, Some(bad)).BadRequest?
    ensures Contains(HandleSummary(positions, Some(bad)).message, "available")
    ensures Contains(HandleSummary(positions, Some(bad)).message, "retired")
  {
  }

  /** Once validation has passed, the truthiness test that chooses between
      filtering and the full store agrees with "the value is present": the empty
      string never reaches it. */
  lemma TruthinessAgreesWithPresence(statusParam: Option<string>)
    requires PassesValidation(statusParam)
    ensures Truthy(statusParam) <==> statusParam.Some?
  {
  }

  /** The query values the handler's tests send, and the ones it must reject
      for being unsupported, empty or differently cased. */
  lemma RejectedStatusValues(positions: seq<Position>)
    ensures StatusCode(HandleSummary(positions, Some("invalid"))) == 400
    ensures StatusCode(HandleSummary(positions, Some("pending"))) == 400
    ensures StatusCode(HandleSummary(positions, Some(""))) == 400
    ensures StatusCode(HandleSummary(positions, Some("Available"))) == 400
    ensures StatusCode(HandleSummary(positions, Some("RETIRED"))) == 400
  {
  }

  /** With a valid status, the summarised selection is a subsequence of the
      store holding exactly the positions of that status. */
  lemma {:induction false} ValidStatusSelectsMatching(positions: seq<Position>, st: Status)
    ensures HandleSummary(positions, Some(StatusName(st)))
         == Ok(ComputeSummary(FilterByStatus(positions, StatusName(st))))
    ensures IsSubsequence(FilterByStatus(positions, StatusName(st)), positions)
    ensures forall p :: p in FilterByStatus(positions, StatusName(st))
                    <==> p in positions && p.status == st
  {
    FilterIsSubsequence(positions, StatusName(st));
  }

  /** Since every position is available or retired, the unfiltered totals are
      the available totals plus the retired totals. */
  lemma UnfilteredTotalsSplitByStatus(positions: seq<Position>)
    ensures HandleSummary(positions, None).summary.totalTonnes
         == HandleSummary(positions, Some("available")).summary.totalTonnes
          + HandleSummary(positions, Some("retired")).summary.totalTonnes
    ensures HandleSummary(positions, None).summary.totalValue
         == HandleSummary(positions, Some("available")).summary.totalValue
          + HandleSummary(positions, Some("retired")).summary.totalValue
  {
    SumPartition(positions, Tonnes);
    SumPartition(positions, LineValue);
  }
}
