# Portfolio summary endpoint — a verified model

This project models the one piece of real logic in a small carbon-credit
portfolio dashboard: the `GET /api/portfolio/summary` handler. The handler
reads an optional `status` query value and accepts only `"available"` or
`"retired"`. Any other value gets a 400 answer. It then selects the positions
of that status, or all positions when the value is absent. Finally it answers
with the summary of the selection: total tonnes, total value
(Σ tonnes × price per tonne) and average price per tonne.

The summary function's own file is not part of this model. Its meaning is taken
from the test suite's `calculateExpectedSummary` helper, which the endpoint's
tests require it to match. The model therefore has two independent definitions:

- `Summaries.ComputeSummary`, built on a right-recursive `Sum`, which the
  endpoint uses;
- `ExpectedSummary.CalculateExpectedSummary`, a literal rendering of the
  helper's `Array.reduce` left folds.

`ExpectedSummary.EndpointMatchesReference` proves the two agree for every
filter the tests use.

Modules:

- `Options`: `Option`, standing for `undefined` and for a non-finite number.
- `Positions`: the `Position` record, the `Status` enum and the status filter.
- `Summaries`: sums, the `Summary` record, and the algebra of the totals
  (zero on empty input, additivity, permutation invariance, the split by status,
  and the weighted-mean bound on the average).
- `SummaryEndpoint`: validation, the 400 body, truthiness of the query value,
  filtering, and the hand-off to the summary.
- `ExpectedSummary`: the test helper and its agreement with the endpoint.

Numbers are exact `real`s, not IEEE doubles. The average is an `Option<real>`.
It is `None` exactly when the total tonnes is zero: the case where the source
divides by zero and returns NaN or Infinity.

## Model

| member | source | states |
|---|---|---|
| `Positions.StatusName` | backend/src/server.ts:32 | the wire name of a status is one of the two accepted values, `"available"` or `"retired"` |
| `Positions.FilterByStatus` | backend/src/server.ts:42-43 | the selection is no longer than the store, each kept position has the requested status, and a position is kept iff it is in the store with that status |
| `Positions.FilterIsSubsequence` | backend/src/server.ts:43 | the selection is a subsequence of the store: original order, nothing invented |
| `Positions.FilterMultiplicity` | backend/src/server.ts:43 | each matching position is kept exactly as many times as it occurs; non-matching ones do not appear |
| `Positions.FilterAppend` | backend/src/server.ts:43 | filtering distributes over concatenation of position lists |
| `Positions.FilterIdempotent` | backend/src/server.ts:43 | filtering an already filtered selection by the same status changes nothing |
| `Summaries.ComputeSummary` | backend/tests/server.test.ts:12-19 | the empty selection gives zero totals and no finite average; the average is defined iff total tonnes is non-zero, and then average × total tonnes = total value |
| `Summaries.SumAppend` | backend/tests/server.test.ts:12-16 | a total over a concatenation is the sum of the totals of the parts |
| `Summaries.SumPermutation` | backend/tests/server.test.ts:12-16 | a total depends only on the multiset of positions, not their order |
| `Summaries.SumPartition` | backend/tests/server.test.ts:8-16 | a total over all positions is the available positions' total plus the retired positions' total |
| `Summaries.SummaryAppend` | backend/tests/server.test.ts:12-16 | both summary totals are additive over concatenation |
| `Summaries.SummaryPermutation` | backend/tests/server.test.ts:12-17 | permuting the positions leaves the whole summary, average included, unchanged |
| `Summaries.TotalTonnesPositive` | backend/tests/server.test.ts:12 | with positive tonnes, total tonnes is non-negative and zero exactly for the empty selection |
| `Summaries.AverageDefinedIffNonEmpty` | backend/tests/server.test.ts:17 | with positive tonnes, only an empty selection leaves the average non-finite |
| `Summaries.TotalValueAtLeast` | backend/tests/server.test.ts:12-16 | with positive tonnes, total value is at least total tonnes priced at any lower bound of the prices |
| `Summaries.TotalValueAtMost` | backend/tests/server.test.ts:12-16 | with positive tonnes, total value is at most total tonnes priced at any upper bound of the prices |
| `Summaries.AverageWithinPriceRange` | backend/tests/server.test.ts:12-17 | for a non-empty selection the average is defined and lies within any range holding every price |
| `SummaryEndpoint.StatusCode` | backend/src/server.ts:34-47 | the answer is 200 iff it carries a summary and 400 iff it is the validation error |
| `SummaryEndpoint.JoinContainsEach` | backend/src/server.ts:36 | every element of a joined list occurs in the joined string |
| `SummaryEndpoint.InvalidStatusMessage` | backend/src/server.ts:32-36 | the message reads `Status must be one of: available, retired` and contains every accepted value |
| `SummaryEndpoint.HandleSummary` | backend/src/server.ts:28-47 | an absent value summarises the whole store unchanged; the answer is 400 iff a value is present and is not exactly `available` or `retired`; the 400 body has the fixed error and message; a present accepted value summarises the positions of that status |
| `SummaryEndpoint.ErrorMessageNamesValidStatuses` | backend/src/server.ts:32-37 | every rejected value gets a 400 whose message contains both `available` and `retired` |
| `SummaryEndpoint.TruthinessAgreesWithPresence` | backend/src/server.ts:31-42 | after validation, the truthiness test that picks filtering agrees with "a value is present", so an empty string never reaches the filter |
| `SummaryEndpoint.RejectedStatusValues` | backend/tests/server.test.ts:77-97 | `invalid`, `pending`, the empty string and differently cased names are answered with 400 |
| `SummaryEndpoint.ValidStatusSelectsMatching` | backend/src/server.ts:42-46 | an accepted status summarises a subsequence of the store holding exactly the positions of that status |
| `SummaryEndpoint.UnfilteredTotalsSplitByStatus` | backend/src/server.ts:32-46 | the unfiltered totals equal the `available` totals plus the `retired` totals |
| `ExpectedSummary.ReduceLeftIsSum` | backend/tests/server.test.ts:12-16 | the `reduce` left fold from any start value equals that value plus the recursive sum |
| `ExpectedSummary.CalculateExpectedSummary` | backend/tests/server.test.ts:7-20 | the helper's reduced totals are the sums over the whole store or over the positions of the chosen status; its average is undefined iff total tonnes is zero |
| `ExpectedSummary.QueryFor` | backend/tests/server.test.ts:40-42 | "all" sends no query value, and a chosen status is always sent as an accepted value |
| `ExpectedSummary.EndpointMatchesReference` | backend/tests/server.test.ts:22-75 | for no filter, `available` and `retired`, the endpoint answers 200 with exactly the helper's summary |

## Left out

- The 2000 ms delay before the handler answers (backend/src/server.ts:26): timing only, it does not change the answer.
- Express setup, CORS and JSON middleware, the port and `app.listen` (backend/src/server.ts:7-11, 53-58): framework plumbing.
- The `GET /api/portfolio` handler (backend/src/server.ts:14-16): it returns the static list unchanged.
- The position store `positions` and the production `computeSummary`: backend/src/data/portfolio and backend/src/services/portfolioSummary are not part of this model. The store is a parameter. The summary follows the test suite's reference helper.
- Floating point: sums are exact, so `toBeCloseTo(..., 2)` becomes exact equality, and the order of additions does not matter. NaN and Infinity from a zero total are both `None`.
- Non-string query values, such as an array from a repeated `?status=`: the query value is an `Option<string>`.
- `Positions.WellFormed`: the store's positive tonnes and prices cannot be checked, since the data file is not part of this model. Lemmas that need them take them as a precondition.
- The React views src/components/PortfolioSummary.tsx and src/components/PositionsTable.tsx: rendering and `Intl.NumberFormat` formatting, both foreign library calls. The per-row value in the table is the same term as `Summaries.LineValue`.
- The client's cancellable fetch and loading state: that code is not among the modelled files.
