# Verified model of the sync, rotation, migration and evaluation protocols

This project models the parts of the platform whose correctness depends on whole runs rather than on single calls,
and proves what the code and its comments promise. `dafny verify dfyconfig.toml` checks everything.

| Component | Files | Form |
|---|---|---|
| Deputy paged sync | `DeputySync`, `DeputyRuns`, `DeputyWalk`, `DeputyBackfill`, `DeputyAnswers` | a class with one-page methods; runs as event sequences over a vendor collection edited before, between and after the moments a query is made, answered and received |
| Credential refresh | `CredentialRefresh`, `CredentialLosses` | several replicas as interleaved steps: single flight, lease, revision check, requests and resends (section 6 of RFC 6749), answers lost, late or rejected, aborts, compare-and-swap |
| Lightspeed rate governor | `RateGovernor`, `VendorBucket`, `BurstWindows`, `Waiting` | a class; the vendor's own bucket and a log of windows run beside it |
| Completeness audit | `Completeness`, `CompletenessProofs`, `CompletenessCounts` | loops over growing lists, up to one end-to-end theorem |
| Page cache and stream order | `PageCache`, `StreamOrder` | a class over an insertion-ordered map; recursion over a dependency graph |
| Fixture query engine | `Numerals`, `Decimals`, `MetricEngine`, `MetricProofs`, `MetricAggregates`, `StableSort`, `FixtureQueries`, `FixtureTotals`, `FixtureAnswers`, `FixtureAlignment`, `FixtureRows`, `FixtureWindows` | recursion with a mutable stack; grouping and alignment loops; decimals scaled by 10^4 |
| Capability key rotation | `KeyRotation`, `KeyRotationProofs`, `KeyAvailability` | a class per cell; starts, transactions, crashes, retries, time and token issue as interleaved events |
| Migration ledgers | `MigrationLedger` | a class with one open transaction; sessions lost after any statement |
| Canonical evidence | `CanonicalJson`, `CanonicalKeys`, `CanonicalEvidence`, `RetirementEvidence`, `RetirementVerdicts` | recursion over JSON values of UTF-16 code units, with a reader that inverts the printer |
| Local time and sale money | `Calendar`, `LocalTime`, `SaleMoney` | a zone is its offset function; the calendar is proleptic Gregorian |

What the environment is assumed to do:

- Deputy: one clock, `Modified` stamped at edit time, canonical distinct Ids, one request of a stream at a time, each
  answered from the collection of one moment; records may also disappear. The incremental run after an initial sync
  starts from the cursor as written, with `rangeTo` still set.
- Vault and lease: the lease is exclusive until it expires, the swap needs it and an unchanged revision and bumps the
  revision. The vendor redeems a refresh token once and refuses it afterwards. Anything else may happen: requests and
  answers are lost or late, answers are rejected, callers abort, processes die, leases expire. Runs called careful are
  those in which nothing redeemed is lost, rejected or abandoned before it is stored, no request is abandoned on its
  way, and no holder that still needs the lease loses it.
- Rate limits: levels are reals, the clock is monotone, requests are sequential, drip and bucket headers arrive together.
- Key rotation: both cells read one clock, one reading per transaction; a secret determines its fingerprint. A run is
  admitted when, against the cells as they then are, its install does not shorten the signer's key, its retirement does
  not lengthen the verifier's, the key becomes active on a whole second, and it agrees with what the runs still under
  way have to do: one contract for a key, one time for a retirement, and no retirement of a key still being installed
  unless one run alone brings it in, new to the signer, to last at least that long.
- Migrations: the advisory lock serialises runs; equal id and checksum mean equal body; ids order by their version.
- `Intl` zones, ISO weeks, `Date.parse`, `String()` of an object and text collation are function parameters.

Where the code departs from what is promised, the code was kept and the exact condition proved:

- A caller that joins a pending refresh from a newer revision than the flight's can get its own revision back
  (`NewerExactlyWhenNotAhead`).
- A refresh answer lost after redemption is asked for again with the redeemed token (`LostAnswerReplays`), and one that
  is rejected or aborted leaves the vault a redeemed token for good (`RejectedAnswerStrands`, `StrandedForever`); the
  steps that keep the promises are exactly the careful ones (`CarefulExactly`).
- An initial scan claims its window verified empty when no row in it carries a readable time, rows or not
  (`CoverageIsTrue`).
- A partial rotation run can leave a signer whose tokens are refused, when an install shortens a key or a retirement
  lengthens one (`CoverageStep`, `ShorteningInstallStrandsTokens`, `LengtheningRetirementStrandsTokens`); and a key
  activated inside a second is refused until the next one (`FreshTokenAccepted`).
- A charge that travels longer than the modelled level takes to drain, answered without headers, can leave the model
  behind the vendor (`LatencyToleratedExactly`); windows keep their burst caps exactly when the minimum is at least one
  and not above the first cap (`CapsHoldExactly`, `MinimumHoldsExactly`); a negative drip rate switches the bucket off
  (`NegativeDripNeverWaits`); `delayFor` is not pure.
- The tiling check passes a list that is no exact cover exactly when the last of several windows is inverted by more
  than one (`WronglyAcceptedExactly`).
- A stale page fetched again keeps its place in the page cache (`RefetchedStalePageGoneExactly`).
- With more than a thousand streams one can be listed before what it needs (`OutranksExactly`, `FarDependencyComesLater`).
- A repeated midnight may resolve to the second one (`RepeatedMidnight`).
- A refund fact can differ before tax from the line it reverses (`RefundMirrorsExTaxExactly`).

## Model

| member | source | states |
|---|---|---|
| `DeputySync.DeputyConnector.Sync` | connectors/deputy/index.ts:434-603 | one page step returns exactly what the stream name, cursor, clock and answer determine: the query asked, block or next cursor, the coverage a final page claims, every error case; a stream counts as live only after an unblocked page, a cost is noted only for timesheets that carry one |
| `DeputySync.DeputyConnector.BuildSearch` | connectors/deputy/index.ts:448-494 | the terms assembled step by step are the frozen window plus the keyset term; a stored continuation that is no identity is refused |
| `DeputySync.DeputyConnector.ReadPage` | connectors/deputy/index.ts:522-603 | block, `hasMore`, next cursor and coverage of an answered page, and the two observed-state sets it grows |
| `DeputySync.QueryValueRoundTrip` | connectors/deputy/index.ts:109-137 | every canonical id survives being sent as a query value, stored and read back |
| `DeputySync.CanonicalIdMeaning` | connectors/deputy/index.ts:109-121 | numbers and digit texts alike yield the canonical text of their value, within 40 digits |
| `DeputySync.MaximumIsGreatest` | connectors/deputy/index.ts:129-132 | the reduce returns a greatest id of the page, and none only for no ids |
| `DeputyRuns.ChainedRunsDeliverFinalVersions` | connectors/deputy/index.ts:447-494 | for any incremental job and any interleaving of edits, removals, clock ticks, requests, answers, receipts, lost attempts and abandoned requests, every record last edited between the first watermark and the one committed last has been returned in its current version |
| `DeputyRuns.RunCommitsItsFirstClock` | connectors/deputy/index.ts:448-450 | the bound read when the first page is asked for is the watermark the run commits, however long any page takes and whatever happens in between |
| `DeputyRuns.OpenWindowStaysFrozen` | connectors/deputy/index.ts:569-580 | no full page, repeated or abandoned request, edit or clock tick moves an open window |
| `DeputyRuns.ShortPageCommits` | connectors/deputy/index.ts:569-580 | a short page commits the upper bound and closes window and continuation |
| `DeputyRuns.PageKeepsInvariant` | connectors/deputy/index.ts:481-582 | a page received at any time after it was answered extends what was returned exactly up to its continuation, which is what the next page asks beyond |
| `DeputyRuns.KeysetAdvances` | connectors/deputy/index.ts:536-552 | an answer that honours the keyset term is never blocked |
| `DeputyWalk.ScanListsEverythingOnce` | connectors/deputy/index.ts:451-494 | over an unchanging collection of n matching rows the concatenated pages are all of them in Id order, each once, in floor(n/500)+1 requests, in every mode |
| `DeputyWalk.PageIsNextSlice` | connectors/deputy/index.ts:487-493 | each page is the next 500 rows of the listing, or all that is left |
| `DeputyWalk.ScanNeverBlocks` | connectors/deputy/index.ts:529-552 | such a vendor's pages are never taken for broken ones |
| `DeputyWalk.AnswerExists` | connectors/deputy/index.ts:451-494 | every query of a keyed collection has an answer, so the run theorems are not about nothing |
| `DeputyWalk.ContinuationsStrictlyIncrease` | connectors/deputy/index.ts:536-561 | against any server, committed non-final continuations strictly increase |
| `DeputyWalk.ScansAreFinite` | connectors/deputy/index.ts:536-561 | hence at most 10^40 pages can be committed |
| `DeputyWalk.ScanReportsOldest` | connectors/deputy/index.ts:146-154 | the oldest observed time of a finished scan is the oldest over all its pages |
| `DeputyWalk.CoverageIsTrue` | connectors/deputy/index.ts:584-603 | what the last page of an initial scan back to 1970 claims is true of the whole window: the verified oldest time is the earliest of any matching row, and empty is claimed exactly when no matching row carries a time |
| `DeputyWalk.FinalCursorByMode` | connectors/deputy/index.ts:566-583 | what a finished scan commits: the end of its range as watermark and bound after an initial scan of one, nothing after a reconciliation, no open page in any mode |
| `DeputyWalk.UnboundedScanCommitsLatest` | connectors/deputy/index.ts:555-571 | an initial scan without a range commits the latest time over all its pages |
| `DeputyBackfill.BackfillThenRunsDeliver` | connectors/deputy/index.ts:434-583 | over any interleaving of edits with an initial scan and the incremental runs after it: every record last edited from the end of the range to the last committed watermark has been returned in its current version, and so has every record of the scanned window not edited since the scan began or its range ended |
| `DeputyBackfill.PromptBackfillDeliversAll` | connectors/deputy/index.ts:434-583 | so an unwindowed backfill up to its own start and the runs after it leave out nothing but what is younger than the last committed watermark |
| `DeputyBackfill.ScanHandsOver` | connectors/deputy/index.ts:566-583 | a finished initial scan leaves exactly the cursor from which the incremental runs may start |
| `DeputyBackfill.RangesTile` | connectors/deputy/index.ts:469-480 | adjoining ranges of a windowed stream share no row and leave none out |
| `DeputyBackfill.LateEditsAreListed` | connectors/deputy/index.ts:462-468 | a late-edit reconciliation lists exactly the records last edited within its range |
| `DeputyAnswers.StreamsHaveNames` | connectors/deputy/manifest.ts:90-96 | every stream is asked for by its one name, and no other name is a stream |
| `DeputyAnswers.ClaimsExactly` | connectors/deputy/index.ts:584-603 | a finished initial scan claims a snapshot at the end of its range, or a window exhausted down to its start exactly when that is after 1970 |
| `DeputyAnswers.CostsByPage` | connectors/deputy/index.ts:523-528 | whether any row of a scan carries a cost can be told page by page |
| `DeputyWalk.ExtremesOf` | connectors/deputy/index.ts:139-154 | latest and oldest bound every parseable timestamp and are among them or the fallback |
| `CredentialRefresh.RefreshIsSafe` | connectors/deputy/index.ts:730-816 | over every careful interleaving of replicas, resends, lost requests and aborts: no refresh token is presented after it was redeemed, the vault holds the vendor's live token whenever no lease holder is between redemption and swap, and callers that do not start ahead of their flight get a newer revision |
| `CredentialRefresh.StepKeepsInvariant` | connectors/deputy/index.ts:730-816 | each careful step of any replica keeps the invariant behind that |
| `CredentialLosses.CarefulExactly` | connectors/deputy/index.ts:730-816 | from a safe state a step leaves every careful continuation safe if and only if it is careful, so no careless step can be allowed and no careful one forbidden |
| `CredentialLosses.NewerExactlyWhenNotAhead` | connectors/deputy/index.ts:734-754 | over all careful runs, a caller is promised a newer revision if and only if it did not already start ahead of the flight it joins |
| `CredentialLosses.StrandingStep` | connectors/deputy/index.ts:761-815 | from a safe state a step strands the credential at once exactly when it loses, rejects or abandons the replacement of a redeemed token, or takes the lease that protects it |
| `CredentialLosses.CutOffDecides` | services/sync-workers/src/credential-refresh-lease.ts:241-252 | a swap cut off by an abort or deadline either still lands, and the vault holds the live token, or the lease is released or expires first, and the credential is stranded |
| `CredentialLosses.LostAnswerReplays` | packages/connector-sdk/src/http.ts:164-218 | with two attempts or more, one replica without crash or lost lease replays: the answer to a redeemed request is lost and the request repeated |
| `CredentialLosses.RejectedAnswerStrands` | connectors/deputy/index.ts:779-788 | giving up on a redeemed request's answer strands the credential with nobody left mid-exchange |
| `CredentialLosses.StrandedForever` | connectors/deputy/index.ts:808-815 | a stranded credential stays so whatever runs next, and every later request presents a redeemed token |
| `CredentialLosses.TwoCheckedReplay` | connectors/lightspeed-r/index.ts:667-750 | once two processes have passed the revision check on a rotating token, one of them replays it |
| `CredentialLosses.ExpiryUnderHolderReplays` | services/sync-workers/src/credential-vault.ts:546-553 | a lease that expires under a holder whose request is on its way lets that happen |
| `CredentialLosses.SwapStoresNextRevision` | services/sync-workers/src/credential-vault.ts:454-544 | a swap that commits stores the issued token under the next revision and returns exactly that |
| `RateGovernor.LightspeedRateGovernor.DelayFor` | connectors/lightspeed-r/rate-governor.ts:118-136 | the returned wait and the whole new state; the code drips here although its comment calls it pure |
| `RateGovernor.LightspeedRateGovernor.CommitRequest` | connectors/lightspeed-r/rate-governor.ts:139-157 | the whole new state after a dispatch, with window roll-over and cap recovery |
| `RateGovernor.LightspeedRateGovernor.ObserveHeaders` | connectors/lightspeed-r/rate-governor.ts:164-184 | the snap to the vendor's own numbers, and when it is ignored |
| `RateGovernor.LightspeedRateGovernor.ClassifyThrottle` | connectors/lightspeed-r/rate-governor.ts:191-221 | the verdict and the halved cap, from the state after the attached headers |
| `RateGovernor.NothingDrains` | connectors/lightspeed-r/rate-governor.ts:118-136 | at a drip rate of zero a request is let through at some later time if and only if it fits already; otherwise it gets the clamp whenever it asks |
| `RateGovernor.NegativeDripNeverWaits` | connectors/lightspeed-r/rate-governor.ts:122-136 | at a negative drip rate the bucket never delays anything and only the burst wait counts |
| `RateGovernor.BurstWaitEndsWindow` | connectors/lightspeed-r/rate-governor.ts:128-135 | a full window waits exactly for its second to end, and no wait is over a minute |
| `VendorBucket.GovernorNeverOverfills` | connectors/lightspeed-r/rate-governor.ts:118-184 | with sequential tolerated requests and a true drip at least the modelled one, the model never falls below the vendor, so every arrival leaves the vendor's level at or under the usable part of the capacity the governor believes in |
| `VendorBucket.VendorNeverOverflows` | connectors/lightspeed-r/rate-governor.ts:118-184 | and while the vendor's capacity never drops below what it last reported, at or under the vendor's own capacity minus the headroom, or one unit |
| `VendorBucket.DispatchFits` | connectors/lightspeed-r/rate-governor.ts:118-145 | a request sent at delay zero while the model is ahead leaves the vendor at or under max(1, capacity - headroom) |
| `VendorBucket.ToleratedStepStaysAhead` | connectors/lightspeed-r/rate-governor.ts:139-184 | a request answered with headers, not charged, or whose way is no longer than the model can drain, keeps the model ahead; headers let it catch up from anywhere |
| `VendorBucket.LatencyToleratedExactly` | connectors/lightspeed-r/rate-governor.ts:224-229 | without headers, a travelling charge leaves every trailing vendor at or below the model if and only if the model held at least what drains on the way |
| `BurstWindows.WindowsRespectTheirCaps` | connectors/lightspeed-r/rate-governor.ts:128-157 | over any run that dispatches only at delay zero, with sound caps: each window holds at most the cap it opened with, windows open a second apart, and the cap stays between its minimum and its first value plus one per 12 closed windows |
| `BurstWindows.AnySecondHoldsTwoCapsAtMost` | connectors/lightspeed-r/rate-governor.ts:128-157 | with sound caps any half-open second holds at most the caps of two adjacent windows |
| `BurstWindows.CapsHoldExactly` | connectors/lightspeed-r/rate-governor.ts:128-203 | for all constructor options, every run keeps every window within its opening cap if and only if the minimum is at least one and not above the first cap |
| `BurstWindows.MinimumHoldsExactly` | connectors/lightspeed-r/rate-governor.ts:93-203 | and the cap never falls below the minimum in any run if and only if it does not start below it |
| `BurstWindows.CapIsEarnedBack` | connectors/lightspeed-r/rate-governor.ts:144-156 | over any run without a burst rejection the cap rises by exactly one for every twelve used windows that close |
| `BurstWindows.RejectionThenRecovery` | connectors/lightspeed-r/rate-governor.ts:144-203 | a burst rejection halves the cap, not below the minimum, and from there it is earned back at the same rate |
| `Waiting.WaitingReachesZero` | connectors/lightspeed-r/rate-governor.ts:118-136 | repeated waiting reaches zero in as many rounds as the full wait has minutes, and one when it is unclamped |
| `Waiting.OneRoundSuffices` | connectors/lightspeed-r/rate-governor.ts:118-136 | an unclamped wait opens both limiters at once |
| `Waiting.ClampedRoundShrinks` | connectors/lightspeed-r/rate-governor.ts:135-135 | a clamped round takes a whole minute off what is left |
| `Waiting.ReachableExactlyWhenItFits` | connectors/lightspeed-r/rate-governor.ts:122-126 | waiting can succeed if and only if the cost fits the usable capacity |
| `Waiting.BucketThrottleWaitSuffices` | connectors/lightspeed-r/rate-governor.ts:207-214 | an unclamped wait after a bucket throttle drains enough for a single-unit request |
| `Waiting.VerdictWaitsAreShortest` | connectors/lightspeed-r/rate-governor.ts:204-221 | else the wait is the shortest in which the excess and one more unit drain, or one unit when the cause is unknown |
| `Waiting.DripComposes` | connectors/lightspeed-r/rate-governor.ts:224-229 | dripping in two steps is dripping once |
| `Completeness.GapIds` | connectors/lightspeed-r/completeness.ts:60-67 | the gaps are the ids of the window the walk did not return, each once |
| `Completeness.BuildGapProbes` | connectors/lightspeed-r/completeness.ts:74-97 | the batches of the given size, refusing sizes outside 1 to 100 |
| `Completeness.ProbesCoverGapsOnce` | connectors/lightspeed-r/completeness.ts:82-95 | the batches concatenate to the gaps, none empty or over size, all but the last full |
| `Completeness.ClassifyWindow` | connectors/lightspeed-r/completeness.ts:106-137 | an id of the window the walk did not return is missed if a fetch resolved it and deleted otherwise, each listed once; complete exactly when the walk returned every id that resolved; staged, deleted and missed add up to the span |
| `Completeness.WindowIsPartitioned` | connectors/lightspeed-r/completeness.ts:111-137 | staged, deleted and missed partition the window |
| `Completeness.ShardIdRange` | connectors/lightspeed-r/scan-plan.ts:242-256 | the shards of a range, empty for an empty one, an error for a size below one |
| `Completeness.AssertWindowsTile` | connectors/lightspeed-r/completeness.ts:187-222 | succeeds exactly when the windows, sorted, adjoin from end to end |
| `Completeness.FindOrphans` | connectors/lightspeed-r/completeness.ts:229-240 | the referenced keys no parent carries, each once |
| `CompletenessProofs.TileCheckIsExact` | connectors/lightspeed-r/completeness.ts:187-222 | for non-inverted windows in any order the check passes if and only if each id lies in exactly one and none reaches outside |
| `CompletenessProofs.WronglyAcceptedExactly` | connectors/lightspeed-r/completeness.ts:187-222 | a list the check passes is no exact cover if and only if it has several windows and the last in order ends more than one before it begins |
| `CompletenessProofs.ShardsTile` | connectors/lightspeed-r/scan-plan.ts:242-256 | every sharding passes the check |
| `CompletenessProofs.AuditAddsUp` | connectors/lightspeed-r/completeness.ts:74-180 | over a sharded range whose gaps were fetched truthfully batch by batch, staged + deleted + missed is the size of the range |
| `CompletenessProofs.CompleteMeansNothingDropped` | connectors/lightspeed-r/completeness.ts:74-180 | with truthful fetches of every probe batch the audit is complete if and only if every existing id of the range was returned by a walk |
| `CompletenessCounts.TotalsCountIds` | connectors/lightspeed-r/completeness.ts:164-180 | with truthful fetches of every probe batch the three totals are the numbers of ids a walk returned, of ids that exist unreturned, and of ids that do not exist |
| `PageCache.Cache.FetchPage` | connectors/lightspeed-r/index.ts:493-539 | a hit re-inserts the page as youngest, a miss stores the answer and drops the oldest beyond 600; whether the vendor was asked |
| `PageCache.ServedPagesAreRecent` | connectors/lightspeed-r/index.ts:473-539 | over any requests a page is only served for the request it was fetched for, within an hour, and at most 600 are kept |
| `PageCache.SecondWalkAsksNothing` | connectors/lightspeed-r/index.ts:456-475 | after a cold walk of up to 600 pages, walking them again within the hour asks the vendor nothing |
| `PageCache.RefetchedStalePageGoneExactly` | connectors/lightspeed-r/index.ts:532-537 | but a stale page fetched again keeps its old place: found at place i of m and followed by k new pages it is gone if and only if i + 600 < m + k |
| `StreamOrder.DepthOf` | connectors/lightspeed-r/index.ts:78-83 | defined on every dependency graph, cyclic ones included, and at most twice the number of streams |
| `StreamOrder.NeedsAreDeclared` | connectors/lightspeed-r/index.ts:78-83 | a stream needs exactly what its last declaration lists |
| `StreamOrder.DepthIsLongestChain` | connectors/lightspeed-r/index.ts:78-83 | on acyclic graphs the depth is attained by a chain of dependencies of that length, whatever the trail |
| `StreamOrder.NoLongerChain` | connectors/lightspeed-r/index.ts:78-83 | and no chain is longer |
| `StreamOrder.DependenciesComeFirst` | connectors/lightspeed-r/index.ts:84-84 | for acyclic graphs of up to 1000 streams every listed dependency precedes each stream that needs it |
| `StreamOrder.ListedIsSorted` | connectors/lightspeed-r/index.ts:299-313 | the listing is the manifest's streams by priority |
| `StreamOrder.OutranksExactly` | connectors/lightspeed-r/index.ts:84-84 | a dependency outranks a stream if and only if it is not a thousand places later for each level between them |
| `StreamOrder.FarDependencyComesLater` | connectors/lightspeed-r/index.ts:84-84 | past a thousand places it is listed after the stream that needs it |
| `Decimals.TextRoundTrip` | packages/canonical-schema/src/decimal.ts:23-36 | every decimal survives printing and reading back |
| `Decimals.RoundedIsNearest` | packages/canonical-schema/src/decimal.ts:116-124 | rounding gives a nearest integer, halves away from zero, symmetric in the sign |
| `Decimals.ArithmeticIsNearest` | packages/canonical-schema/src/decimal.ts:79-88 | products and quotients are nearest to the true ones, and one is neutral |
| `Decimals.ReadsExactly` | packages/canonical-schema/src/decimal.ts:1-36 | a text reads exactly when, trimmed and without a minus, it is digits with at most four decimals |
| `Decimals.FractionsHaveTheirPlace` | packages/canonical-schema/src/decimal.ts:23-36 | fewer than four decimals stand for their tenths, hundredths and thousandths, with the sign of the whole |
| `MetricEngine.Evaluate` | evals/fixture-engine.ts:194-285 | terminates on every registry, returns the recursion's value and hands the stack back unchanged on every normal return |
| `MetricEngine.EvaluateAggregate` | evals/fixture-engine.ts:225-283 | the filter loop aggregates exactly the selected rows |
| `MetricAggregates.SelectKeepsExactly` | evals/fixture-engine.ts:248-251 | an aggregate sees every row that passes all its filters as often as it occurs, and no other |
| `MetricAggregates.LastValueIsNewest` | evals/fixture-engine.ts:261-272 | the last value is the sum over exactly those selected rows whose time no selected row exceeds |
| `MetricAggregates.ExtremesAreBounds` | evals/fixture-engine.ts:273-282 | minimum and maximum are cells read and bound all of them, zero over nothing, and fail exactly when a cell does not read |
| `MetricAggregates.AverageIsNearest` | evals/fixture-engine.ts:273-278 | the average is nearest to the sum over the count, halves away from zero |
| `MetricAggregates.DistinctGrows` | evals/fixture-engine.ts:253-260 | one more row counts as distinct exactly when none before it shows the same |
| `MetricAggregates.ComparisonsFollowDecimals` | evals/fixture-engine.ts:287-305 | comparisons order numbers and texts alike by the decimals they stand for |
| `MetricAggregates.ListsAreAlternatives` | evals/fixture-engine.ts:293-300 | a list of values lets through what some of its parts do; one value is equality, none is nothing |
| `MetricAggregates.TextOrder` | evals/fixture-engine.ts:262-265 | times are ordered by their first difference, a beginning before the whole |
| `MetricProofs.EvalIsDenotation` | evals/fixture-engine.ts:202-211 | on acyclic registries the stack never shows: the value is the stackless denotation |
| `MetricProofs.QueryMetricDenotes` | evals/fixture-engine.ts:120-126 | in particular from the stack a query starts with |
| `MetricProofs.FailsExactlyOnFaultyPath` | evals/fixture-engine.ts:202-231 | evaluation fails on a reference if and only if an evaluated path, skipping untaken branches, numerators over zero and what follows a failure, reaches an unknown or in-progress metric |
| `FixtureQueries.GroupRows` | evals/fixture-engine.ts:99-111 | the grouping loop, with the one empty group of an ungrouped query over no rows |
| `FixtureQueries.EvaluateSingleQuery` | evals/fixture-engine.ts:83-131 | the loops compute the answer of a single query: groups measured in the order of their keys up to the first error, then the sort, which fails exactly when some two rows cannot be compared, then the limit |
| `FixtureQueries.EvaluateCompositeQuery` | evals/fixture-engine.ts:133-192 | the loops compute the answer of a composite query: duplicate components refused, aligned rows extended in the order of their keys up to the first error, then sort and limit |
| `FixtureRows.SingleRowsShowGroups` | evals/fixture-engine.ts:113-130 | every row of an answer shows the dimensions of one group and under each metric its value over that group's rows, and unless the limit cuts every group is shown |
| `FixtureRows.CompositeRowsShowMetrics` | evals/fixture-engine.ts:170-189 | in every row each composite metric reads as its value over that row's components, defaults and the composite metrics before it |
| `FixtureRows.CompositeRowsDenote` | evals/fixture-engine.ts:170-211 | on an acyclic registry that value is the metric's stackless denotation |
| `FixtureWindows.AskedRowsExactly` | evals/fixture-engine.ts:94-97 | a query sees exactly the rows of its fact, in time, that pass every filter, each as often as it occurs |
| `FixtureWindows.TimeRangesTile` | evals/fixture-engine.ts:307-311 | adjoining time ranges share no row and leave none out; a row is in the millisecond of its instant only |
| `FixtureWindows.ActiveOrLapsed` | evals/fixture-engine.ts:313-342 | every customer with a readable last order is active or lapsed over the same days, never both |
| `FixtureWindows.UsualWindows` | evals/fixture-engine.ts:313-342 | without tenant settings active are the orders of the last 90 days, lapsed those older than 180 |
| `FixtureWindows.ResolvesExactly` | evals/fixture-engine.ts:371-383 | a full name resolves to itself, a short one to the topic's only metric of that name |
| `FixtureTotals.GroupsPartitionRows` | evals/fixture-engine.ts:99-108 | each key among the rows has exactly one group, holding its rows in order |
| `FixtureTotals.GroupingConservesTotals` | evals/fixture-engine.ts:99-128 | for sums, counts, their sums and differences and references to such metrics, all groups can be measured if and only if the ungrouped rows can, and then the values add up to the ungrouped one |
| `FixtureTotals.EvalIsParts` | evals/fixture-engine.ts:202-283 | the recursion over such a calculation succeeds exactly when every row's part reads, and is then the sum of the parts |
| `FixtureAnswers.SingleQueryConservesTotals` | evals/fixture-engine.ts:83-131 | the same for a whole answer whose limit cuts nothing |
| `FixtureAnswers.SortedIsInOrder` | evals/fixture-engine.ts:353-369 | sorting keeps rows and totals and puts them in the requested order, which is total and transitive on rows that can be compared |
| `FixtureAnswers.GroupsFollowKeys` | evals/fixture-engine.ts:113-114 | groups come in the order of their keys, the order of an answer nobody asked to sort |
| `FixtureAnswers.LimitKeepsTheFirst` | evals/fixture-engine.ts:129-130 | no row the limit drops comes strictly before one it keeps |
| `FixtureAlignment.CompositeHasEachKeyOnce` | evals/fixture-engine.ts:142-168 | each alignment key any component has is in exactly one row, and no other is |
| `FixtureAlignment.CompositeConservesTotals` | evals/fixture-engine.ts:142-182 | every component's total is kept, absent parts counting as zero, unless a composite metric takes its name |
| `FixtureAlignment.CompositeRowsAreComplete` | evals/fixture-engine.ts:176-189 | every row shows every component and composite metric |
| `FixtureAlignment.CompositeAddsUpToFixture` | evals/fixture-engine.ts:83-192 | end to end, the composite rows of an additive metric add up to it over the fixture rows, ungrouped and unaligned |
| `KeyRotation.Cell.Transact` | infra/migrations/analytical/0083_m0_m8_signed_tenant_capability_enforcement.sql:44-142 | one install or retire transaction: what it commits, or the fault that leaves the ring unchanged |
| `KeyAvailability.RetiresExactly` | infra/migrations/analytical/0083_m0_m8_signed_tenant_capability_enforcement.sql:91-123 | a retirement commits exactly with ten minutes' notice, on a key that lasts five minutes before it, when another key is usable throughout the last five |
| `KeyAvailability.InstallsExactly` | infra/migrations/analytical/0083_m0_m8_signed_tenant_capability_enforcement.sql:44-89 | an install commits exactly for a key of over five minutes, no reused name or secret, and a usable key left |
| `KeyAvailability.InstallLeavesUsableKey` | infra/migrations/analytical/0083_m0_m8_signed_tenant_capability_enforcement.sql:44-142 | after an install some key is usable at once, the ring holds what was asked, and only keys retired over ten minutes ago are dropped |
| `KeyAvailability.RetirementKeepsSigning` | scripts/provision-analytical-capability-key.ts:201-227 | over any run history a committed retirement leaves its cell a successor usable throughout the retired key's last five minutes, until a later transaction there is about that successor |
| `KeyAvailability.UsableKeySigns` | infra/migrations/control-plane/0038_m0_m8_signed_analytical_capabilities.sql:227-260 | a usable key signs any token asked to last more than two seconds, for five minutes at most |
| `KeyAvailability.SecretsStayApart` | infra/migrations/analytical/0083_m0_m8_signed_tenant_capability_enforcement.sql:66-89 | committed transactions keep different keys' secrets different and every key's secret its own |
| `KeyRotation.Provision` | scripts/provision-analytical-capability-key.ts:201-227 | a run over both cells, verifier-first then signer-first, stopped at the first fault or after any transaction |
| `KeyRotationProofs.CoverageStep` | scripts/provision-analytical-capability-key.ts:197-225 | a committed transaction keeps every live signer key covered by the verifier if and only if it neither cuts under the signer nor reaches past the verifier |
| `KeyRotationProofs.RotationsAreSafe` | scripts/provision-analytical-capability-key.ts:197-227 | from a covered pair of cells, for any events: runs started whenever admitted, one after the other or side by side, stopped after any transaction, given up and started again; the signer stays covered and every token it handed out is accepted until it expires |
| `KeyRotationProofs.RunsKeepTokensGood` | scripts/provision-analytical-capability-key.ts:197-227 | the invariant behind it: covered cells, runs in harmony over what they still have to do, tokens spanned by the signer's key |
| `KeyRotationProofs.SuccessiveRotationsAreAdmitted` | scripts/provision-analytical-capability-key.ts:201-227 | two successive rotations, the second retiring the key the first brings in, may even be under way together |
| `KeyRotationProofs.RetryIsAdmitted` | scripts/provision-analytical-capability-key.ts:197-214 | a run stopped before its key is in both cells may always be given up and started again |
| `KeyRotationProofs.FreshTokenAccepted` | infra/migrations/control-plane/0038_m0_m8_signed_analytical_capabilities.sql:240-260 | a covered key's token is accepted at once if and only if the verifier's key was active in the whole second it names |
| `KeyRotationProofs.CompletedRunAgrees` | scripts/provision-analytical-capability-key.ts:252-272 | a run that completes leaves both cells with the requested contract and retirement, whatever a crashed one left before |
| `KeyRotationProofs.ShorteningInstallStrandsTokens` | scripts/provision-analytical-capability-key.ts:197-199 | installing a key again with an earlier retirement and stopping there leaves a signer whose tokens are refused, against the comment |
| `KeyRotationProofs.LengtheningRetirementStrandsTokens` | scripts/provision-analytical-capability-key.ts:217-218 | so does a retirement later than the verifier's, stopped after the signer |
| `KeyRotationProofs.DifferentRetirementsUncover` | scripts/provision-analytical-capability-key.ts:219-226 | two runs retiring a key at different times can uncover the signer although both complete |
| `KeyRotationProofs.InstallAcrossRetirementUncovers` | scripts/provision-analytical-capability-key.ts:201-226 | so can a run installing a key another is retiring |
| `KeyRotationProofs.PrunedKeyLingersInSigner` | infra/migrations/analytical/0083_m0_m8_signed_tenant_capability_enforcement.sql:125-142 | pruning runs cell by cell, so only keys not retired for ten minutes are claimed to be in both |
| `MigrationLedger.LoadMigrations` | scripts/migrate.ts:99-127 | a non-empty directory loads in version order, and is refused exactly for a repeated version or a file that is not one explicit transaction |
| `MigrationLedger.AssertExactMigrationPrefix` | scripts/migrate.ts:130-149 | passes if and only if the ledger is how the release begins; otherwise names the first deviation and its kind |
| `MigrationLedger.ApplyTarget` | scripts/migrate.ts:326-356 | the apply loop, lost after any statement or failing in any body, commits exactly the entries it finished |
| `MigrationLedger.SessionsCommitWholeEntries` | scripts/migrate.ts:326-356 | a session lost after any number of statements leaves the entries it finished, four statements each, and no part of one |
| `MigrationLedger.RefusalsTell` | scripts/migrate.ts:130-149 | a refusal names the first place that deviates, and whether another migration stands there or the same one changed |
| `MigrationLedger.ReadsBack` | scripts/migrate.ts:326-332 | the ledger table read by version is the entries in the order they were applied |
| `MigrationLedger.RunExtendsOrRefuses` | scripts/migrate.ts:333-355 | one run either faults with nothing changed, because what is ledgered does not begin the release, or extends it |
| `MigrationLedger.LedgerMatchesSchema` | scripts/migrate.ts:326-356 | over any runs of any releases the ledger only grows and the schema is the fold of exactly the ledgered bodies |
| `MigrationLedger.LedgerIsReleasePrefix` | scripts/migrate.ts:333-356 | while one release rolls out the ledger is always a beginning of it |
| `MigrationLedger.RerunReachesUninterrupted` | scripts/admin-bootstrap-upgrades.ts:103-149 | however often interrupted first, a run that completes reaches the state of an uninterrupted one |
| `CanonicalJson.NormalIsFaithful` | scripts/retire-connector-pack-connection.ts:132-148 | a value normalises exactly when it holds nothing JSON cannot carry, and its normal form means the same |
| `CanonicalJson.NormalTwice` | scripts/retire-connector-pack-connection.ts:132-148 | normalising twice is normalising once |
| `CanonicalEvidence.SameTextSameMeaning` | scripts/retire-connector-pack-connection.ts:150-152 | two values have one text if and only if they are equal up to key order at every depth |
| `CanonicalEvidence.PrintReadsBack` | scripts/retire-connector-pack-connection.ts:150-152 | a canonical text reads back as the normal value, whatever follows it |
| `CanonicalEvidence.LiteralReadsBack` | scripts/retire-connector-pack-connection.ts:150-152 | string escaping (section 7 of RFC 8259) loses nothing, lone surrogates included |
| `CanonicalEvidence.CanonicalRoundTrip` | scripts/retire-connector-pack-connection.ts:150-152 | the text reads back to a value of the same meaning |
| `CanonicalJson.PrintsJsonObject` | scripts/retire-connector-pack-connection.ts:150-152 | objects print with the braces, quotes, colons and commas of RFC 8259 and no blanks |
| `CanonicalJson.EscapesAsJson` | scripts/retire-connector-pack-connection.ts:150-152 | exactly quotes, backslashes, controls and lone surrogates are escaped, in short where JSON has a letter for it |
| `CanonicalJson.KeysInOrder` | scripts/retire-connector-pack-connection.ts:140-146 | array indices come first and by number, other keys by their first difference |
| `CanonicalKeys.IndexKeysExactly` | scripts/retire-connector-pack-connection.ts:140-146 | a printed number is an index key exactly below 2^32 - 1 |
| `CanonicalKeys.IndexKeysAreNumbers` | scripts/retire-connector-pack-connection.ts:140-146 | there are no other index keys |
| `CanonicalKeys.IndexKeysByNumber` | scripts/retire-connector-pack-connection.ts:140-146 | sorted by code units first, an object still enumerates its index keys by number, before all other keys |
| `RetirementEvidence.EvidenceRecordsExactly` | scripts/retire-connector-pack-connection.ts:161-236 | two accepted snapshots have one evidence text if and only if they agree on everything recorded |
| `RetirementEvidence.ProgressDoesNotShow` | scripts/retire-connector-pack-connection.ts:171-173 | how far the deletion has got changes neither verdict nor text |
| `RetirementEvidence.MetadataOrderDoesNotShow` | scripts/retire-connector-pack-connection.ts:209-235 | reordering the audit metadata changes nothing |
| `RetirementVerdicts.DeletingAccepted` | scripts/retire-connector-pack-connection.ts:161-193 | with the tenant being deleted, a snapshot is accepted exactly when identity, fence and the approved deletion of the tenant are all as they must be |
| `RetirementVerdicts.DisconnectedAccepted` | scripts/retire-connector-pack-connection.ts:161-206 | otherwise exactly when the disconnect request of this very connection generation proves it |
| `RetirementVerdicts.RefusalsTell` | scripts/retire-connector-pack-connection.ts:165-206 | a refusal names a reason that holds: a wrong identity always, a missing fence whenever nothing before it is wrong |
| `RetirementVerdicts.ProofsAreDecisive` | scripts/retire-connector-pack-connection.ts:180-206 | two accepted snapshots with one tenant status and request agree on everything that proves the connection inactive |
| `RetirementVerdicts.UlidsExactly` | scripts/retire-connector-pack-connection.ts:78 | an identity is 26 characters of Crockford's base 32 |
| `RetirementVerdicts.EvidenceNames` | scripts/retire-connector-pack-connection.ts:209-230 | under which names the evidence keeps its schema, reason and four parts |
| `Calendar.CivilRoundTrip` | connectors/deputy/canonical.ts:549-549 | a date is what its day number prints as exactly when it exists |
| `Calendar.DayNumbersFollowDates` | connectors/deputy/canonical.ts:531-535 | day numbers order real dates as their texts do |
| `Calendar.MonthsHaveTheirLengths` | connectors/deputy/canonical.ts:531-535 | every month has its length, February 29 exactly in Gregorian leap years |
| `LocalTime.ZonedStartOfDay` | connectors/deputy/canonical.ts:537-576 | in any zone the loop returns its last guess exactly when that is local midnight of the date |
| `LocalTime.FindsMidnightExactly` | connectors/deputy/canonical.ts:550-575 | in a zone with at most one change nearby it finds local midnight if and only if there is one, which is unless the clock skips it |
| `LocalTime.RepeatedMidnight` | connectors/deputy/canonical.ts:550-564 | of a midnight that strikes twice it returns the first or the second by the side of the change UTC midnight is on |
| `LocalTime.TwoChangesMissMidnight` | connectors/deputy/canonical.ts:551-564 | with two changes close together it can miss a midnight that exists |
| `LocalTime.DaysAddUp` | connectors/deputy/canonical.ts:531-535 | days added one after the other are days added at once, across months, years and leap days |
| `LocalTime.MidnightsAreADayApart` | connectors/deputy/canonical.ts:537-576 | where the clock is not changed the next local midnight is exactly 24 hours later |
| `LocalTime.BusinessDateIsUnique` | connectors/lightspeed-r/canonical.ts:802-814 | the business date is the one real date d with d + cutoff <= local time < d + 1 day + cutoff |
| `LocalTime.BusinessDateIsMonotone` | connectors/lightspeed-r/canonical.ts:802-814 | later local times never have earlier business dates |
| `SaleMoney.ReturnCancelsLine` | connectors/lightspeed-r/canonical.ts:309-369 | a line and its full return cancel in every amount, rounding included |
| `SaleMoney.ZeroQuantityCancelsExactly` | connectors/lightspeed-r/canonical.ts:318-322 | a zero-quantity line does so if and only if its fallback discount is zero |
| `SaleMoney.RefundMirrorsCost` | connectors/lightspeed-r/canonical.ts:371-395 | the refund's cost mirrors the line's; amount and tax do if and only if they are not positive |
| `SaleMoney.RefundMirrorsExTaxExactly` | connectors/lightspeed-r/canonical.ts:376-393 | the refund before tax mirrors its line if and only if amount and tax are both reversals or equal |
| `SaleMoney.LineAddsUp` | connectors/lightspeed-r/canonical.ts:309-369 | gross less discount is net, net less tax is before tax, and without a vendor total gross is price times quantity to the nearest |
| `SaleMoney.DiscountHasItsSign` | connectors/lightspeed-r/canonical.ts:318-322 | allocations add up; the configured discount counts only without any, with the sign of the quantity |
| `SaleMoney.RefundHandsBack` | connectors/lightspeed-r/canonical.ts:371-395 | a refund is projected exactly for a negative quantity, in amounts not negative that are the line's |

## Left out

- DeputySync.DeputyConnector.Sync: the projection of raw rows and cursor encoding are not modelled; timestamps are parsed instants, and a coverage carries its kind and bound, from which its verification follows.
- DeputyRuns.ChainedRunsDeliverFinalVersions: assumes one clock for vendor and worker; a removed record is not claimed to be reported, since an Id-ordered walk cannot see it.
- CredentialRefresh.RefreshIsSafe: a state machine on values instead of a class over a Map of promises; which statuses are retried and the waits between attempts are not modelled, an attempt just fails; `select_account`, which writes without the lease, is not among the steps.
- RateGovernor.LightspeedRateGovernor.DelayFor: doubles are reals, so rounding and options that are not numbers are not modelled.
- RateGovernor.LightspeedRateGovernor.ObserveHeaders: headers arrive parsed; case folding and `Number` on texts are left to the caller.
- Completeness.ShardIdRange: ids are integers, so the checks for non-finite bounds and fractional sizes have nothing to refuse.
- MetricEngine.Evaluate: row numbers are integers, and comparisons read texts as decimals of at most four places; only the ASCII blanks are trimmed.
- FixtureQueries.EvaluateSingleQuery: which cell or metric a failing sort names is not modelled, nor is period comparison; keys compare by one text order given as a parameter.
- FixtureQueries.EvaluateCompositeQuery: which duplicate field is named, and keys a plain object inherits, are not modelled.
- FixtureTotals.GroupingConservesTotals: averages, distinct counts, extremes, last values, products and quotients do not add up over groups and are not claimed to.
- KeyRotation.Provision: runs with a single `--target`, which skip a cell, and the final read-only metadata comparison are not modelled.
- KeyRotationProofs.RotationsAreSafe: claims coverage for keys not retired more than ten minutes ago and for activations on whole seconds; audience, scope, evidence and revocation checks of a token are left out.
- MigrationLedger.ApplyTarget: the one-time bootstrap, role activation, readiness probes and the rewriting of control-plane bodies are not modelled.
- CanonicalJson.NormalIsFaithful: numbers are their canonical number texts, so 0 and -0 are one value; which of the two error texts is thrown first is not modelled, nor are sparse arrays.
- RetirementEvidence.EvidenceRecordsExactly: speaks of the canonical text, not of its SHA-256 digest.
- LocalTime.ZonedStartOfDay: offsets and instants are whole seconds and years below 100 are not special.
- LocalTime.BusinessDateIsUnique: the cutoff arrives as two numbers; printing a date as text is left out.
- StreamOrder.ListedIsSorted: the other fields of a listed stream are constants of the manifest.
- PageCache.Cache.FetchPage: the vendor's answer is a parameter; canonical parameter order and error mapping are left out.
- SaleMoney.ReturnCancelsLine: identifiers, references, dates and status of a line are left out, and with them the refusal of a refund without a parent line.
- The HTTP, Postgres, OAuth and storage clients, schema validation, environment parsing and the user interface: foreign calls or plain validation.
- The scan plan's grouping, capability lists, webhooks and the other connectors' mappers: mostly one-branch projections.
- The order of the two commits when a connection is retired: the control-plane transaction only reads.
