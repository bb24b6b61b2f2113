# Verification of the agent's statistics, stores and indices

A Dafny model of the parts of the repository whose correctness is not visible from
one function body: the detectors' arithmetic, the stores that change state over a
whole run, two builders that must produce one index, the byte streams behind
content hashes and record ids, and the dashboard's round-robin.

`dafny verify dfyconfig.toml` checks everything.

## What is modelled

| file | what it models |
|---|---|
| `Persist.dfy` | write-then-rename snapshots, and the debounced writer as a step machine with crashes between any two steps |
| `Identity.dfy` | login tokens, sessions, users, the sweep and restarts, each method one step |
| `IdentitySteps.dfy` | the same store at lock granularity: issuers, redeemers and sweepers interleave |
| `Insights.dfy`, `InsightStore.dfy` | the insight record; versioned upsert with a bounded history, snapshot and restore |
| `Alerts.dfy` | the dispatch window (set and queue), the bounded log, the dispatcher |
| `Pearson.dfy`, `Seasonality.dfy`, `Divergence.dfy` | correlation from raw sums, autocorrelation, and the dashboard's centred loop against the detector |
| `Robust.dfy`, `Rarity.dfy` | median, MAD, the outlier detector; percentile rank, normal band, return period |
| `TrendBreak.dfy`, `YearOverYear.dfy`, `Numerals.dfy` | the run-tracking loop; the calendar join by period key, with decimal numerals as strings |
| `Silence.dfy`, `Transparency.dfy`, `CrossSourceGaps.dfy` | the silence index, the registry builder that claims to reproduce it, the composite, and the gap detector that feeds both |
| `Cite.dfy`, `RecordValues.dfy`, `CanonicalJson.dfy`, `JsonEvidence.dfy`, `Fnv.dfy` | hash pre-images, record values as one string, key-sorted JSON, the three composed, FNV-1a record ids |
| `Diversify.dfy` | the dashboard's round-robin diversifier |
| `Collections.dfy`, `Arithmetic.dfy`, `Sorting.dfy`, `Quoting.dfy` | counting, filtering, real quotients, sorting and quoted text (section 7 of RFC 8259) used throughout |

Floating-point numbers are reals. A square root is a parameter `root` with
`IsSqrt(root, x)`; `Pearson.RootUnique` shows it is determined. The cut-off
`f64::EPSILON` is kept as 2^-52 and not replaced by zero, so statements about ties
and vanishing variances carry it. Hash functions, the JSON printer, the clock, fresh
tokens and the answers of alert sinks are parameters.

Code that changes state is imperative here too: `Disk`, `UserStore`, `InsightStore`,
`DispatchedWindow`, `AlertLog`, `AlertDispatcher`, `Hasher` and
`TransparencySignalRegistry` are classes, loops stay loops, and each method is tied
to a function of its inputs or old state about which the run-long properties are
then proved.

## Where the code and its comments differ

The model follows the code.

- `unprecedentedness.rs:35-38` says band and outlier test agree by construction. The
  factor 0.6745 (`analysis.rs:528`) prevents it for every series with a band: where
  the detector opines, outside the band implies flagged and the converse fails; where
  0.6745 MADs are below the cut-off, or there are fewer than four points, a band can
  exist while the detector is silent (`Rarity.BandAndDetector`, `Rarity.ViewsNeverAgree`).
- `unprecedentedness.rs:57` promises a percentile from 0 to 100. It passes 100 above
  all history, and points closer than the tie tolerance break bound and order
  (`Rarity.HundredPassedExactly`, `Rarity.PercentileOrderExactly`,
  `Rarity.NearTiesBreakBoundAndOrder`).
- `insight.rs:297` says `history` is oldest-first; it is newest-first. The field
  `diff_from_previous` (`insight.rs:145-147`) is `None` in every archived revision;
  the diff sits on the successor (`InsightStore.EvolutionsReplay`).
- `silence.rs:416-418` means to tell press-only from data-only gaps; the detector's
  data-only context contains "press", so data-only gaps are never counted
  (`CrossSourceGaps.DataOnlyNeverCounted`).
- `silence.rs:358-360` says a quarter also matches record ids that contain its tag, and
  `silence.rs:373` that other periods match substrings; the code matches dated ids and
  prefixes only (`Silence.QuarterSelects`, `Silence.PrefixSelects`), so an id that is
  itself a quarter's key is in no quarter (`Silence.QuarterKeysMiss`).
- `silence.rs:425-427` speaks of a press release of the same source; the code accepts
  a gap of any source and any period, and an added gap can lower a score
  (`Silence.GapCanLower`).
- `transparency.rs:113-114` speaks of four registered signals; two survive, because
  the second gap signal replaces the first (`Transparency.DefaultRegistry`). A
  signal's declared weight and its missing-day count are never consulted
  (`Transparency.DeclaredWeightsIgnored`). `transparency.rs:208-210` says
  `silence.rs::build_index` delegates to the registry builder; it calls its own.
- `analysis.rs:403-410` strips a dimension suffix before the calendar step, but the
  result is looked up among ids that keep theirs (`YearOverYear.SuffixedSeriesIsSilent`);
  years up to 1000 lose a leading zero (`YearOverYear.EarlyYearsMiss`).
- Expiry at equality: lookup and redeem accept, sweep and restore drop
  (`Identity.LookupChangesExactly`, `Identity.RedeemChangesExactly`).
- A sweep reads who is still wanted under locks it has released when it drops users
  (`identity.rs:254-273`). Whoever becomes wanted after that read loses the user: a
  token stored meanwhile (`identity.rs:152-170`, and the first issuance itself spawns a
  sweep), or a session stored by a redeem that had already marked its token
  (`identity.rs:188-205`). `IdentitySteps.UsersKeptIffSweepsReadAll` is the exact
  condition, `OrphanedByIssueInsideSweep` and `OrphanedSession` are the two runs. At
  the granularity of whole methods `Identity.RunKeepsInv` holds.
- `persist.rs:129-130` says the pending snapshot will pick up the latest data; it does
  exactly while it has not read, or its copy is current (`Persist.PendingTaskCovers`).
- The dashboard cuts a correlation off at 1e-9 per centred sum, the detector at 2^-52
  of the root (`Divergence.SameCoefficient`, `Divergence.CutOffsDiffer`).
- Names in record ids and in canonical record values are not delimited or escaped
  (`Fnv.UndelimitedFieldsCollide`, `RecordValues.RecordValuesCollide`); the values end
  themselves, so the streams tell records apart under conditions on names alone
  (`Fnv.BytesTellRecordsApart`, `RecordValues.RecordCellsDetermine`).

## Model

| member | source | states |
|---|---|---|
| `Persist.TmpPathDistinct` | crates/agent/src/persist.rs:92-99 | the temporary sibling never is the path itself, stays in its directory and belongs to one path only |
| `Persist.Disk.SnapshotToFile` | crates/agent/src/persist.rs:43-57 | the destination is the complete new encoding after success and untouched after any failure; no path but it and its sibling changes |
| `Persist.Disk.RestoreFromFile` | crates/agent/src/persist.rs:62-88 | a missing or corrupt file reads as nothing, any other as its decoded value |
| `Persist.Disk.SaveThenLoad` | crates/agent/src/persist.rs:43-88 | save then load is the identity when the save succeeds and loads the previous content when it fails |
| `Persist.RunKeepsInv` | crates/agent/src/persist.rs:131-168 | over runs of any length, crashes included: the flag is set exactly while the newest task runs and no other does, reads and landings are in order, the destination is the original or the last landed value, and the task's bytes are where its step says |
| `Persist.CrashSafe` | crates/agent/src/persist.rs:37-57 | in every reachable state the destination is the original file or one complete value that some task read, and at most one task is between winning and clearing the flag |
| `Persist.LandsInReadOrder` | crates/agent/src/persist.rs:131-168 | files land in read order; a later file never carries an older value |
| `Persist.RecoversLastLanded` | crates/agent/src/persist.rs:37-88 | a crash at any point boots with the last value whose rename happened, or with what the original file decodes to, or empty |
| `Persist.PendingTaskCovers` | crates/agent/src/persist.rs:151-167 | from any invariant state with the flag set: when the pending task has landed and is about to clear it, no crash between, the file is value number k, and k is at least as new as the value at the start if and only if the task had not read yet or its copy was still current |
| `Persist.ScheduledUpdateReachesDisk` | crates/agent/src/persist.rs:129-168 | the same at a schedule() in any reachable state: whether the current value reaches disk with this write, both directions |
| `Persist.LateScheduleIsSwallowed` | crates/agent/src/persist.rs:131-168 | between read and clear the guarantee fails: a run where a schedule() is swallowed and only the older value reaches disk |
| `Identity.UserStore.IssueToken` | crates/agent/src/identity.rs:142-172 | the whole store after issuing, and the token handed out: unredeemed, with its email and lifetime |
| `Identity.UserStore.RedeemToken` | crates/agent/src/identity.rs:177-207 | store and answer are those of the specification, in the accepting case and in all three refusals |
| `Identity.UserStore.LookupSession` | crates/agent/src/identity.rs:212-225 | the answer of the specification: unknown, expired, or the session's user |
| `Identity.UserStore.Sweep` | crates/agent/src/identity.rs:246-274 | the sweep leaves exactly the usable tokens, the unexpired sessions and the users either of them needs |
| `Identity.UserStore.TakeSnapshot` | crates/agent/src/identity.rs:300-323 | every user and every session is listed once, under its hashed key, with the bearer wiped |
| `Identity.UserStore.Restore` | crates/agent/src/identity.rs:330-343 | users and unexpired sessions of the snapshot overwrite what was there |
| `Identity.UserStore.Reboot` | crates/agent/src/identity.rs:300-343 | snapshot then restore into a new store keeps all users and exactly the unexpired sessions, without tokens or bearers |
| `Identity.OneSweepInSixteen` | crates/agent/src/identity.rs:239-245 | of any sixteen consecutive issuances in a store's life exactly one asks for a sweep (UserStore.Counted ties this to the counter, wraps included) |
| `Identity.RunKeepsInv` | crates/agent/src/identity.rs:142-343 | with whole methods as steps, every run of clients, sweeps and restarts keeps a user for each usable token and each session |
| `Identity.LoginFlow` | crates/agent/src/identity.rs:142-225 | over issue, redeem and lookup on any consistent store: a token works once and for fifteen minutes; the client is handed the bearer, minted at that moment, and looking up what it was handed gives that email's user for thirty days and nothing afterwards |
| `Identity.OthersUnaffected` | crates/agent/src/identity.rs:142-225 | issuing or redeeming one token changes no answer about another token or a bearer under another key |
| `Identity.SweepKeepsExactly` | crates/agent/src/identity.rs:246-274 | which tokens, sessions and users a sweep keeps, and that it changes none of them |
| `Identity.RestartKeepsExactly` | crates/agent/src/identity.rs:300-343 | a restart keeps every user, no token, and exactly the unexpired sessions with only the bearer wiped |
| `Identity.MaintenanceIsInvisible` | crates/agent/src/identity.rs:142-343 | over every run, sweeps and restarts at arbitrary moments change no answer at strictly later times, with nothing assumed of the session hash |
| `Identity.LookupChangesExactly` | crates/agent/src/identity.rs:219-255 | a sweep or restart at or before t changes the answer to a lookup at t if and only if it happens at t and the session expires at t |
| `Identity.RedeemChangesExactly` | crates/agent/src/identity.rs:183-252 | the same for redeeming after a sweep; a restart changes it for exactly the redeemable tokens |
| `IdentitySteps.TokenYieldsOneSession` | crates/agent/src/identity.rs:174-207 | over every interleaving the sessions stored, one for each storing step, come from different tokens, all of them issued |
| `IdentitySteps.StepKeepsBacked` | crates/agent/src/identity.rs:142-274 | at lock granularity every step keeps a user for each usable token, session and half-done issue or redeem, the last step of a sweep if and only if the sweep has read everyone wanted now |
| `IdentitySteps.UsersKeptIffSweepsReadAll` | crates/agent/src/identity.rs:142-274 | over every interleaving: users are kept throughout if and only if every sweep, when it drops users, has read everyone wanted at that moment; then the store ends consistent |
| `IdentitySteps.ApartKeepsUsers` | crates/agent/src/identity.rs:142-274 | if no issue or redeem is half done while a sweep is under way, every run ends with a user for each usable token and session |
| `IdentitySteps.IssueUndisturbed` | crates/agent/src/identity.rs:142-172 | without interference the lock-level steps of issuing are the method, and issue that token |
| `IdentitySteps.RedeemUndisturbed` | crates/agent/src/identity.rs:177-207 | the same for redeeming, for that token |
| `IdentitySteps.SweepUndisturbed` | crates/agent/src/identity.rs:246-274 | the same for the five steps of a sweep |
| `IdentitySteps.OrphanedSession` | crates/agent/src/identity.rs:177-274 | a run from the empty store, with a sweep between claim and store, that ends with a bearer no lookup resolves |
| `IdentitySteps.OrphanedByIssueInsideSweep` | crates/agent/src/identity.rs:142-274 | a run from the empty store whose issue falls inside a sweep, with an uninterrupted redeem after it, that ends the same way |
| `InsightStore.DiffEmptyIffSameContent` | crates/agent/src/insight.rs:353-392 | the diff is empty exactly when all six compared fields agree, confidence up to 0.01 |
| `InsightStore.ReplayRebuilds` | crates/agent/src/insight.rs:353-392 | replaying the diff on the old version rebuilds the new content and touches nothing else |
| `InsightStore.DiffListsExactly` | crates/agent/src/insight.rs:353-392 | a diff lists exactly the fields that differ, once each, with the value on either side |
| `InsightStore.RunKeepsInv` | crates/agent/src/insight.rs:194-263 | every batch of upserts keeps a consistent store consistent: insights under their own ids, bounded histories numbered up to the current version, first_seen set, and every version carrying the evolution from the one before it |
| `InsightStore.UpsertStoresNew` | crates/agent/src/insight.rs:243-256 | a new insight is stored as it came, as version 1, first seen as it says or else when generated |
| `InsightStore.UpsertStoresChanged` | crates/agent/src/insight.rs:201-242 | a changed insight is stored as it came in every other field, as the next version with the dated diff, and the one before, exactly as stored, is the newest of at most twenty archived |
| `InsightStore.UpsertTouchesOne` | crates/agent/src/insight.rs:199-210 | no other id is touched, and nothing at all when the content is the same |
| `InsightStore.HistoryIsContiguous` | crates/agent/src/insight.rs:194-256 | in every reachable store an id at version v has exactly versions v - min(v - 1, 20) to v - 1 archived; each of them and the current one carries its own number and its own evolution (ids, versions, time, nonempty changes), which between kept neighbours is their diff |
| `InsightStore.HistoryIsTail` | crates/agent/src/insight.rs:166-241 | the bounded store is the one that never forgets with each history cut to its last 20 entries, and there every version is linked to the one before, so also the oldest kept one to the last dropped |
| `InsightStore.EvolutionsReplay` | crates/agent/src/insight.rs:214-236 | each archived version replayed with its successor's evolution gives the successor's content |
| `InsightStore.FirstSeenNeverChanges` | crates/agent/src/insight.rs:212-250 | once stored, first_seen is set and stays the same through any later run |
| `InsightStore.TracksLatest` | crates/agent/src/insight.rs:199-243 | the last upsert of an id in any run is what the store shows, so small drifts never accumulate |
| `InsightStore.InsightStore.UpsertOne` | crates/agent/src/insight.rs:194-256 | the whole new store and the returned version, through push and drain |
| `InsightStore.InsightStore.UpsertMany` | crates/agent/src/insight.rs:258-263 | a batch is its upserts in order |
| `InsightStore.InsightStore.History` | crates/agent/src/insight.rs:299-305 | as many revisions as the limit allows, entry j the j-th newest |
| `InsightStore.InsightStore.TakeSnapshot` | crates/agent/src/insight.rs:314-325 | every insight and every history is listed once |
| `InsightStore.InsightStore.Restore` | crates/agent/src/insight.rs:328-338 | snapshot entries overwrite what was there |
| `InsightStore.InsightStore.Reboot` | crates/agent/src/insight.rs:314-338 | snapshot then restore into an empty store is the identity |
| `Alerts.DispatchedWindow.MarkId` | crates/agent/src/alerts.rs:134-146 | set, queue and answer are those of the specification |
| `Alerts.WindowOverRuns` | crates/agent/src/alerts.rs:118-147 | over every run the set equals the queue's contents, the queue is the last min(n, cap) passed ids without repetition, and any cap + 1 consecutive passed ids differ |
| `Alerts.PassesIffNotRecent` | crates/agent/src/alerts.rs:130-146 | an id passes exactly when it is not among the last cap that did |
| `Alerts.AlertLog.Record` | crates/agent/src/alerts.rs:89-95 | the log becomes the last cap of its entries and the new one |
| `Alerts.AlertLog.Recent` | crates/agent/src/alerts.rs:97-101 | the newest entries, at most the limit |
| `Alerts.DispatchedAreMarks` | crates/agent/src/alerts.rs:223-237 | what goes out are the severe insights the window lets through |
| `Alerts.GoesOutExactly` | crates/agent/src/alerts.rs:223-237 | an insight goes out exactly when it is as severe as asked, info below warning below critical, and its id is not among the last cap that went out |
| `Alerts.OneEntryPerSink` | crates/agent/src/alerts.rs:238-251 | every dispatch leaves exactly one entry per sink, in order, with the insight's id, kind and severity and that sink's status |
| `Alerts.AlertDispatcher.EvaluateOne` | crates/agent/src/alerts.rs:223-252 | an insight goes out exactly when severe and not among the last 4096 sent; then and only then every sink logs it |
| `Alerts.AlertDispatcher.Evaluate` | crates/agent/src/alerts.rs:223-252 | a batch sends what the specification says and logs one entry per sink for each |
| `Pearson.CauchySchwarz` | crates/agent/src/analysis.rs:1397-1400 | cov^2 <= var_x * var_y for every list of pairs |
| `Pearson.CoefficientBounded` | crates/agent/src/analysis.rs:1379-1410 | the coefficient never leaves [-1, 1] |
| `Pearson.CentredIsRaw` | crates/agent/src/analysis.rs:1388-1399 | n times the sums centred at the means are the raw-sum covariance and variances |
| `Pearson.CoefficientInFull` | crates/agent/src/analysis.rs:1388-1404 | past the cut-off of 2 to the -52 the coefficient times the root is n·Σxy − Σx·Σy, and the root is that of the product of the same form of either series; otherwise it is 0 |
| `Pearson.AffineCovariance` | crates/agent/src/analysis.rs:1388-1399 | scaling by s and shifting multiplies covariance by s and that variance by s squared and leaves the other |
| `Pearson.CoefficientInvariant` | crates/agent/src/analysis.rs:1379-1410 | scaling and shifting the first series keep the coefficient up to sign, if and only if not exactly one version with a covariance is cut off |
| `Pearson.CoefficientInvariantSecond` | crates/agent/src/analysis.rs:1379-1410 | the same for the second series |
| `Pearson.SwapKeepsCoefficient` | crates/agent/src/analysis.rs:1379-1410 | exchanging the series does not change the coefficient |
| `Seasonality.PeriodicSeries` | crates/agent/src/analysis.rs:1414-1424 | a series periodic at the lag has autocorrelation exactly 1, or 0 when its variance is below the cut-off |
| `Seasonality.MirroredSeries` | crates/agent/src/analysis.rs:1414-1424 | a series that comes back mirrored after the lag has autocorrelation exactly -1, or 0 below the cut-off |
| `Seasonality.AutocorrelationInFull` | crates/agent/src/analysis.rs:1414-1424 | past the cut-off the coefficient times the root is m·Σ v[i]·v[i + lag] − Σ v[..m]·Σ v[lag..], with m the length less the lag |
| `Seasonality.ConfidenceInBand` | crates/agent/src/analysis.rs:621-628 | for any coefficient that clears the threshold the confidence before its clamp is linear from 0.5 at the threshold to 1 |
| `Seasonality.DetectSeasonality` | crates/agent/src/analysis.rs:591-655 | a finding for lag 12 and for lag 4 exactly when three periods are there and the coefficient reaches the threshold, 0.6 by default; 12 first, with unclamped confidence |
| `Divergence.CentredSums` | dashboard/features.js:164-165 | the loop's three accumulators are the centred sums at the means |
| `Divergence.SameCoefficient` | dashboard/features.js:163-166 | the dashboard's coefficient equals the detector's if and only if the cut-offs fall alike or the covariance is zero |
| `Divergence.CutOffsDiffer` | dashboard/features.js:166 | two aligned close observations where the detector reports 1 and the dashboard 0 |
| `Divergence.DeltaBounded` | crates/agent/src/analysis.rs:954-957 | the latest distance is between 0 and 200 percent, 0 exactly when the values agree |
| `Divergence.DetectorInFull` | crates/agent/src/analysis.rs:936-999 | the detector's verdict without division: a hundred times the difference against the threshold, 5 by default, times the larger magnitude, past 2 to the -52; and the coefficient against 0.6 |
| `Divergence.DashboardInFull` | dashboard/features.js:147-175 | the page's verdict likewise, with its own reading of the threshold and its cut-off of 1e-9 |
| `Divergence.DashboardCoefficient` | dashboard/features.js:163-166 | past 1e-9 in both centred sums the page's coefficient times the root is the centred cross sum, otherwise it is 0 |
| `Divergence.SameDecoupling` | dashboard/features.js:166-178 | page and detector agree on decoupling if and only if the correlation cut-offs fall alike or the coefficient only one of them computes is below the floor |
| `Divergence.SameVerdict` | crates/agent/src/analysis.rs:936-999 | with equal thresholds of any sign they give the same verdicts if and only if each cut-off falls alike or makes no difference to its test; under a negative threshold (dashboard/features.js:147) the page always reports a divergence and the detector uses 5 percent, and they agree exactly where that is met |
| `Robust.MedianHalves` | crates/agent/src/analysis.rs:1360-1372 | at most half of a series is strictly below its median and at most half strictly above |
| `Robust.MedianIsMiddle` | crates/agent/src/analysis.rs:1360-1372 | twice the median is the sum of the two middle elements of the series in ascending order |
| `Robust.MadIsMedian` | crates/agent/src/analysis.rs:523-525 | the MAD is the median of the distances from the median |
| `Robust.MadHalves` | crates/agent/src/analysis.rs:523-525 | at most half of a series is farther from the median than the MAD |
| `Robust.DetectOutliers` | crates/agent/src/analysis.rs:497-586 | the findings of the specification, which DetectedInFull and FindingSays spell out |
| `Robust.DetectedInFull` | crates/agent/src/analysis.rs:504-545 | what is reported, in series order: the points at least threshold, 3.5 by default, times 0.6745 MADs from the median; nothing below four points or when 0.6745 MADs fall short of 2 to the -52 |
| `Robust.FindingSays` | crates/agent/src/analysis.rs:540-550 | a finding's signed score, that it is critical from twice the threshold on, and its confidence between two and four times the threshold |
| `Robust.ReportedIffFlagged` | crates/agent/src/analysis.rs:523-585 | a point is reported exactly when it is in the series, the detector opines and the point passes the test |
| `Robust.FlagsAtMostHalf` | crates/agent/src/analysis.rs:514-545 | for every series and every threshold above 1/0.6745 at most half the points are flagged |
| `Robust.LowThresholdFlagsAll` | crates/agent/src/analysis.rs:514-545 | at every threshold up to 1/0.6745 some series is flagged entirely, so the bound is exact |
| `Rarity.PercentileRange` | crates/agent/src/unprecedentedness.rs:103-119 | with exact ties the percentile is positive and at most 100 unless the value exceeds all history, where it is 100(1 + 1/(2n)) |
| `Rarity.PercentileInFull` | crates/agent/src/unprecedentedness.rs:103-119 | for every history the percentile is that of the mid-rank, by the points below and those within 2 to the -52 |
| `Rarity.HundredPassedExactly` | crates/agent/src/unprecedentedness.rs:103-119 | for every history, the exact condition for a percentile above 100 in terms of near ties and points clearly above |
| `Rarity.PercentileMonotone` | crates/agent/src/unprecedentedness.rs:103-119 | with exact ties a larger value never ranks lower, and ranks strictly higher if and only if some history point lies between the two, ends included |
| `Rarity.PercentileOrderExactly` | crates/agent/src/unprecedentedness.rs:103-119 | for every history, the exact condition under which a larger value ranks no lower, and strictly higher, in terms of ties lost, ties gained and points passed |
| `Rarity.NearTiesBreakBoundAndOrder` | crates/agent/src/unprecedentedness.rs:113 | near ties give 200 to a small value, 150 to a larger one, and 125 to a value history reaches |
| `Rarity.BandInFull` | crates/agent/src/unprecedentedness.rs:123-139 | a band is there exactly when the MAD clears the cut-off, around the median and k MADs to either side |
| `Rarity.BandAndDetector` | crates/agent/src/unprecedentedness.rs:123-139 | for every series with a band: a value outside it is flagged if and only if the detector opines at all; what is flagged inside is exactly the shell from 0.6745k to k MADs |
| `Rarity.ViewsNeverAgree` | crates/agent/src/unprecedentedness.rs:35-39 | for every series with a band the documented agreement fails: a flagged value inside it, or, where the detector is silent, an unflagged one outside |
| `Rarity.OneInNRange` | crates/agent/src/unprecedentedness.rs:144-172 | the return period lies between 1 and n + 1 |
| `Rarity.OneInNInFull` | crates/agent/src/unprecedentedness.rs:144-172 | the return period is n over the number of points at least as far out, rounded to the nearest with halves up, and n + 1 without any |
| `Rarity.OneInNMonotone` | crates/agent/src/unprecedentedness.rs:144-172 | moving away from the median, on either side, never shortens the return period |
| `Rarity.UnprecedentedIsOutlier` | crates/agent/src/unprecedentedness.rs:92-97 | what the full read of a series calls unprecedented is an outlier of it at the same effective multiplier, exactly unless 0.6745 MADs fall below the cut-off |
| `Rarity.UnprecedentedExactly` | crates/agent/src/unprecedentedness.rs:213-235 | from twelve points on, and only then, the score gives its readings; a value is unprecedented exactly when it lies farther out than k MADs, 3.5 by default, of a series with a band |
| `TrendBreak.DetectTrendBreak` | crates/agent/src/analysis.rs:1260-1357 | findings are precisely, and in order, the indices where a maximal run of at least max(min_run, 2) moves is followed at once by an opposite move; each reports that run and the two points |
| `TrendBreak.ReversalInFull` | crates/agent/src/analysis.rs:1273-1298 | a reversal in terms of values: m rises and then a fall, or m falls and then a rise |
| `TrendBreak.FindingInFull` | crates/agent/src/analysis.rs:1300-1347 | a finding's run in terms of values: whether it rose or fell at every move, that it is maximal, and that the last two points go the other way |
| `TrendBreak.ReversalsApart` | crates/agent/src/analysis.rs:1295-1347 | two breaks are at least m moves apart |
| `TrendBreak.FindingsBounded` | crates/agent/src/analysis.rs:1260-1357 | n findings need n times m moves before the last of them |
| `TrendBreak.BreaksInvariant` | crates/agent/src/analysis.rs:1273-1298 | negating, scaling or shifting the series leaves the break positions where they are |
| `YearOverYear.PriorYearIsCalendar` | crates/agent/src/analysis.rs:412-454 | for well-formed keys the prior-year key is exactly the key one calendar year earlier |
| `YearOverYear.EarlyYearsMiss` | crates/agent/src/analysis.rs:427-454 | for years up to 1000 the prior-year key is never the key one calendar year earlier, so the bound in well-formedness is exact |
| `YearOverYear.PriorYearExactly` | crates/agent/src/analysis.rs:403-454 | for every id whose bare key begins with a year numeral: the prior-year key, or none for year 0 and for other lengths |
| `YearOverYear.NoPriorYear` | crates/agent/src/analysis.rs:427-454 | for every other id there is none |
| `YearOverYear.IndexByPeriod` | crates/agent/src/analysis.rs:825-829 | records indexed by key, the last one winning |
| `YearOverYear.IndexKeepsLast` | crates/agent/src/analysis.rs:825-829 | the index holds the last value under each key and no other keys |
| `YearOverYear.DetectYearOverYear` | crates/agent/src/analysis.rs:808-883 | past the history gate, every record is compared with the record of its prior key, in series order |
| `YearOverYear.DetectedIffCalendarBaseline` | crates/agent/src/analysis.rs:800-883 | for distinct well-formed keys a finding at p exists exactly when there are four records more than a year's, the key one calendar year earlier has a baseline from 2 to the -52 on, and a hundred times the move is at least the threshold, 15 by default, times its magnitude |
| `YearOverYear.DetectedInOrder` | crates/agent/src/analysis.rs:830-883 | the findings come in series order, one for each record with such a baseline |
| `YearOverYear.FindingCompares` | crates/agent/src/analysis.rs:844-870 | which two records a finding compares, and its signed percent |
| `YearOverYear.FindingGrades` | crates/agent/src/analysis.rs:845-851 | a finding is critical from three times the threshold on; its confidence between two and a half and five times the threshold |
| `YearOverYear.DetectedAfterDeletion` | crates/agent/src/analysis.rs:795-819 | deleting any other record changes nothing at p, except that it silences a finding exactly when the history falls below the gate |
| `YearOverYear.DetectedAtHigherThreshold` | crates/agent/src/analysis.rs:845 | raising the threshold only removes findings |
| `YearOverYear.SuffixedSeriesIsSilent` | crates/agent/src/analysis.rs:403-454 | a series whose ids all carry a dimension suffix never gets a finding |
| `Silence.QuartersPartition` | crates/agent/src/silence.rs:392-414 | a dated record falls in exactly one quarter, that of its month |
| `Silence.QuarterSelects` | crates/agent/src/silence.rs:361-414 | a period that spells a quarter selects exactly the insights with a record id dated in it, by numerals alone |
| `Silence.QuarterOfYear` | crates/agent/src/silence.rs:361-414 | the same for four digits, "-Q" and a digit from 1 to 4 |
| `Silence.PrefixSelects` | crates/agent/src/silence.rs:361-378 | every other period selects exactly the insights with a record id that it begins, the empty one all |
| `Silence.QuarterKeysMiss` | crates/agent/src/silence.rs:398-414 | a record id that is itself a quarter's key is dated in no quarter |
| `Silence.PressOnlyExactly` | crates/agent/src/silence.rs:416-423 | evidence reads as press-only exactly when some context has "press" in it |
| `Silence.AttributedExactly` | crates/agent/src/silence.rs:436-466 | a jump is attributed exactly when some gap of any source has a record id that begins, or is begun by, the id of the jump's current point |
| `Silence.BuildIndexFromInsights` | crates/agent/src/silence.rs:233-320 | the pass into three vectors gives the index of the specification, which IndexInFull spells out |
| `Silence.IndexInFull` | crates/agent/src/silence.rs:239-320 | the whole index for any predicates that pick the gaps and jumps of the source and period: four rows with weights and backing ids, total events, raw score and score |
| `Silence.IndexAddsUp` | crates/agent/src/silence.rs:302-306 | raw score and total events add up all rows, however many |
| `Silence.SquashClosedForm` | crates/agent/src/silence.rs:350-356 | for raw >= 0 the clamp never acts: the score is 100 raw / (raw + 40), in [0, 100) |
| `Silence.SquashIncreases` | crates/agent/src/silence.rs:350-356 | strictly increasing on raw >= 0 |
| `Silence.SquashSubadditive` | crates/agent/src/silence.rs:350-356 | subadditive on raw >= 0 |
| `Silence.RawScoreCounts` | crates/agent/src/silence.rs:239-306 | raw = 3 gaps + 5 unattributed jumps in scope, however gaps are classified |
| `Silence.RawScoreIgnoresOrder` | crates/agent/src/silence.rs:233-306 | permuting the insights changes neither raw score nor score |
| `Silence.RawScoreAfter` | crates/agent/src/silence.rs:233-306 | the exact effect of one more insight: +3 for a gap, +5 for an unattributed jump, -5 per jump it explains |
| `Silence.JumpNeverLowers` | crates/agent/src/silence.rs:436-459 | adding a jump, or anything but a gap, never lowers a score |
| `Silence.GapCanLower` | crates/agent/src/silence.rs:436-459 | adding a gap can |
| `CrossSourceGaps.DetectCrossSourceGaps` | crates/agent/src/analysis.rs:271-360 | one finding per direction with an unmatched date, press first, counting all and showing up to ten |
| `CrossSourceGaps.ShownDates` | crates/agent/src/analysis.rs:300-349 | a finding shows as many unmatched dates as there are but at most ten, each once, and all of them up to ten |
| `CrossSourceGaps.DataOnlyNeverCounted` | crates/agent/src/silence.rs:252-303 | on the detector's own gaps the index never counts a data-only gap or a missing day, for any source and period |
| `Transparency.TransparencySignalRegistry.Register` | crates/agent/src/transparency.rs:90-92 | a registration replaces the earlier one of its kind or adds a new one |
| `Transparency.ReplaceExactly` | crates/agent/src/transparency.rs:90-92 | after a registration the registry holds it and, unchanged, exactly the others of other kinds |
| `Transparency.AllInKindOrder` | crates/agent/src/transparency.rs:101-109 | all signals come out once each, in character order of their kinds |
| `Transparency.DefaultRegistry` | crates/agent/src/transparency.rs:115-124 | three registrations leave the data-only and the jump signal, in that order |
| `Transparency.BuildIndexFromRegistry` | crates/agent/src/transparency.rs:211-316 | for every registry: the three synthesized rows, then one row per other registered signal |
| `Transparency.RegistryInFull` | crates/agent/src/transparency.rs:229-293 | for every registry: the three rows of the first builder, then in order one row for each signal that is not for gaps or missing days |
| `Transparency.RowInFullFor` | crates/agent/src/transparency.rs:276-293 | such a row counts the insights of the source and period of its kind that the signal includes, under the weight of its row |
| `Transparency.BuildersAgree` | crates/agent/src/transparency.rs:206-316 | both builders give the same rows up to order, raw score, score and total for every list, source, period and classifier |
| `Transparency.DeclaredWeightsIgnored` | crates/agent/src/transparency.rs:44-46 | the weight a registered signal declares never reaches an index |
| `Transparency.BuildCompositeIndex` | crates/agent/src/transparency.rs:390-433 | the events-weighted average of the per-source scores, with each source's share |
| `Transparency.BreakdownAt` | crates/agent/src/transparency.rs:396-408 | row k is the k-th source with the score and events of its own index |
| `Transparency.CompositeInFull` | crates/agent/src/transparency.rs:409-418 | the composite times the sum of events is the sum of scores times events |
| `Transparency.ShareInFull` | crates/agent/src/transparency.rs:419-425 | each share times the sum of events is the source's own events |
| `Transparency.SharesSumToOne` | crates/agent/src/transparency.rs:419-425 | the shares add up to 1 as soon as any event exists |
| `Transparency.CompositeIsBlend` | crates/agent/src/transparency.rs:409-425 | the composite is the sum of each row's score times the share printed in that row |
| `Transparency.CompositeBetween` | crates/agent/src/transparency.rs:409-418 | the composite lies between any bounds that hold for the scores of sources with events |
| `Transparency.QuietSourcesChangeNothing` | crates/agent/src/transparency.rs:386-389 | sources without events change nothing, wherever they are added |
| `Cite.ReproducibilityHash` | crates/agent/src/cite.rs:279-302 | the digest is the hash of the evidence pre-image |
| `Cite.EvidenceHash` | crates/agent/src/cite.rs:307-346 | the digest is the hash of the evidence-and-records pre-image |
| `Cite.PreImageIgnoresOrder` | crates/agent/src/cite.rs:304-346 | permuting evidence or records never changes either stream |
| `Cite.PreImageInFull` | crates/agent/src/cite.rs:304-346 | the stream in full: the evidence rows in the order of their own bytes, three parts each ended by byte 0, then the record rows likewise, two parts ended by byte 1 |
| `Cite.PreImageDetermines` | crates/agent/src/cite.rs:304-346 | for evidence free of byte 0 and records free of bytes 0 and 1, streams are equal if and only if evidence and records are equal as multisets |
| `Cite.ReproducibilityIsPrefix` | crates/agent/src/cite.rs:268-278 | the evidence-only stream is a prefix of the full one, and all of it without records |
| `Cite.ReproducibilityDetermines` | crates/agent/src/cite.rs:279-302 | for evidence free of byte 0 the evidence-only streams are equal if and only if the evidence is, as multisets |
| `Cite.ZeroByteCollides` | crates/agent/src/cite.rs:292-299 | with a zero byte in an identifier different evidence has one stream |
| `Cite.OneByteCollides` | crates/agent/src/cite.rs:337-342 | with byte one in a record id different records have one stream |
| `Cite.ZeroInRecordCollides` | crates/agent/src/cite.rs:330-342 | with zero bytes in a record id one record has the stream of a claim and another record |
| `RecordValues.ValuesInFull` | crates/agent/src/cite.rs:414-428 | the string in full: name=value joined by semicolons, names in byte order |
| `Quoting.ReadsBack` | crates/agent/src/cite.rs:430-438 | a printed text, read by the rules of section 7 of RFC 8259, is the text |
| `RecordValues.RecordValuesDetermine` | crates/agent/src/cite.rs:408-438 | the strings are equal if and only if the printed fields are, up to order, whatever quoted texts hold, when in all names of both records no ';' follows an '=' and either no quote follows an '=' at once or no quote precedes a ';' at once |
| `RecordValues.RecordCellsDetermine` | crates/agent/src/cite.rs:408-438 | the same in terms of cells with arbitrary texts, printed with quotes and escapes |
| `RecordValues.RecordValuesCollide` | crates/agent/src/cite.rs:421-426 | a ';' after an '=' in one name makes one field look like two |
| `RecordValues.TextSpreadOverNames` | crates/agent/src/cite.rs:414-426 | in one record, a quote after an '=' in one name and before a ';' in another makes two plain fields look like a text and a plain field |
| `RecordValues.MixedNamesCollide` | crates/agent/src/cite.rs:414-426 | two different records collide of which one has only names without '=' and the other only names without ';' |
| `CanonicalJson.CanonicalizeKeepsMeaning` | crates/agent/src/cite.rs:387-406 | sorting keys at every depth keeps the value's meaning |
| `CanonicalJson.CanonicalIsSorted` | crates/agent/src/cite.rs:387-406 | in a canonical form the keys of every object, at every depth, are in the order of their bytes |
| `CanonicalJson.CanonicalIffSameMeaning` | crates/agent/src/cite.rs:348-406 | two values get the same form if and only if they mean the same |
| `JsonEvidence.StreamIffSameCitation` | crates/agent/src/cite.rs:307-438 | the streams of two citations are equal if and only if they claim the same values of the same fields, up to order and key order, over records with the same ids and cells, up to order: texts in cells are arbitrary, identifiers and names hold no separator byte, and names are safe as in RecordCellsDetermine |
| `Fnv.StepBijective` | crates/connectors/src/ids.rs:26-29 | each step is a bijection on 64-bit states, with its inverse given |
| `Fnv.XorBits` | crates/connectors/src/ids.rs:26-29 | every bit of the exclusive or is set exactly when it is set in one of the two only |
| `Fnv.KnownHashes` | crates/connectors/src/ids.rs:11-36 | the published hashes of no bytes and of "a" |
| `Fnv.EmptyRecordId` | crates/connectors/src/ids.rs:43-51 | the id of a record without fields, digit by digit |
| `Fnv.OneByteChangesHash` | crates/connectors/src/ids.rs:23-36 | equal-length streams that differ in exactly one byte always hash differently |
| `Fnv.Fnv1a64With` | crates/connectors/src/ids.rs:24-31 | the loop computes the fold from any initial state |
| `Fnv.SyntheticRecordId` | crates/connectors/src/ids.rs:43-51 | the id depends only on the concatenated bytes in key order |
| `Fnv.IdIgnoresInsertionOrder` | crates/connectors/src/ids.rs:38-42 | insertion order does not matter |
| `Fnv.OneByteChangesId` | crates/connectors/src/ids.rs:43-51 | records whose ordered bytes differ in exactly one place never share an id |
| `Fnv.BytesTellRecordsApart` | crates/connectors/src/ids.rs:43-51 | records in name order feed the same bytes if and only if they are equal, for arbitrary values, when they have the same names, or no name holds "Null", "Bool(", "Int(", "Float(" or "Str(" |
| `Fnv.TokensSpelled` | crates/connectors/src/ids.rs:47 | what every value starts with as the debug printer shows it: Null, Bool(, Int(, Float( or Str( |
| `Fnv.IdOfListed` | crates/connectors/src/ids.rs:43-51 | those bytes are what the id is made of |
| `Fnv.UndelimitedFieldsCollide` | crates/connectors/src/ids.rs:45-49 | a two-field record shares its id with a one-field record |
| `Fnv.TextSpreadOverNames` | crates/connectors/src/ids.rs:45-49 | two records of two fields each share their bytes when a text of the one is spread over two names of the other |
| `Diversify.TurnTaken` | dashboard/features.js:464 | a group's turn in round d takes its element d whenever there is one below 999; the early cap of 2 never decides |
| `Diversify.SameGroupExactly` | dashboard/features.js:461 | two items share a group exactly when they agree in source, dataset and field, unless a name holds a slash |
| `Diversify.DealOut` | dashboard/features.js:460-466 | the loop terminates with the column-by-column deal cut off after maxN |
| `Diversify.DedupDiversify` | dashboard/features.js:460-466 | the output is the items at those positions |
| `Diversify.DealtLength` | dashboard/features.js:464 | as many items as the lesser of maxN and the sum over groups of min(size, 999) |
| `Diversify.EmittedOnce` | dashboard/features.js:464 | no input position is emitted twice |
| `Diversify.SharePrefix` | dashboard/features.js:464 | each group contributes a prefix of itself, in order |
| `Diversify.FairShares` | dashboard/features.js:464 | an earlier group is never behind a later one and never more than one ahead, unless the one behind is exhausted |
| `Diversify.DealOrder` | dashboard/features.js:464 | items come out by how many of their own group precede them in the input, always fewer than 999, and among equals by which group appears first |
| `Diversify.NothingWithheld` | dashboard/features.js:464 | below the limit an item is emitted exactly when it is among the first 999 of its group |

## Left out

- HTTP, middleware, webhooks, e-mail, language-model clients and telemetry: input and output around libraries that are not visible.
- SHA-256, the default hasher, token generation and JSON printing: opaque; statements are about what is fed to them. Tokens are assumed fresh.
- NaN, infinities and rounding: numbers are reals. Cadence scaling, whose point is a square root and an unseen period table.
- Integer widths of counters: versions and sequence numbers are unbounded; the issue count wraps at 64 bits. FNV states are 64-bit with wrap-around, and periods parse within 8-bit and 32-bit ranges as in the source.
- Extracting and sorting series from records (`numeric_series`, `join_key`): detectors take the list of ids and values.
- Texts of titles, summaries, percentages, labels, methodology versions and time stamps of indices.
- Slicing of non-ASCII ids, which can panic in the source: keys are ASCII strings here.
- The detectors for jumps, field correlation, benchmarks and thresholds, and `coerce_to_period`: one comparison each, settled by reading the branch.
- `last_exceeded`, `hist_min`, `hist_max`, `list`, `list_since` and the feedback store: filters and folds.
- The registry's `Clone`, which returns the default registry, and an `AlertLog` made by its derived default, which has no capacity and would fail on its first entry.
- Loss of unsynced data at power failure: a completed rename survives a crash.
- A temporary file that cannot be opened at all leaves the old one in place; here a failed write may leave any prefix, which covers it.
- Lookup reads sessions and users under separate locks; at lock granularity only issuing, redeeming and sweeping are modelled.
- JSON printing beyond quoted texts: numbers are printed by a parameter, which JsonEvidence only asks to print different values differently. The tag printed for a non-finite float is that of an equal text, which reals cannot show.
- Fnv.BytesTellRecordsApart: about the bytes fed to the hash; 64 bits cannot tell all records apart. Records with different names of which one holds "Null", "Bool(", "Int(", "Float(" or "Str(" are not covered; Fnv.UndelimitedFieldsCollide and Fnv.TextSpreadOverNames show that such names can collide.
- RecordValues.RecordCellsDetermine: pairs of records that break the condition on names are not covered: a ';' after an '=' in one name, or a quote right after an '=' in one name and a quote right before a ';' in another. RecordValuesCollide, TextSpreadOverNames and MixedNamesCollide show that each kind of such names can collide.
