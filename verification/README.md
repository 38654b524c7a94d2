# A verified model of the streaming DDoS evaluation harness

The repository evaluates a streaming DDoS detector: it turns packets and flow records into one-second
windows, keeps per-destination baselines and accumulators over them, scores the windows, and reports
statistics over scenarios and victims. This project models the parts whose correctness is not visible
in one function body, and proves what they promise over every input and every run.

| module | models |
|---|---|
| `RealMath`, `Sequences`, `FiniteSets`, `Strings`, `Options` | exact reals, stable sorting and permutations, cardinalities and sums over finite sets, Python's string order, optional values |
| `Holm` | Holm's adjustment in the three shapes the repository writes it in, against the closure of Bonferroni tests |
| `Ranks`, `SignedRank`, `RankAuc` | the tie loop, the enumerated signed-rank p-value and its floor, the rank AUC |
| `Slots` | `SlotBaseline`, against exponentially weighted mean and variance |
| `Tiers`, `ThreeTierBaseline`, `PoisonGuard`, `TierHistory`, `Readiness` | the 1 + 24 + 168 slots with the poisoning guard: the state as a value, the mutable objects that follow it, the guard over whole runs, what every slot holds after any run, and the guard by the rows that were accepted |
| `UnorderedTime` | a run whose times go backwards, on which the guard's separation fails |
| `Cusum`, `AdaptiveThreshold` | the two remaining stateful detectors |
| `Capped`, `Windows` | the window aggregator of both packet extractors, with and without memory caps |
| `Burst` | the burst EWMA: sparse passes against an engine that steps every second |
| `LitnetLoader`, `SubnetCounts` | flow records per (destination, second) and per (subnet, second), and how the two compare |
| `StreamScores` | DSPOT's drift window, EWMA smoothing, the last stage of the repository's own scorer |
| `PotArm`, `DspotArm` | two arms under excision of the attack rows: the static one, which has no memory, and DSPOT |
| `Calibration`, `Detection` | the interpolated percentile, the threshold calibrated by it, and the false-positive rate that the tier votes of the detector then have on the calibration rows |
| `CusumCalibration`, `CusumPromise` | the CUSUM multiplier calibrated by the same percentile, and the rates it keeps or breaks |
| `ClockNull` | the clock-only null under the deposited and the three-way split |
| `Episodes` | alarm episodes, over merged and over excised streams |

Conventions. Floats are exact reals and times are real seconds; display rounding is not modelled.
`sorted(...)` is either any order that sorts the keys (the results are proved not to depend on which)
or a stable insertion sort. Logarithm and square root are function parameters, and so are the
arms' scorers where a statement holds for every scorer. Objects that the source updates in place
are classes whose methods are proved to follow a function on values (`Step`, `Update`, `Add`, ...); the
lemmas about whole runs are stated over folds of those functions.

Where the code and its documentation or its evident intent differ, the model follows the code:

- config.py:88 says the calibrated threshold has a false-positive rate of at most the target on the
  calibration rows. `detect_row` flags a row when two tiers reach the threshold, or one tier together with a
  z-score a quarter beyond it, so a row that meets the threshold exactly can be flagged. Even without a z-score
  beyond the cap of 20 the promise holds for all data sets of n rows only at a target of 1
  (`Detection.RatePromise`); one row with |z| = 5 in two tiers breaks it (`Detection.RateBrokenByTie`). On rows
  whose largest |z| is no value the threshold can take it holds for all data sets of n rows exactly when
  ceil(target * (n - 1)) <= target * n (`Detection.OffGridPromise`), and fails for ten rows at the repository's own 3
  percent (`Detection.RateBrokenOffGrid`).
- pipeline.py:249 promises a CUSUM false-positive rate of at most the target on the calibration rows. While
  the upper bound of 50 cuts nothing off, that holds for all rows exactly at the targets 0 and 1, with or
  without reset (`CusumPromise.RatePromise`); what is kept is ceil(target * (m - 1)) alarmed rows for m
  normalised sums, two per feature and row (`CusumCalibration.CalibratedAlarms`). On data at large it holds only at the
  target 1 (`CusumPromise.RatePromiseAnyData`).
- pipeline.py:282 means the share of normalised sums beyond the multiplier to be at most the target. While 50
  cuts nothing off, that holds for all rows with m sums exactly when ceil(target * (m - 1)) <= target * m
  (`CusumPromise.SharePromise`), on data at large exactly when m - 1 <= target * m
  (`CusumPromise.SharePromiseAnyData`); `CusumPromise.ShareBroken` is a failing row at the default 1 percent.
- `add_packet` truncates `ts - t0` toward zero, so second 0 is two seconds wide when packets precede
  the origin. `Windows.SecondZeroIsWide` says exactly when the index is the floor.
- In `dspot_scores` the drift window never exceeds `depth` for positive `depth`; for `depth = 0` the slice
  `v[-0:]` keeps the whole training column. `StreamScores.InitialWindow` states when the bound holds.
- Two freezes of the baseline are at least 900 s and 11 accepted updates apart when time does not run
  backwards (`PoisonGuard.FreezesApart`), and the callers feed rows in time order. The code does not check the
  order, and without it both halves fail: `UnorderedTime.FreezesInOneSecond` is a run that freezes twice in
  one second with ten accepted updates from one freeze to the other. What survives in any order is an
  accepted update between them that lies 900 s after the first, and ten accepted updates
  (`PoisonGuard.FreezesSeparated`).
- For negative raw p-values, which no caller produces, Holm's running maximum starts at 0;
  `Holm.ClosureAdjusted` includes this floor.

## Model

| member | source | states |
|---|---|---|
| Holm.HolmInOrder | ComparisonResults/recompute/compare_feature_sets.py:167-175 | cap-then-max: for every order that sorts the p-values, every adjusted value is the closed-testing value: no subfamily containing the hypothesis has a larger Bonferroni p-value, and one attains it |
| Holm.Holm | ComparisonResults/recompute/compare_feature_sets.py:167-175 | the same with a stable sort, on every list |
| Holm.HolmCapLate | ComparisonResults/recompute/four_corpus_tables.py:35-40 | max uncapped, output capped: reports exactly the arms of the dict, each with its closed-testing value |
| Holm.HolmCapCarried | ComparisonResults/runners/run_corrected_benchmark_full.py:128-134 | cap after max, capped value carried: the same values again |
| Holm.StepDownIsClosure | ComparisonResults/recompute/compare_feature_sets.py:167-175 | the running maximum over sorted terms equals the maximum over all exponentially many subfamilies, at every position |
| Holm.BonferroniIs | ComparisonResults/recompute/compare_feature_sets.py:172 | the Bonferroni p-value behind the closed-testing values is min(1, number of hypotheses times the smallest p among them) |
| Holm.ClosureUnique | ComparisonResults/recompute/four_corpus_tables.py:35-40 | the closed-testing value is unique, so no copy and no tie-breaking can disagree with another |
| Holm.ClosedTesting | ComparisonResults/recompute/compare_feature_sets.py:167-175 | adjusted value <= a if and only if every intersection hypothesis containing it is rejected at level a |
| Holm.RawHolmBonferroni | ComparisonResults/runners/run_corrected_benchmark_full.py:128-134 | raw <= Holm <= the Bonferroni column, and some subfamily attains the Holm value |
| Holm.ClosureMonotone | ComparisonResults/recompute/compare_feature_sets.py:167-175 | adjustment never reorders the arms |
| Ranks.AverageRanks | ComparisonResults/recompute/compare_feature_sets.py:183-192 | the nested tie loop terminates and gives every element #smaller + (#equal + 1)/2, for every sorting order |
| Ranks.RankTotal | ComparisonResults/recompute/compare_feature_sets.py:183-192 | for any tie pattern the ranks sum to n(n+1)/2 and each is at least 1 |
| Ranks.RankSumSplit | ComparisonResults/extraction/classify_scenarios.py:113-114 | one sample's rank sum is n1(n1+1)/2 plus its won pairs plus half its tied pairs |
| SignedRank.ExactSignedRankP | ComparisonResults/recompute/compare_feature_sets.py:178-201 | returns the share of distinct sign vectors at least as far from the mean as observed, 1 when no difference is nonzero |
| SignedRank.ProductDistinct | ComparisonResults/recompute/compare_feature_sets.py:195-200 | the enumeration visits no sign vector twice |
| SignedRank.ProductComplete | ComparisonResults/recompute/compare_feature_sets.py:195-200 | and it visits every one |
| SignedRank.Floor | ComparisonResults/README.md:61-64 | with n differences that are not 0, 2/2^n <= p <= 1, p = 2/2^n if and only if no two differences have opposite signs, and p = 1 for n = 0 |
| SignedRank.OneSignFloor | ComparisonResults/README.md:61-64 | n differences of one strict sign, however small, give exactly 2/2^n |
| SignedRank.DropZerosKeeps | ComparisonResults/recompute/compare_feature_sets.py:179 | the test runs on the differences at exactly the nonzero positions, in their order |
| SignedRank.DropZerosExact | ComparisonResults/recompute/compare_feature_sets.py:179 | as a multiset, what is dropped is exactly the zeros |
| SignedRank.ObservedByPairs | ComparisonResults/recompute/compare_feature_sets.py:183-193 | W+ in pairs: twice the observed statistic is the number of ordered pairs of nonzero differences with a positive sum, a zero sum counting one half, plus the number of positive differences |
| SignedRank.WeightIsSum | ComparisonResults/recompute/compare_feature_sets.py:193-197 | a sign vector weighs the sum of exactly the ranks it sets, and mu is half the sum of all ranks |
| SignedRank.NegationInvariant | ComparisonResults/recompute/compare_feature_sets.py:178-201 | negating every difference leaves p unchanged |
| SignedRank.FiveVictims | ComparisonResults/README.md:62-64 | with at most five victims p is never below 1/16, whatever the differences |
| SignedRank.FivePercentReachable | ComparisonResults/README.md:62-64 | some outcome with n differences that are not 0 goes below 5 percent if and only if n >= 6 |
| SignedRank.ToleranceHarmless | ComparisonResults/recompute/compare_feature_sets.py:199 | the 1e-12 slack admits exactly the vectors an exact comparison admits |
| RankAuc.RankAucIsPairs | ComparisonResults/extraction/classify_scenarios.py:110-115 | the rank-sum form counts pairs a > b plus half the ties |
| RankAuc.RankAucRange | ComparisonResults/extraction/classify_scenarios.py:99-115 | in [1/2, 1] on all inputs, 1/2 when a sample is empty, and the same whichever sample comes first |
| RankAuc.PerfectIffSeparated | ComparisonResults/extraction/classify_scenarios.py:99-107 | 1.0 if and only if one sample lies strictly above the other: tied values cannot fake a perfect score |
| RankAuc.RankAucTransformed | ComparisonResults/extraction/classify_scenarios.py:99-115 | unchanged by any map that is strictly increasing on the pooled values |
| Slots.SlotBaseline.Update | ComparisonResults/baselines.py:30-41 | the object moves by one step of the recurrence, first sample included |
| Slots.FoldIsWeighted | ComparisonResults/baselines.py:30-41 | after any history: the exponentially weighted mean and the weighted variance around it, under weights that sum to 1 |
| Slots.FoldBounds | ComparisonResults/baselines.py:30-41 | for samples in [lo, hi] the mean stays there and 0 <= var <= (hi - mean)(mean - lo) |
| ThreeTierBaseline.ThreeTierBaseline.constructor | ComparisonResults/baselines.py:64-87 | for every feature list, fresh slot objects for every tier, slot and feature, none shared, in the initial state |
| ThreeTierBaseline.ThreeTierBaseline.Update | ComparisonResults/baselines.py:134-162 | recovery, freeze, feature loop over up to three tiers and poison check move the whole object graph as one pass over the feature list, and exactly as `Tiers.Update` when the list repeats no name; no other slot changes |
| ThreeTierBaseline.ThreeTierBaseline.CheckPoisoning | ComparisonResults/baselines.py:94-132 | the four exits of the check, each with its whole new guard state and all slots untouched |
| ThreeTierBaseline.CompareSlots | ComparisonResults/baselines.py:115-127 | the key-feature loop compares each mean with the reference from before the loop, advances that reference, and flags a change iff some key feature jumped |
| ThreeTierBaseline.FeedDone | ComparisonResults/baselines.py:153-160 | feeding the features one after another, tier by tier, is feeding all of them at once |
| ThreeTierBaseline.RepeatsFeedAgain | ComparisonResults/baselines.py:154-160 | a name listed several times feeds its slot once per listing |
| ThreeTierBaseline.ThreeTierBaseline.TierAllReady | ComparisonResults/baselines.py:164-169 | true if and only if every feature of tier 1 has its minimum of samples |
| PoisonGuard.RunCoherent | ComparisonResults/baselines.py:94-152 | in every reachable state frozen, poison_detected and a set detection time coincide, exactly ten changes are counted while frozen and fewer than ten otherwise, and the reference of every key feature is its tier-1 mean |
| PoisonGuard.FrozenUntouched | ComparisonResults/baselines.py:134-152 | while frozen for under 900 s an update changes nothing at all |
| PoisonGuard.TriggerExact | ComparisonResults/baselines.py:106-132 | a ready check inside its window counts if and only if some key feature's sample is that far from its prior mean m >= 1, also right after a recovery |
| PoisonGuard.JumpExact | ComparisonResults/baselines.py:119-127 | a 200 percent shift of the mean in one cycle is exactly a sample above (43/3) m or below -(37/3) m |
| PoisonGuard.DropsNeverCount | ComparisonResults/config.py:59 | on nonnegative samples only rises count |
| PoisonGuard.WindowHolds | ComparisonResults/baselines.py:98-104 | some suffix of any run holds exactly the counted changes the guard remembers, each at most 300 s past the window's start, and none before it when time is in order |
| PoisonGuard.FreezeNeedsTen | ComparisonResults/baselines.py:128-132 | every freeze of any run is preceded by ten counted updates, within 300 s when time is in order |
| PoisonGuard.AfterFreeze | ComparisonResults/baselines.py:134-152 | after a freeze of any run: still frozen since, or an update 900 s past it was accepted and no more changes are counted than updates accepted |
| PoisonGuard.AfterFreezeInOrder | ComparisonResults/baselines.py:134-152 | in time order: still frozen since, or recovered at least 900 s later with more accepted updates than counted changes |
| PoisonGuard.FreezesSeparated | ComparisonResults/baselines.py:134-152 | between two freezes of any run lies an accepted update at least 900 s after the first, and at least ten updates are accepted |
| PoisonGuard.FreezesApart | ComparisonResults/config.py:60-67 | in time order two freezes are at least 900 s and at least 11 accepted updates apart |
| Readiness.GuardExactly | ComparisonResults/baselines.py:94-152 | everything an update does to the guard, over every run: within 900 s of a freeze nothing; outside its 300 s window a new one from 0; inside, one more exactly when nine rows came before and a key feature jumps, and a freeze exactly at the tenth |
| Readiness.CountedExactly | ComparisonResults/baselines.py:106-132 | an update of a run is counted if and only if it is accepted, lies in the 300 s window, nine rows came before it and a key feature jumps |
| Readiness.CountsNeedTenRows | ComparisonResults/baselines.py:111-114 | no update is counted before ten rows are in: an unready tier 1 only renews the references |
| Readiness.FreezeNeedsNineteenRows | ComparisonResults/baselines.py:106-132 | no run freezes before its nineteenth row |
| Readiness.NineteenRowsCanFreeze | ComparisonResults/baselines.py:94-162 | and some run freezes with its nineteenth |
| Readiness.ReferenceExactly | ComparisonResults/baselines.py:98-127 | the reference of every feature after an accepted update: the new tier-1 mean for a key feature, in a new window or with fewer than ten rows; else unchanged, but for a recovery, which set it to the mean before the update |
| Readiness.UnreadyReferences | ComparisonResults/baselines.py:111-114 | while fewer than ten rows are in, every feature is next compared with its current tier-1 mean |
| UnorderedTime.FreezesInOneSecond | ComparisonResults/baselines.py:94-162 | on a run of 30 updates whose times go backwards both halves fail: two freezes in one second, ten accepted updates apart |
| UnorderedTime.TraceRuns | ComparisonResults/baselines.py:94-162 | the slot and the guard of that run after every update |
| TierHistory.RunRefines | ComparisonResults/baselines.py:153-160 | after any run every slot of every tier equals a fresh slot, with decay 0.15, 0.05 or 0.01, folded over the samples of the accepted rows of its hour or weekday-hour; a sample is the row's value, 0 when absent, and log(value + 1) for the three cardinalities |
| TierHistory.RowsPartition | ComparisonResults/baselines.py:89-92 | 24 hourly and 168 weekly slots each partition the rows, and an hour's seven weekly slots partition that hour |
| TierHistory.CountsAddUp | ComparisonResults/baselines.py:153-160 | in every reachable state the tier-1 count is the sum over 24 and over 168 slots, and each hourly count the sum of its seven weekly ones |
| TierHistory.ReadyByRows | ComparisonResults/baselines.py:164-169 | all features of a slot share one count, so a tier's slot is ready exactly when its own rows number 10, 20 or 40 |
| Cusum.CUSUMDetector.Update | ComparisonResults/detectors.py:40-75 | every tracked feature advances once from its old sums, alarms are judged before the reset, and the window alarms iff some feature does |
| Cusum.DetectorRunIs | ComparisonResults/detectors.py:40-75 | after any sequence of updates of the whole detector each feature's sums are the run of its own readings |
| Cusum.DetectorAlarmIs | ComparisonResults/detectors.py:53-75 | and the alarm a call raises for a feature is the alarm at the end of those readings |
| Cusum.NoResetClosedForm | ComparisonResults/detectors.py:55-57 | without reset each sum is the largest decayed suffix sum of the deviations, the empty suffix counting 0 |
| Cusum.NoResetAlarmIff | ComparisonResults/detectors.py:53-61 | a no-reset alarm means 30 readings and a stretch of readings, up or down, with decayed excess above h |
| Cusum.LowIsMirroredHigh | ComparisonResults/detectors.py:55-57 | s_low is s_high on negated x and mu |
| Cusum.LeakyBound | ComparisonResults/detectors.py:35-38 | with decay below 1 and deviations at most D both sums stay at or below D/(1 - decay) |
| Cusum.NoResetDominates | ComparisonResults/detectors.py:30-34 | the no-reset sums dominate the reset sums at every step of every run, from any prewarmed count |
| Cusum.ResetAlarmsSubset | ComparisonResults/detectors.py:59-73 | resetting on alarm can only lose alarms |
| Cusum.ResetRestarts | ComparisonResults/detectors.py:62-73 | with reset the sums are those of a no-reset accumulator started right after the last alarm |
| AdaptiveThreshold.AdaptiveThreshold.Detect | ComparisonResults/detectors.py:167-170 | opens an event unless one is open; nothing else changes |
| AdaptiveThreshold.AdaptiveThreshold.Clear | ComparisonResults/detectors.py:172-177 | closes an open event and records its duration; nothing else changes |
| AdaptiveThreshold.AdaptiveThreshold.Evaluate | ComparisonResults/detectors.py:179-211 | the whole new controller state after an evaluation, with its three early exits |
| AdaptiveThreshold.RunSound | ComparisonResults/detectors.py:157-211 | over every call sequence: 8 theta is an integer in [32, 80], adjustments chain from 4 to theta, and any two are at least 300 s apart |
| AdaptiveThreshold.OpenEventIs | ComparisonResults/detectors.py:167-177 | over every call sequence the open event is that of the earliest detection since the last clear, and there is none when every detection has been cleared |
| AdaptiveThreshold.RecordedDuration | ComparisonResults/detectors.py:172-177 | a clear records the time since that detection, and no other call records anything |
| AdaptiveThreshold.EvaluationExactly | ComparisonResults/detectors.py:179-211 | an evaluation in whole counts over the last sixty durations, below 10 s short and from 30 s long: when it does nothing, the steps of 0.25, 0.5 and 0.125 with their bounds, and what it records |
| AdaptiveThreshold.Direction | ComparisonResults/detectors.py:196-208 | theta rises iff more than 3/10 of the events were short and it is not at its maximum, and falls iff under 1/10 were short, over 7/10 long and it is above its start |
| Burst.FinalizeBursts | ComparisonResults/extraction/pcap_feature_extractor.py:212-238 | one pass over sorted keys with one running mean and an early exit gives each destination the means and factors of its own run that steps every second |
| Burst.LitnetBursts | ComparisonResults/litnet_loader.py:321-346 | the per-destination and per-subnet loops give the same dense run |
| Burst.StepSilent | ComparisonResults/litnet_loader.py:331-335 | leaving the silence loop early at mean 0 changes nothing; a negative gap steps nowhere |
| Burst.FormsAgree | ComparisonResults/extraction/pcap_feature_extractor.py:212-238 | the shared pass, read for one destination, is that destination's own pass |
| Burst.StartIrrelevant | ComparisonResults/extraction/pcap_feature_extractor.py:217-222 | starting the dense run earlier changes no mean |
| Burst.RunFactorRange | ComparisonResults/extraction/verify_extracted_tree.py:56-70 | in every run on nonnegative rates every factor is an integer in 0..3030 |
| Burst.FactorMaximum | ComparisonResults/extraction/verify_extracted_tree.py:56 | 3030 is attained, so the bound is exact |
| Burst.FirstTrafficReads100 | ComparisonResults/litnet_loader.py:83-88 | a destination's first window with traffic reads 100 |
| Burst.SeedReads100 | ComparisonResults/extraction/pcap_feature_extractor.py:72-80 | so does the first window after the mean has faded below 1 |
| Burst.SilentDecay | ComparisonResults/litnet_loader.py:83-84 | a silent mean falls by the factor 0.967 per second while it is at least 1 |
| Burst.BusyIsWeighted | ComparisonResults/extraction/pcap_feature_extractor.py:72-74 | from any second on, while the mean stays at least 1, it is the weighted mean of its value then and the rates since: 0.967 of the old weights is kept and 0.033 goes to each new rate |
| Burst.SeededIsWeighted | ComparisonResults/litnet_loader.py:83-84 | a second after a mean below 1 starts the mean over with its own rate, and from there it is the weighted mean of the rates alone |
| Burst.BusyBetween | ComparisonResults/extraction/pcap_feature_extractor.py:72-74 | so it stays between the least and the greatest of them |
| Burst.ConstantRate | ComparisonResults/litnet_loader.py:83-88 | a constant rate of at least 1 keeps that mean and reads 100 in every second |
| Burst.FactorIs | ComparisonResults/extraction/pcap_feature_extractor.py:77-80 | factor * mean <= 100 rate < (factor + 1) * mean for a positive mean, and 100 without one |
| Burst.SilenceReachesZero | ComparisonResults/litnet_loader.py:332-335 | it is 0 for good after more than (mean - 1)/0.033 silent seconds |
| Capped.CappedSet.Add | ComparisonResults/extraction/pcap_feature_extractor_cicids2018.py:93-95 | held items stay, nothing but the new item enters, and it is missing only if it was new at the cap |
| Capped.CappedCounter.Put | ComparisonResults/extraction/pcap_feature_extractor_cicids2018.py:83-85 | other keys keep their counts, and the key gets its value unless it was new at the cap |
| Capped.CappedCounter.Bump | ComparisonResults/extraction/pcap_feature_extractor_cicids2018.py:78-85 | `counter[k] += 1` through the missing-key default and the capped assignment |
| Capped.SetHolds | ComparisonResults/extraction/pcap_feature_extractor_cicids2018.py:88-98 | after any sequence of additions the set holds exactly min(cap, distinct) of the distinct items |
| Capped.ExactIffFits | ComparisonResults/extraction/pcap_feature_extractor_cicids2018.py:88-98 | a capped set loses nothing if and only if the distinct items fit |
| Capped.CounterHolds | ComparisonResults/extraction/pcap_feature_extractor_cicids2018.py:78-85 | a capped counter keeps the keys a capped set would, each with its true multiplicity |
| Windows.WindowAggregator.AddPacket | ComparisonResults/extraction/pcap_feature_extractor.py:134-210 | one packet changes its own window, its destination's seen sources and the time origin, and nothing else |
| Windows.WindowsSeparate | ComparisonResults/extraction/pcap_feature_extractor.py:134-145 | in every run each window is the tally of exactly the packets of its destination and second, and exists exactly where one fell |
| Windows.TalliedContainers | ComparisonResults/extraction/pcap_feature_extractor.py:186-199 | a window's source and port counters, engine flow keys and 5-tuples are the capped folds of its packets' projections |
| Windows.TalliedCounters | ComparisonResults/extraction/pcap_feature_extractor.py:147-204 | the plain counters and attack labels are folds of the window's packets that the cap does not touch |
| Windows.TalliedCounts | ComparisonResults/extraction/pcap_feature_extractor.py:147-188 | every protocol counter counts its packets, the four protocols partition them, and bytes and TTLs are summed over all packets |
| Windows.TalliedFlags | ComparisonResults/extraction/pcap_feature_extractor.py:161-179 | the SYN, SYN-ACK and ACK counters count theirs and nest within TCP |
| Windows.TalliedRest | ComparisonResults/extraction/pcap_feature_extractor.py:149-184 | the small, fragment, echo, RST and FIN counters count theirs within their protocol |
| Windows.TalliedAttacks | ComparisonResults/extraction/pcap_feature_extractor.py:200-202 | attack flows are the 5-tuples of the attack packets |
| Windows.TalliedLabels | ComparisonResults/extraction/pcap_feature_extractor.py:203-205 | every nonempty label of an attack packet is counted once per such packet, and no other label |
| Windows.DistinctChain | ComparisonResults/extraction/verify_extracted_tree.py:73-76 | in every window of every run, capped or not, 1 <= packets and unique sources <= engine flows <= 5-tuple flows <= packets, each distinct count being min(cap, distinct) |
| Windows.CapInvisible | ComparisonResults/extraction/pcap_feature_extractor_cicids2018.py:101-120 | in every run the capped extractor holds the windows of the uncapped one, and a window is identical, all counters, ports and new sources included, if and only if its distinct 5-tuples fit under the cap |
| Windows.Conservation | ComparisonResults/extraction/pcap_feature_extractor.py:206-210 | packets over all windows number the trace, and a destination's per-window new sources add up to its distinct sources in any arrival order |
| Windows.NewSourcesAre | ComparisonResults/extraction/pcap_feature_extractor.py:206-210 | a window's new sources are its packets that are a source's first to that destination in order of arrival |
| Windows.SecondZeroIsWide | ComparisonResults/extraction/pcap_feature_extractor.py:138 | the index is the floor iff the packet is not before the origin or lies whole seconds from it, and the ceiling before it; index 0 is an open interval of two seconds |
| LitnetLoader.LoadPerIp | ComparisonResults/litnet_loader.py:244-293 | the nested dict holds, for every destination and second, the fold of exactly its records, and an entry exactly where there is one |
| LitnetLoader.LoadPerSubnet | ComparisonResults/litnet_loader.py:405-462 | the same per subnet, skipping unkept and unparseable destinations |
| LitnetLoader.ColumnsAlike | ComparisonResults/litnet_loader.py:443-480 | both builders keep the same protocol, port, duration and attack columns for the same records |
| LitnetLoader.ColumnSums | ComparisonResults/litnet_loader.py:282-304 | the protocol columns sum the packets of their protocol and the durations those that are positive |
| LitnetLoader.ColumnCounts | ComparisonResults/litnet_loader.py:298-304 | positive durations, records without an answer and attack records are counted exactly |
| LitnetLoader.ColumnNames | ComparisonResults/litnet_loader.py:295-307 | the port column holds the distinct ports, and every attack name other than the empty one and "none" is counted exactly as often as it occurs |
| LitnetLoader.Totals | ComparisonResults/litnet_loader.py:276-281 | in both builders packets and bytes are the sums over both directions of all records |
| LitnetLoader.Selected | ComparisonResults/litnet_loader.py:262-274 | an owner's records of a second, with multiplicity: the kept records sent to it, or to a kept address of the subnet |
| SubnetCounts.SubnetVersusDestinations | ComparisonResults/litnet_loader.py:455-462 | in one second of one subnet N <= T <= 2N, T = N iff no two records run between the same two addresses in opposite directions, and flows, packets and bytes add up exactly |
| SubnetCounts.SourcesAreUnion | ComparisonResults/litnet_loader.py:453-456 | the subnet's sources are the true union: at least each destination's count, at most their sum |
| SubnetCounts.KeysAtLeastHalf | ComparisonResults/litnet_loader.py:457-461 | an unordered flow key stands for one or two directed flows |
| SubnetCounts.ExactUnlessReversed | ComparisonResults/litnet_loader.py:457-461 | unordered and directed flows agree in number iff no reverse pair of different addresses occurs |
| Calibration.CalibrateThreshold | ComparisonResults/pipeline.py:221-245 | a multiple of one half in [4, 20]; below 20 at most ceil(target (n-1)) of the n calibration rows have a z beyond it on either side; 4 with no rows |
| Calibration.PeakIsLargest | ComparisonResults/pipeline.py:229-236 | a row's largest |z| bounds every z on both sides and is one of them up to sign; 0 for a row without any |
| Calibration.PeaksAboveAreRows | ComparisonResults/pipeline.py:229-236 | counting such peaks above v is counting rows with a z beyond v on either side |
| Calibration.ThetaMirrored | ComparisonResults/pipeline.py:221-245 | turning the sign of every z leaves the threshold |
| Calibration.ExceedanceBound | ComparisonResults/extraction/run_cicids2017_pool_audit.py:74-87 | at most ceil(target (n-1)) of n sorted values lie above the interpolated percentile |
| Calibration.ExceedanceTight | ComparisonResults/extraction/run_cicids2017_pool_audit.py:74-87 | attained for every size and target |
| Calibration.ExceedancePromise | ComparisonResults/pipeline.py:237-245 | for every n and target, on all data sets of n rows without a z-score beyond 20 at most the target share of rows exceeds the returned threshold, if and only if ceil(target (n-1)) <= target n |
| Calibration.AllowanceReached | ComparisonResults/pipeline.py:237-245 | for every n and target some such rows let exactly ceil(target (n-1)) rows exceed the returned threshold |
| Calibration.ExceedanceBroken | ComparisonResults/pipeline.py:237-245 | nine rows with a largest z of 5 and one of 10: the threshold is 9 and one row in ten exceeds it at 3 percent |
| Calibration.CapBreaksExceedance | ComparisonResults/pipeline.py:245 | with z-scores beyond the cap allowed, all data sets of n rows keep that share if and only if the target is 1 |
| Detection.DetectRow | ComparisonResults/pipeline.py:163-184 | the loop over the tiers returns the number of tiers with a z at the threshold or further out on either side, detects with two such tiers or one tier a quarter beyond it, and returns the largest |z| of all |
| Detection.DetectedExactly | ComparisonResults/pipeline.py:178-182 | a row is detected if and only if two tiers reach the threshold or some tier reaches 1.25 times it, on either side |
| Detection.LargestOfRow | ComparisonResults/pipeline.py:174-176 | no z of any tier is further out than the returned maximum, and one is as far unless there is none |
| Detection.DetectedMirrored | ComparisonResults/pipeline.py:163-184 | turning the sign of every z changes no detection |
| Detection.DetectedBetween | ComparisonResults/pipeline.py:167-184 | a detected row has a z at the threshold, and a z a quarter beyond it is always detected |
| Detection.TiesFlagged | ComparisonResults/pipeline.py:178-182 | n rows with a z of 5 in two tiers calibrate the threshold to 5 at every target, and all n are flagged |
| Detection.RatePromise | ComparisonResults/config.py:88-89 | the detector with the calibrated threshold keeps the documented rate on all data sets of n rows without a z beyond 20 if and only if the target is 1 |
| Detection.FlaggedAllowance | ComparisonResults/pipeline.py:178-184 | when no largest z equals the threshold and none exceeds 20, at most ceil(target (n-1)) calibration rows are flagged |
| Detection.OffGridPromise | ComparisonResults/config.py:88-89 | on rows whose largest z is no multiple of one half from 4 up, and not beyond 20, the documented rate holds for all data sets of n rows if and only if ceil(target (n-1)) <= target n |
| Detection.RateBrokenByTie | ComparisonResults/config.py:88-89 | at 3 percent one row with a z of 5 in two tiers gives the threshold 5 and is flagged |
| Detection.RateBrokenOffGrid | ComparisonResults/config.py:88-89 | at 3 percent nine rows at 4.4 and one at 8.6, each in two tiers, give the threshold 7.5, and the last is flagged |
| CusumCalibration.CalibrateCusumH | ComparisonResults/pipeline.py:248-286 | a multiple of one half in [5, 50] from the normalised sums of all rows and features; below 50 at most ceil(target (m-1)) of the m sums exceed it |
| CusumCalibration.AccumulateRatios | ComparisonResults/pipeline.py:253-277 | the two nested loops collect the normalised no-reset sums of every feature's own readings, row by row, skipping features without deviation |
| CusumCalibration.CalibratedAlarms | ComparisonResults/pipeline.py:248-249 | over its calibration rows, from any prewarmed count and with or without reset, the detector with that multiplier alarms on at most ceil(target (m-1)) rows unless 50 cut the multiplier, and on none when no feature has a deviation |
| CusumPromise.RatePromise | ComparisonResults/pipeline.py:248-249 | while 50 cuts nothing off, the documented rate holds for all n rows of d features, and every prewarmed count, if and only if the target is 0 or 1; for the detector with and without reset |
| CusumPromise.RatePromiseAnyData | ComparisonResults/pipeline.py:286 | on data at large if and only if the target is 1 |
| CusumPromise.SharePromise | ComparisonResults/pipeline.py:282-286 | while 50 cuts nothing off, the intended share holds for all rows with 2k sums if and only if ceil(target (2k-1)) <= target 2k, for every k and target |
| CusumPromise.SharePromiseAnyData | ComparisonResults/pipeline.py:282-286 | on data at large if and only if 2k - 1 <= target 2k: all sums but one can exceed the multiplier |
| CusumPromise.SpreadReached | ComparisonResults/pipeline.py:261-277 | k rows of one feature reach any number of high sums below 2k, at any level |
| CusumPromise.ShareBroken | ComparisonResults/pipeline.py:282-286 | one reading of 1.21 under a mean of 10 and deviation 1: sums 0 and 8.54, multiplier 8.5, one sum in two exceeds it at 1 percent |
| ClockNull.ClockIs | ComparisonResults/runners/run_clock_split_sensitivity.py:48-53 | the clock AUC times the class pairs is the number of attack-before-benign pairs; error and one-class cases exactly |
| ClockNull.PerfectIffTwoRuns | ComparisonResults/runners/run_clock_null.py:50-55 | clock separability is 1 iff the labels form exactly two runs |
| ClockNull.ThreewayShape | ComparisonResults/runners/run_clock_split_sensitivity.py:56-69 | the three-way stream is the deposited one behind k benign windows, a rounded-up fifth of those before the attack: the final sort moves nothing |
| ClockNull.StreamsAre | ComparisonResults/runners/run_clock_split_sensitivity.py:56-69 | across days both streams are the whole one; within a day, with the first attack at i, they start at i and at floor(4 i / 5); without an attack there are none |
| ClockNull.ClockIdentity | ComparisonResults/runners/run_clock_split_sensitivity.py:48-69 | AUC_threeway (nb + k) = AUC_deposited nb, and what happens when nb = 0 |
| ClockNull.ThreewayLowers | ComparisonResults/runners/run_clock_split_sensitivity.py:56-69 | the three-way split never raises the clock AUC, and exactly when it lowers it |
| Episodes.StartsAreEpisodes | ComparisonResults/runners/run_adjacency_free_episodes.py:39-59 | one start per episode, on any list of positions |
| Episodes.StartsAreOpeners | ComparisonResults/runners/run_adjacency_free_episodes.py:53-59 | the starts are, in increasing order, exactly the flagged positions with no flagged position in the cooldown before them |
| Episodes.EpisodesAreOpeners | ComparisonResults/runners/run_adjacency_free_episodes.py:39-50 | episodes are exactly the flagged positions with no flagged position in the cooldown before them, in any order and with repeats; a negative cooldown makes every listed position its own |
| Episodes.FlagsAndPositions | ComparisonResults/runners/run_adjacency_free_episodes.py:33-50 | the flag counter and the position counter agree |
| Episodes.EpisodesFit | ComparisonResults/runners/run_corrected_benchmark_full.py:43-45 | E episodes in N windows satisfy (E - 1)(cooldown + 1) + 1 <= N |
| Episodes.CooldownAntitone | ComparisonResults/runners/run_adjacency_free_episodes.py:33-36 | a longer cooldown never yields more episodes |
| Episodes.CompactionShrinks | ComparisonResults/runners/run_adjacency_free_episodes.py:39-50 | counting over the compacted benign-only index never gives more episodes than over merged-stream positions |
| Episodes.FlaggedPositions | ComparisonResults/runners/run_adjacency_free_episodes.py:87-100 | merged, the flagged positions are the benign ones whose score is above the calibration percentile; excised, the score is the one at their rank among the benign windows |
| Episodes.MemorylessUnchanged | ComparisonResults/runners/run_adjacency_free_episodes.py:87-100 | an arm that scores each row by itself flags the same positions, and counts the same episodes, with and without excision |
| PotArm.PotScores | ComparisonResults/competitors_fixed.py:87-101 | the loop over columns gives every row the largest (value - threshold)/scale of its own values, or 0 |
| PotArm.RowScoreIs | ComparisonResults/competitors_fixed.py:96-101 | the same of one row, over its first d features |
| PotArm.PositiveIffExceeds | ComparisonResults/competitors_fixed.py:99-100 | a score is never negative, and positive iff some feature of the row is above its threshold |
| PotArm.ExcisionUnseen | ComparisonResults/runners/run_adjacency_free_episodes.py:87-100 | for every fit, stream and labelling this arm flags the same positions, and counts the same episodes, with and without excision |
| DspotArm.ScoresExcised | ComparisonResults/competitors_fixed.py:104-141 | when every attack row alarms in every column, the excised stream scores exactly as the merged stream with the attack scores taken out |
| DspotArm.ExcisionUnseen | ComparisonResults/runners/run_adjacency_free_episodes.py:87-100 | DSPOT then flags the same benign positions and counts the same episodes with and without excision |
| StreamScores.DspotScores | ComparisonResults/competitors_fixed.py:104-141 | the nested loops give every row the largest over columns of (value - drift - threshold)/scale, or 0, the drift being the mean of the column's last unalarmed values before it |
| StreamScores.DspotColumn | ComparisonResults/competitors_fixed.py:127-139 | one column: every score is max(0, (value - mean of the window - threshold)/scale), the window being the last of the training tail and the earlier values whose score is 0, depth of them, or as many as the tail has if it is longer |
| StreamScores.WindowIs | ComparisonResults/competitors_fixed.py:127-139 | the drift window after any run: the last unalarmed values, the training tail counting as unalarmed |
| StreamScores.ScoresAre | ComparisonResults/competitors_fixed.py:130-139 | every score of every column by the values and the scores before it alone |
| StreamScores.AlarmIffExceeds | ComparisonResults/competitors_fixed.py:132-140 | a row alarms if and only if some column's value is above the mean of its window by more than the threshold |
| StreamScores.TrainResidualIs | ComparisonResults/competitors_fixed.py:120-124 | a training residual is the distance from the mean of the depth values before it, or of all of them while there are fewer; the first is 0 |
| StreamScores.FitExceeded | ComparisonResults/competitors_fixed.py:97-98 | at most ceil((1 - q)(n - 1)) of n training values exceed their threshold |
| StreamScores.FitColumnExceeded | ComparisonResults/competitors_fixed.py:120-126 | the same for the training residuals of a DSPOT column |
| StreamScores.FitScale | ComparisonResults/competitors_fixed.py:74-84 | the scale comes from exactly the excesses over the threshold: their moments when there are more than two, else the deviation of all values and at least 0.1 |
| StreamScores.MomentsMatched | ComparisonResults/competitors_fixed.py:74-84 | with more than two excesses, before the floor of 0.01, it is the scale of the generalised Pareto distribution that has their mean and variance (plus 1e-8) |
| StreamScores.DeleteAlarms | ComparisonResults/competitors_fixed.py:107-115 | deleting any set of alarming windows changes no remaining score and not the drift window |
| StreamScores.DeleteAlarmingRows | ComparisonResults/competitors_fixed.py:104-141 | the same over all features, for rows that alarm in every column |
| StreamScores.CombinedPrefix | ComparisonResults/competitors_fixed.py:104-141 | appending test rows changes no earlier score |
| StreamScores.WindowBounded | ComparisonResults/competitors_fixed.py:136-139 | a drift window that starts within depth never exceeds it, over every stream |
| StreamScores.InitialWindow | ComparisonResults/competitors_fixed.py:127 | the initial window is within depth for every training column iff depth > 0 |
| StreamScores.WindowSlides | ComparisonResults/competitors_fixed.py:136-139 | without alarms it is the last depth values seen |
| StreamScores.Ewma | ComparisonResults/competitors_fixed.py:270-275 | the loop outputs the smoothed state after every window, from state 0 |
| StreamScores.EwmaIsWeighted | ComparisonResults/competitors_fixed.py:270-275 | output i is the weighted mean of 0 and the values up to i, with the weights of a slot |
| StreamScores.SmoothBetween | ComparisonResults/competitors_fixed.py:270-275 | the state stays among the values smoothed and the one begun at, so a constant stream from its own value stays there |
| StreamScores.SmoothPrefix | ComparisonResults/competitors_fixed.py:270-275 | smoothing is causal |
| StreamScores.SmoothGap | ComparisonResults/competitors_fixed.py:270-275 | two runs on the same stream differ by (1 - alpha)^n times their initial gap |
| StreamScores.PastFades | ComparisonResults/competitors_fixed.py:270-275 | behind two different pasts, window i of a common tail differs by (1 - alpha)^(i+1) times the states left behind |
| StreamScores.SubspacePrefix | ComparisonResults/competitors_fixed.py:287-291 | the last stage of the subspace scorer is causal |
| StreamScores.AtOrAboveIs | ComparisonResults/competitors_fixed.py:288-291 | the numerator counts the training energies at or above the test energy less 1e-12 of its size |
| StreamScores.TailShareAntitone | ComparisonResults/competitors_fixed.py:289-291 | more residual energy never means a larger tail share, which lies in (0, 1] |

## Left out

- The detector's engine and everything under `project/`, and the shim around it.
- The z-scores themselves, tier selection, Jensen-Shannon and log-z detectors, confidence and severity ladders: settled by reading branches, or about logarithms.
- The tail-probability, histogram, isolation, forest and neural arms, the SVD before the last stage of the subspace scorer: library calls or static array expressions.
- Bootstrap intervals, attack synthesis: depend on random generators.
- CSV, pcap, JSON, caches, progress printing, promotion of files, LaTeX: input and output. Unparseable flow rows are taken as already dropped.
- Floating-point rounding and the final `round(...)`; the 0.8 cut of the pre-attack windows is an exact real.
- LitnetLoader.LoadPerIp: the accumulators and nested dicts are values rather than objects updated in place, so aliasing between them is not captured; attacks are counted under their raw names, without the table of display names; the min_windows filter, which applies after the compared counts, is not modelled.
- LitnetLoader.LoadPerSubnet: as above; the mapping from address to subnet is an arbitrary function, as nothing proved depends on the mask.
- Windows.WindowAggregator.AddPacket: windows are values in a map, so their update in place is not captured; attack labels are counted in both variants, although the capped variant's windows have no entry for them and its parser gives none. The feature columns that `finalize` derives are not modelled, the burst columns aside.
- Burst.FinalizeBursts: returns its burst columns as a list in key order instead of building the feature dicts.
- ThreeTierBaseline.ThreeTierBaseline.Update: `Tiers.Update`, and with it the lemmas of `PoisonGuard`, `TierHistory` and `Readiness`, takes feature lists without repeats, as all callers pass; POISON_PROTECTION_ENABLED is its shipped value, true.
- Cusum.CUSUMDetector.Update: the tier-1 mean and deviation of each feature come in as a parameter; feature lists without repeats.
- StreamScores.DspotScores: the training columns are nonempty, as numpy's percentile needs.
- Calibration.CalibrateThreshold: takes the available z-scores of every row as given.
- PoisonGuard.FreezesApart: for runs in nondecreasing time, as the repository feeds them; `PoisonGuard.FreezesSeparated` is what holds in any order.
- Detection.DetectRow: without the CUSUM and divergence votes, which can only flag more rows, and without the confidence value.
- CusumCalibration.CalibrateCusumH: each feature's tier-1 mean and deviation come in as a parameter; the copy of the detector is not modelled.
- Episodes.MemorylessUnchanged: percentile and scorer are arbitrary functions, so numpy's own are covered.
