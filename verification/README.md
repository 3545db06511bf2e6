# Verified model of the flight safety stack

A Dafny model of four parts of the `flight_safety` package, with proofs about them:

1. **VIO shadow metrics**: the Jacobi eigenvalue loop over an array and what its covariance gates say about the
   quadratic form (`Sums`, `QuadraticForm`, `FormBounds`, `JacobiEnergy`, `Jacobi`, `CovarianceGates`), the greedy
   correction-to-identity linkage (`Linkage`), the online stream statistics (`Stream`, `StreamSamples`), the
   typed identity records (`Identity`), the callbacks above them (`Preflight`) and the configuration tree comparison
   (`ConfigTree`).
2. **FCU audit verdicts**: the phase guard (`PhaseGuard`), the parameter trace (`ParamTrace`), the accepted-sequence
   and timesync reports (`Timesync`) and the fail-closed receipt above them (`Receipt`).
3. **Timesync capture and its reader**: the capture process as a step system over every interleaving of callbacks and
   polls (`Capture`), the audit's trace parser (`TraceParser`), what one guarantees to the other (`CaptureRuns`), when
   the capture ends (`CaptureProgress`), and the timesync report made of the trace (`TimesyncTrace`).
4. **Response chain**: the touchdown detector (`Touchdown`), the response node (`Response`, `ResponseRuns`), what it
   does for the planner (`ResponseStream`), the first two diagnostic layers (`Geofence`, `Consistency`, `Monitor`) and
   all three layers together in an outage of the external pose (`Outage`).

`Basics` and `Levels` hold small shared types. `dafny verify dfyconfig.toml` checks everything.

## How it is modelled

Objects whose methods update fields are classes; each such method is proved equal to a step function on values, and the
laws are lemmas about runs of those steps. Loops are loops with invariants. Floats are reals; nanosecond stamps,
sequences and counters are unbounded integers, as in Python. The cosine and sine of the Jacobi angle are any pair with
`c*c + s*s = 1` that solves the angle equation, which is what the arctangent provides. Clock readings, command results,
connection counts and acknowledgements are inputs of the step that reads them. Each callback, and each block that holds
the capture's lock, is one atomic step. Text is parsed before the model begins: a missing or ill-typed field is an
explicit absent value or an out-of-range number, and the model takes the branch the code takes on it.

## What the proofs show about the code

- The eigenvalue loop does not say which exit it took. A ghost flag does here: on the tolerance exit the residual is at
  most 1e-14, otherwise it is bounded, for symmetric input, by the 256th power of the shrink factor.
- On the tolerance exit the floor gate means positive definiteness exactly when the floor exceeds
  (n-1)(1e-14 + tolerance/2) (`CovarianceGates.GateIsSoundExactly`). For exactly symmetric input the configured floor
  does (`CovarianceGates.ConfiguredRecordIsSound`); for three dimensions that needs no convergence hypothesis
  (`CovarianceGates.ImuRecordIsSound`). With the configured symmetry tolerance of 1e-9 it does not:
  `CovarianceGates.AdmitsIndefinite` passes every gate on a covariance that is not positive definite.
- The greedy linkage accepts exactly the inputs of `Linkage.MatchGreedily`; a unique matching is not enough
  (`Linkage.UniqueMatchingMayBeRefused`). With a non-negative stamp limit its stamp gate never decides.
- The documentation of `world_vert` promises the up component of the acceleration rotated body to world. The
  coefficients are those of the inverse rotation; `Touchdown.FeatureIsUpWhen` is the exact condition under which the
  two agree.
- A level above ERROR would force-disarm while the published lane says NORMAL (`ResponseRuns.LaneOfKillingTick`). The
  monitor's caps keep the level at or below ERROR (`Monitor.WorstIsCapped`).
- Where the expected timesync setting is a float, an equal number is accepted whether or not the command that read it
  succeeded (`Receipt.PassVouchesForCommand`); for every other type a PASS vouches for the command.
- In the timesync audit, two sequence gates and the independent row thresholds follow from other gates
  (`Timesync.TransitionsCoverSequenceGates`, `Timesync.RowThresholdsAreImplied`).
- The capture checks no header. Every run that exits 0 leaves a numbered log with the logged minimums and a paired
  suffix, and its logged remote times meet the tail index gate on increasing streams. The reader's sequence gate, and
  its minimums with it, then hold exactly when every logged header and clock reading is readable: one diagnostic message
  without a stamp is logged, counted, and refused later (`CaptureRuns.UnstampedRunIsRefused`). Connections at the ready
  record, header freshness and the overlap of the three streams are not watched either.

## Model

| member | source | states |
|---|---|---|
| `Jacobi.FindPivot` | src/flight_safety/vio_shadow.py:405-412 | the first off-diagonal entry of largest magnitude, and that magnitude; zero means nothing off the diagonal |
| `Jacobi.Rotate` | src/flight_safety/vio_shadow.py:420-432 | the in-place update leaves exactly the plane rotation of the old matrix in the array, pivot cells included |
| `Jacobi.RotateLargest` | src/flight_safety/vio_shadow.py:404-432 | one pass stops exactly when no off-diagonal entry exceeds the tolerance, and otherwise is one rotation about a dominant entry |
| `QuadraticForm.RotationKeepsForm` | src/flight_safety/vio_shadow.py:416-432 | a rotation solving the angle equation keeps the quadratic form under a norm-preserving change of the vector |
| `QuadraticForm.RotationKeepsBounds` | src/flight_safety/vio_shadow.py:416-432 | hence every lower bound of the form before a rotation is one after it, and the reverse |
| `FormBounds.RotationTransfers` | src/flight_safety/vio_shadow.py:416-432 | on any square matrix, symmetric or not, every symmetric one-sided reading of the rotated matrix has exactly the form bounds of such a reading of the matrix before |
| `FormBounds.Gershgorin` | src/flight_safety/vio_shadow.py:433 | small off-diagonal entries change the form by at most (n-1) times their size |
| `FormBounds.DiagonalFloorBoundsForm` | src/flight_safety/vio_shadow.py:433 | the upper triangle, which the pivot search reads, is a reading, and a floor on the diagonal bounds its form from below |
| `FormBounds.ReadingCost` | src/flight_safety/vio_shadow.py:457-458 | a matrix and its readings bound each other's forms up to (n-1)/2 times the asymmetry of the pairs, in both directions |
| `FormBounds.BoundBelowDiagonal` | src/flight_safety/vio_shadow.py:433 | every lower bound of the form is a floor on the diagonal |
| `JacobiEnergy.OffEnergyDrops` | src/flight_safety/vio_shadow.py:423-432 | a rotation of a symmetric matrix removes exactly twice the squared pivot from the off-diagonal sum of squares |
| `JacobiEnergy.RotationConserves` | src/flight_safety/vio_shadow.py:423-432 | a rotation keeps symmetry, trace and the sum of all squares |
| `JacobiEnergy.DominantRotationShrinks` | src/flight_safety/vio_shadow.py:405-432 | rotating about the largest entry shrinks the off-diagonal sum of squares by the factor 1 - 2/(n(n-1)) at least |
| `JacobiEnergy.DecayIsPower` | src/flight_safety/vio_shadow.py:404-432 | so what is left after k passes is the k-th power of the factor times the starting energy |
| `Jacobi.RotateRepeatedly` | src/flight_safety/vio_shadow.py:404-432 | the loop makes k passes, and either stopped with nothing off the diagonal above the tolerance or made all of them; a matrix already diagonal to the tolerance is left alone |
| `Jacobi.RotationsProgress` | src/flight_safety/vio_shadow.py:404-432 | after any number of passes form bounds pull back to the input in both directions, and a symmetric input has lost energy at least as the power of the shrink factor, with trace and total squares kept |
| `Jacobi.JacobiEigenvalues` | src/flight_safety/vio_shadow.py:400-433 | the smallest listed value brackets the form of a symmetric reading of the input (the input itself when symmetric): floors on the list bound the form up to (n-1) residual, bounds of the form are floors on the list; the residual is at most the tolerance when the loop stopped by it, else bounded by the decayed energy; for symmetric input the sum is the trace |
| `CovarianceGates.SmallestEigenvalueAtLeast` | src/flight_safety/vio_shadow.py:468-472 | the two eigenvalue gates as statements about the quadratic form, in both directions, with the exit the loop took |
| `CovarianceGates.CovarianceQuality` | src/flight_safety/vio_shadow.py:436-473 | which gates of a 36-number covariance hold, including missing, short and non-finite input, and which exit the loop took |
| `CovarianceGates.ImuCovarianceQuality` | src/flight_safety/vio_shadow.py:476-520 | the same for 9 numbers, with the explicit unknown markers; an unknown covariance is never valid |
| `CovarianceGates.FloorGateMeansPositiveDefinite` | src/flight_safety/vio_shadow.py:466-472 | a symmetric matrix that passes the floor gate on the tolerance exit is positive definite whenever the floor exceeds (n-1) 1e-14 |
| `CovarianceGates.ConfiguredRecordIsSound` | config/vio_shadow_preflight.yaml:24-29 | with the configured values, a valid record of an exactly symmetric 6 by 6 covariance, made on the tolerance exit, means that it is positive definite |
| `CovarianceGates.FloorGateInThreeDimensions` | src/flight_safety/vio_shadow.py:400-433 | a symmetric 3 by 3 matrix with entries up to 1000 that passes the floor gate is positive definite on either exit: 256 passes leave less than 1e-40 of its off-diagonal energy |
| `CovarianceGates.ImuRecordIsSound` | src/flight_safety/vio_shadow.py:476-520 | so a valid record of an exactly symmetric IMU covariance means positive definiteness, with no hypothesis on the loop |
| `CovarianceGates.FloorGateWithAsymmetry` | src/flight_safety/vio_shadow.py:457-472 | with pairs asymmetric within the tolerance, a pass bounds the form of the matrix itself by floor - (n-1)(residual + tolerance/2) |
| `CovarianceGates.BoundedFormPasses` | src/flight_safety/vio_shadow.py:457-472 | conversely a form bounded below by the floor plus (n-1)/2 times the tolerance always passes |
| `CovarianceGates.WideFloorIsSound` | src/flight_safety/vio_shadow.py:457-472 | on the tolerance exit a floor above (n-1)(1e-14 + tolerance/2) makes every matrix that passes both gates positive definite |
| `CovarianceGates.GateIsSoundExactly` | src/flight_safety/vio_shadow.py:457-472 | in every dimension: the symmetry gate and the floor gate together mean positive definiteness on the tolerance exit exactly when the floor exceeds (n-1)(1e-14 + tolerance/2) |
| `CovarianceGates.RecordIsSoundExactly` | src/flight_safety/vio_shadow.py:436-473 | for whole 6 by 6 records whose other gates accept a diagonal as small as that slack: a valid record means positive definiteness exactly when the configured floor exceeds it |
| `CovarianceGates.AdmitsIndefinite` | src/flight_safety/vio_shadow.py:457-472 | in the other case the judging method finds every gate passed on a given list, on the tolerance exit, though the form vanishes along (1, ..., 1) |
| `CovarianceGates.ConfiguredTolerancesAreTooWide` | config/vio_shadow_preflight.yaml:24-29 | the configured values are of the other case: valid records need not be positive definite |
| `Linkage.MatchGreedily` | src/flight_safety/vio_shadow.py:999-1013 | the loop meets no ambiguity exactly when a perfect matching exists in which no correction is near a record that a later one takes |
| `Linkage.ForcedMatchingIsUnique` | src/flight_safety/vio_shadow.py:1002-1025 | the accepted matching is the only perfect matching within the tolerance |
| `Linkage.SortedLinkageIsPositional` | src/flight_safety/vio_shadow.py:951-956 | with strictly increasing stamps on both sides the accepted matching pairs i with i |
| `Linkage.SortedLinkageExact` | src/flight_safety/vio_shadow.py:1002-1025 | for such stamps the loop accepts exactly when each record is near its own correction and not near the one before |
| `Linkage.WideSpacingLinks` | src/flight_safety/vio_shadow.py:1002-1025 | corrections more than twice the tolerance apart, each near its own record, are always accepted |
| `Linkage.UniqueMatchingMayBeRefused` | src/flight_safety/vio_shadow.py:1008-1010 | an input with exactly one perfect matching that the greedy loop still refuses |
| `Linkage.LinkageAccumulator.Summarize` | src/flight_safety/vio_shadow.py:983-1038 | what each gate of the linkage summary says about the observed streams; for a non-negative limit one-to-one is stated in seconds: a forced perfect matching exists among pairs no further apart than the configured distance |
| `Linkage.LimitIsExact` | src/flight_safety/vio_shadow.py:997-998 | the truncated nanosecond limit admits exactly the stamp differences within the configured seconds |
| `Linkage.PassingLinkageIsPositional` | src/flight_safety/vio_shadow.py:1026-1038 | a passing summary over sorted stamps: record i belongs to correction i in stamp, arrival and sequence |
| `Identity.IdentityAccumulator.ObserveJoin` | src/flight_safety/vio_shadow.py:877-923 | a status of the watched name adds one record, typed exactly when its schema gate holds; any other is ignored |
| `Identity.IdentityAccumulator.Summarize` | src/flight_safety/vio_shadow.py:925-961 | a PASS says that every status is typed, clean, OK and timely, and that all records are one session without a reset, numbered consecutively, with stamps increasing throughout |
| `Preflight.PreflightPassIsPositional` | src/flight_safety/vio_shadow.py:951-1038 | when correction stream, identity records and linkage all pass, record i belongs to correction i: the order of both sides is a consequence of the PASS |
| `Stream.StreamAccumulator.Observe` | src/flight_safety/vio_shadow.py:617-733 | after any sequence of judged samples every timing and frame counter, interval and latency list, extreme and end, and the valid counts, equal their definitions over the raw records |
| `StreamSamples.JudgeSample` | src/flight_safety/vio_shadow.py:669-715 | the judgements counted of a sample: each payload by its vectors and quaternion length, each covariance by the validity of its record |
| `StreamSamples.PassedPosesAreDefinite` | src/flight_safety/vio_shadow.py:787-790 | in a passing stream that requires them, every pose or twist covariance whose loop stopped by tolerance is positive definite if symmetric, or if the floor exceeds the slack of the tolerated asymmetry |
| `StreamSamples.PassedImuIsDefinite` | src/flight_safety/vio_shadow.py:783-786 | in a passing stream that requires them, every symmetric IMU covariance is positive definite, whichever exit its loop took |
| `Preflight.StreamMonitor.OnMessage` | scripts/vio_shadow_preflight.py:425-441 | one callback judges the sample, counts it in its stream and notes its stamp and arrival for the linkage, leaving other streams alone |
| `Preflight.StreamMonitor.Watch` | scripts/vio_shadow_preflight.py:425-441 | after any run of messages the counters, the judgements and the linkage are those of exactly these messages |
| `Preflight.StreamMonitor.Finish` | scripts/vio_shadow_preflight.py:547-553 | a PASS on what was watched makes every required symmetric IMU covariance positive definite, and every required pose or twist covariance that is wide enough and whose loop stopped by tolerance |
| `Stream.NothingIsLost` | src/flight_safety/vio_shadow.py:632-655 | steps, duplicates and backward stamps add up to n-1; arrival steps likewise; latencies and zero stamps to n |
| `Stream.StreamAccumulator.Summarize` | src/flight_safety/vio_shadow.py:735-791 | the gates read off the counters, rates and coverage computed by division, hold exactly when the raw records themselves meet the stated conditions: n-1 at least rate times span, span at least its share of the duration |
| `Stream.PassedStampsAddUp` | src/flight_safety/vio_shadow.py:763-767 | a PASS means every stamp step is forward and the steps sum to last minus first |
| `Stream.PassedSamplesCoverWindow` | src/flight_safety/vio_shadow.py:753-773 | a PASS means (n-1) times the largest allowed gap reaches the demanded share of the window |
| `Stream.EveryInstantIsNear` | src/flight_safety/vio_shadow.py:763-772 | a PASS leaves no instant from window start to finish further from a sample than the delay, gap or idle limit of its place |
| `ConfigTree.ExactIsEqual` | src/flight_safety/vio_shadow.py:1405-1414 | the recursive comparison is equality of trees |
| `ConfigTree.SeeMerge` | src/flight_safety/vio_shadow.py:1394-1402 | what a merge shows along every path: the overlay, else the base unless a final overlay value hides it |
| `ConfigTree.MergeIsIdempotent` | src/flight_safety/vio_shadow.py:1394-1402 | merging the same overlay again changes nothing |
| `ConfigTree.WithoutPaths` | src/flight_safety/vio_shadow.py:1438-1450 | the pruning loop deletes each listed path in turn |
| `ConfigTree.SeePrune` | src/flight_safety/vio_shadow.py:1438-1450 | pruning leaves exactly the paths with no listed prefix |
| `ConfigTree.PruneIsOrderFree` | src/flight_safety/vio_shadow.py:1438-1450 | the order of the list does not matter |
| `ConfigTree.NestedPathIsRedundant` | src/flight_safety/vio_shadow.py:1438-1450 | a path below a listed one adds nothing, wherever it stands |
| `ConfigTree.SplitJoin` | src/flight_safety/vio_shadow.py:1425-1426 | splitting the text that joins separator-free parts gives exactly these parts back, empty ones included |
| `ConfigTree.PartsAreKeys` | src/flight_safety/vio_shadow.py:1425-1426 | a text names the path of some keys exactly when it is the pointer built from them and no key holds a slash |
| `ConfigTree.PointersAreDistinctPaths` | src/flight_safety/vio_shadow.py:1425-1426 | so different pointers name different paths (escape-free subset of section 3 of RFC 6901) |
| `ConfigTree.ValidPointerMeansPlainKeys` | src/flight_safety/vio_shadow.py:142-148 | the syntax check of an allowlist entry in terms of its keys: not the root alone, none empty but perhaps the last, no tilde or star |
| `ConfigTree.EphemeralByKeys` | src/flight_safety/vio_shadow.py:1465-1475 | for pointers built from keys, the allowlist gates speak of exactly those keys: distinct, expected nowhere, live everywhere |
| `ConfigTree.HasPathIsSeen` | src/flight_safety/vio_shadow.py:1429-1435 | the path test agrees with what the tree shows there |
| `ConfigTree.EvaluateParameters` | src/flight_safety/vio_shadow.py:1460-1518 | when the parameter gates hold: both live trees equal the expected ones up to the ephemeral paths, in the camera namespace; the hash gates add only that the expected trees have a canonical hash |
| `ConfigTree.PrunedIsExpected` | src/flight_safety/vio_shadow.py:1476-1482 | the exactness gate says: same sights off the allowlist, nothing expected on it, both directions |
| `ConfigTree.ExactExceptKeys` | src/flight_safety/vio_shadow.py:1466-1482 | path gates and exactness together, for pointers built from keys, both directions: the live tree shows what is expected, has something at every listed key path, and differs nowhere else |
| `ConfigTree.LiveTreeIsMergePlusEphemeral` | src/flight_safety/vio_shadow.py:1496-1518 | on PASS the live tree is the overlay over the base plus allowlisted subtrees only, so the selected Phase-B values are live |
| `PhaseGuard.GuardCoversSpan` | src/flight_safety/fcu_audit_receipt.py:781-896 | PASS over a dump span puts every instant of it between two consecutive connected, disarmed samples and two on-ground ones, at most one gap apart |
| `PhaseGuard.CoverageForcesCount` | src/flight_safety/fcu_audit_receipt.py:809-828 | coverage and cadence alone force ceil(span/gap)+1 samples |
| `PhaseGuard.FloorAsksForOneMore` | src/flight_safety/fcu_audit_receipt.py:783-786 | so the +2 sample floor refuses exactly the streams one sample short of it |
| `PhaseGuard.NewestHeaderIsFresh` | src/flight_safety/fcu_audit_receipt.py:813-818 | without gate failures the newest header is at most twice the age limit old at the finish |
| `PhaseGuard.SamplesInsideCapture` | src/flight_safety/fcu_audit_receipt.py:819-837 | and every sample arrived after the ready handshake and inside the capture interval |
| `PhaseGuard.PassedGuardHasNoGateFailure` | src/flight_safety/fcu_audit_receipt.py:840-852 | a passing guard has no gate failure on either stream |
| `PhaseGuard.PassIsNoMeasuredFailure` | src/flight_safety/fcu_audit_receipt.py:982-1017 | the guard passes exactly when both streams have rows, cover the span if there is one, and no measured failure exists |
| `PhaseGuard.MeasuredStreamsAreIndependent` | src/flight_safety/fcu_audit_receipt.py:986-1016 | state violations do not depend on the landed-state rows, nor the reverse |
| `PhaseGuard.GuardIsRows` | src/flight_safety/fcu_audit_receipt.py:781-852 | the whole guard in terms of the rows: enough of each stream, every one connected and disarmed or on the ground, continuous, fresh, inside handshake and capture, and reaching over any span |
| `PhaseGuard.MeasuredIsRows` | src/flight_safety/fcu_audit_receipt.py:982-1017 | no failure is measured exactly when the rows present, of either stream, show no violation themselves |
| `PhaseGuard.PassedCount` | src/flight_safety/fcu_audit_receipt.py:781-786 | the rows of a passing guard: the minimum, which alone counts without a span, and over a span one per gap and two more |
| `ParamTrace.Scan` | src/flight_safety/fcu_audit_receipt.py:604-639 | the tables of the scan stand for the messages, and a conflict is counted exactly when the records are inconsistent |
| `ParamTrace.ParamValueIsEither` | src/flight_safety/fcu_audit_receipt.py:573-585 | a value carried in one of the two fields is their sum; an integer other than zero always wins; a missing field means no value |
| `ParamTrace.TablesJudgeCompleteness` | src/flight_safety/fcu_audit_receipt.py:641-687 | the checks made on the tables decide the declarative completeness of the messages |
| `ParamTrace.Analyze` | src/flight_safety/fcu_audit_receipt.py:593-727 | PASS exactly when the trace is complete and timely; then messages = indices + exact retries + pseudo record |
| `ParamTrace.CompleteIsBijection` | src/flight_safety/fcu_audit_receipt.py:643-682 | completeness is a bijection between 0..N-1 and the dumped names, every record agreeing with the dump |
| `ParamTrace.CompletenessIsOrderFree` | src/flight_safety/fcu_audit_receipt.py:604-687 | the verdict on indices, names, values and counts is the same for every order of the messages |
| `ParamTrace.RetriesDoNotMatter` | src/flight_safety/fcu_audit_receipt.py:629-639 | inserting an exact retry of a real record anywhere does not change that verdict |
| `Timesync.IndexByRemote` | src/flight_safety/fcu_audit_receipt.py:1350-1363 | the dictionary groups the rows of each remote time in order, each with its residual |
| `Timesync.LinkRecords` | src/flight_safety/fcu_audit_receipt.py:1364-1370 | each tail record is linked to the only row with its remote time, if there is one |
| `Timesync.TailIndexGateMeaning` | src/flight_safety/fcu_audit_receipt.py:1368-1372 | the index gate says: the tail records lie in order on exactly the last rows, each remote time unique in the window |
| `Timesync.TransitionsCoverSequenceGates` | src/flight_safety/fcu_audit_receipt.py:1312-1329 | the no-rollback and step-by-one gates follow from the transition and convergence gates |
| `Timesync.AcceptanceReport` | src/flight_safety/fcu_audit_receipt.py:1225-1395 | when the accepted-sequence report passes, and which rows its tail is linked to |
| `Timesync.AcceptanceAccounts` | src/flight_safety/fcu_audit_receipt.py:1312-1372 | on PASS the sequence counts the acceptances exactly, the last is at least window + tail - 1, and the tail lies on the last rows |
| `Timesync.CheckTail` | src/flight_safety/fcu_audit_receipt.py:1458-1480 | the threshold loop over the last status rows and their residuals |
| `Timesync.LinkedThresholdsAgree` | src/flight_safety/fcu_audit_receipt.py:1373-1393 | on linked, well-typed evidence the thresholds on records and on rows are the same test |
| `Timesync.Report` | src/flight_safety/fcu_audit_receipt.py:1420-1497 | when the timesync report passes, its diagnostic and accepted-sequence windows included |
| `Timesync.CheckDiagnostics` | src/flight_safety/fcu_audit_receipt.py:1178-1213 | comparing neighbours decides the diagnostic window as a whole: every status parsed, OK and counted, no counter ever back, stamps strictly advancing without a long gap, the newest fresh |
| `Timesync.RowThresholdsAreImplied` | src/flight_safety/fcu_audit_receipt.py:1458-1495 | the independently computed row thresholds never change that verdict |
| `Capture.CollectRemotes` | scripts/fcu_timesync_trace_capture.py:133-139 | the remote times an acceptance message contributes: exactly one numeric value per status of the name |
| `Capture.TimesyncCapture.Observe` | scripts/fcu_timesync_trace_capture.py:121-157 | a callback is one step: record, counts, remotes, eligibility and the freeze |
| `Capture.TimesyncCapture.AwaitConnections` | scripts/fcu_timesync_trace_capture.py:185-196 | one pass of the connection loop, with its timeout and shutdown exits |
| `Capture.TimesyncCapture.OpenBarrier` | scripts/fcu_timesync_trace_capture.py:197-213 | the ready record opens the window |
| `Capture.TimesyncCapture.PollOnce` | scripts/fcu_timesync_trace_capture.py:214-237 | one pass of the polling loop and its exit codes |
| `CaptureRuns.RunKeepsSound` | scripts/fcu_timesync_trace_capture.py:105-157 | in every interleaving line i carries sequence i, the log starts with the ready record, and counts and remotes are those of the log |
| `CaptureRuns.CompletedLogIsFrozen` | scripts/fcu_timesync_trace_capture.py:152-157 | once a paired suffix is frozen no later event changes the log |
| `CaptureRuns.FreezeWaitsOutGrace` | scripts/fcu_timesync_trace_capture.py:140-157 | in every run the log is frozen only a full grace period after the message with which every stream first had its minimum |
| `CaptureProgress.EveryArrivalIsLogged` | scripts/fcu_timesync_trace_capture.py:105-119 | in every run each message of the open window becomes the next line of the log, with its header stamp, and no other message does |
| `CaptureProgress.RunIsExact` | scripts/fcu_timesync_trace_capture.py:121-132 | the counts are exactly the qualifying lines of the log, and the window is open exactly from the ready record to the freeze |
| `CaptureProgress.FreezesExactly` | scripts/fcu_timesync_trace_capture.py:140-157 | in every run a message, or a poll, freezes the log exactly when a full grace period has passed since the log first held every minimum and the log ends in a paired suffix |
| `CaptureProgress.PollExitsExactly` | scripts/fcu_timesync_trace_capture.py:214-237 | a poll exits 0 exactly with a frozen log and no shutdown, 3 exactly on shutdown or past the capture timeout of the opening without a freeze |
| `TraceParser.Parse` | src/flight_safety/fcu_audit_receipt.py:378-488 | when the reader accepts a trace, gate by gate, and how it splits it into streams; the span gate is one steady instant inside the window of every stream |
| `TraceParser.OverlapIsConcurrent` | src/flight_safety/fcu_audit_receipt.py:474-479 | the largest first arrival is at most the smallest last one exactly when one instant lies between first and last arrival of all three |
| `CaptureRuns.ExitZeroMeetsReader` | scripts/fcu_timesync_trace_capture.py:197-231 | an exit-0 log is numbered, holds the minimums and ends in a paired suffix; the reader's sequence gate holds exactly when every line after the ready record is readable, the minimum gate with it, and the log is accepted exactly when all lines are readable and the gates the capture does not watch hold |
| `CaptureRuns.UnstampedRunIsRefused` | scripts/fcu_timesync_trace_capture.py:105-157 | a run that exits 0 on a diagnostic message whose header was never stamped: the reader refuses its sequence and its minimums |
| `CaptureRuns.OrderedExitZeroMeetsReader` | src/flight_safety/fcu_audit_receipt.py:458-479 | with ordered clocks only readable lines, connections, header freshness and overlap are left to the reader |
| `CaptureRuns.PairedMeansSameTail` | scripts/fcu_timesync_trace_capture.py:145-151 | on increasing streams the pair gate says exactly that both end in the same k remotes |
| `CaptureRuns.ExitZeroMeetsIndexGate` | src/flight_safety/fcu_audit_receipt.py:1364-1372 | then the remote times logged by any exit-0 run meet the tail index gate of the report for every tail length up to k |
| `TimesyncTrace.DiagnosticRecords` | src/flight_safety/fcu_audit_receipt.py:1099-1156 | the statuses of one name in all documents of an array stream, with their records and counters, and whether every status of every name parsed |
| `TimesyncTrace.RowsReadSamples` | src/flight_safety/fcu_audit_receipt.py:1350-1363 | what the report reads of a kept status line: its own header, remote time and arrival, and the residual of its observed offset to the estimate of the line before |
| `TimesyncTrace.RecordIsEntry` | src/flight_safety/fcu_audit_receipt.py:1243-1292 | a clean status has a record exactly when its typed values parse and its one remote-time entry spells a number, and the record says exactly these values |
| `TimesyncTrace.SameRemotes` | src/flight_safety/fcu_audit_receipt.py:1243-1292 | on documents whose records all parse, the reader and the capture take the same remote times |
| `TimesyncTrace.ExitZeroLinksInOrder` | src/flight_safety/fcu_audit_receipt.py:1350-1393 | on the log of any exit-0 run, with acceptances in order and for sent rows: a passing report pairs records with the last rows position by position, and if status and acceptance lines are readable that and the other gates are enough, so the index gate never refuses |
| `TimesyncTrace.KeptStream` | src/flight_safety/fcu_audit_receipt.py:426-457 | the reader keeps all of a stream whose lines are readable, whatever it drops of the others |
| `Receipt.CheckPhase` | src/flight_safety/fcu_audit_receipt.py:1800-1833 | a one-shot phase has failures exactly when a trace that is not blank did not parse or the rows present show a violation (fewer than two, one armed, disconnected or not on the ground, a timing gate broken), and is incomplete exactly when a command failed or rows are missing; no entry at all exactly when it was captured, parsed and guarded |
| `Receipt.CheckDuring` | src/flight_safety/fcu_audit_receipt.py:1851-1872 | the traces beside the dump add no failure exactly when both parsed and their guard over the dump span passes |
| `Receipt.CheckDump` | src/flight_safety/fcu_audit_receipt.py:1873-1901 | the dump has failures exactly when its text, the raw messages or their analysis is wrong, and is incomplete exactly when it did not run or was not kept |
| `Receipt.CheckTimesync` | src/flight_safety/fcu_audit_receipt.py:2090-2228 | the timesync step adds no entry exactly when every setting is exact as the code decides it, trace and report hold under the limits read from those settings, and the source configuration holds; what was read or captured and is wrong is a failure, what could not be is incomplete |
| `Receipt.CheckSettings` | src/flight_safety/fcu_audit_receipt.py:2092-2110 | no entry exactly when every setting is exact; a failure exactly when a successful read is not |
| `Receipt.FailedReadIsExact` | src/flight_safety/fcu_audit_receipt.py:2099-2101 | a read that failed after printing the expected 10.0 adds no entry to either list |
| `Receipt.PassVouchesForCommand` | src/flight_safety/fcu_audit_receipt.py:2099-2110 | in every passing receipt: a PASS vouches for the command that read a setting exactly when the expected value is not a float |
| `Receipt.PassMeetsConfiguredLimits` | src/flight_safety/fcu_audit_receipt.py:1332-1393 | on PASS every tail record meets the expected, not only the read, limits: below the round-trip limit, within the deviation, past the convergence window |
| `Receipt.ExitZeroTraceHolds` | src/flight_safety/fcu_audit_receipt.py:2156-2228 | for the log of an exit-0 capture the trace part holds exactly when the capture command succeeded, every line is readable, the open gates of the reader hold, and the report holds with records paired by position |
| `Receipt.CheckEstimator` | src/flight_safety/fcu_audit_receipt.py:1915-1923 | the estimator step adds no entry exactly when its evidence exists and passes; it fails exactly on text without documents or on documents that fail |
| `Receipt.CheckPreconditions` | src/flight_safety/fcu_audit_receipt.py:1637-1744 | which evidence before the pull is a failure and which leaves it incomplete; no entry exactly when the pull is authorized, the identity is complete and the pre phase holds: a refused pull always leaves an entry |
| `Receipt.CheckAftermath` | src/flight_safety/fcu_audit_receipt.py:1800-1940 | which evidence after the pull is a failure and which leaves it incomplete; no entry exactly when post phase, timesync, estimator and the rechecks hold |
| `Receipt.Collect` | src/flight_safety/fcu_audit_receipt.py:1622-1951 | PASS exactly when every part holds, FAIL exactly when some evidence proves a violation, INCOMPLETE exactly when none does and some is missing; an armed, disconnected or airborne row before or after the pull is always FAIL; the pull runs exactly when authorized |
| `Receipt.ParametersArrivedDisarmed` | src/flight_safety/fcu_audit_receipt.py:1845-1901 | on PASS every parameter message arrived between two close samples saying connected, disarmed and on the ground |
| `Receipt.PassedParameters` | src/flight_safety/fcu_audit_receipt.py:1873-1901 | on PASS the dumped values are the parameters the vehicle sent, at least as many as configured, each with its own index, and the tool reported that number, or one more for a PX4 hash record |
| `Touchdown.TouchdownDetector.Update` | src/flight_safety/touchdown.py:45-61 | one update: the next detector state and whether it reports |
| `Touchdown.ReportsAreFirstConfirmations` | src/flight_safety/touchdown.py:45-61 | for samples in time order a report comes exactly at the first sample confirmed by a filter over the whole unbroken descent |
| `Touchdown.OneReportPerDescent` | src/flight_safety/touchdown.py:53-60 | after a report the rest of that descent stays silent |
| `Touchdown.UpIsRotation` | src/flight_safety/touchdown.py:25-27 | the documented feature: the up component of the acceleration rotated by a unit attitude is the third row of the rotation matrix |
| `Touchdown.FeatureIsInverseUp` | src/flight_safety/touchdown.py:28-30 | the computed feature is the up component under the inverse rotation (the third column) |
| `Touchdown.FeatureIsUpWhen` | src/flight_safety/touchdown.py:25-30 | it equals the documented one exactly when w(y ax - x ay) = 0 |
| `Touchdown.TiltFlipsSidewaysForce` | src/flight_safety/touchdown.py:28-30 | for a tilt about the x axis sideways force enters with the opposite sign |
| `Touchdown.FeatureIsBounded` | src/flight_safety/touchdown.py:25-30 | for every unit attitude the squared feature is at most the squared acceleration |
| `Response.ResponseNode.HandleState` | src/flight_safety/response.py:139-166 | a state message updates the vehicle and resets the session on arm edges, an armed start and leaving OFFBOARD |
| `Response.ResponseNode.HandleNormal` | src/flight_safety/response.py:177-194 | a Normal is stored and latches a hold when it carries a local position |
| `Response.ResponseNode.HandleImu` | src/flight_safety/response.py:196-205 | an IMU sample feeds the detector and latches a touchdown |
| `Response.ResponseNode.DoTick` | src/flight_safety/response.py:225-281 | one tick: lane report, force-disarm, land, admission, stream; with nothing to act on it publishes the fresh Normal and admits the session in OFFBOARD, and with a stale one, once admitted or in the pilot's mode, exactly the hold if enabled and latched |
| `Response.ResponseNode.HandleTermination` | src/flight_safety/response.py:116-134 | an external termination is attempted exactly under its conditions and accepted exactly when acknowledged too |
| `ResponseRuns.KilledIsFinal` | src/flight_safety/response.py:239-240 | once latched the force-disarm never clears and nothing but lane reports is emitted again |
| `ResponseRuns.TickKillsIff` | src/flight_safety/response.py:230-250 | a tick force-disarms exactly when this node owns the vehicle and the fault is an error or a touchdown stands at level WARN, armed |
| `ResponseRuns.LaneOfKillingTick` | src/flight_safety/response.py:34-34 | the lane such a tick reports: kill for ERROR, land for a touchdown, normal for a level the table does not list |
| `ResponseRuns.EveryKillIsAuthorized` | src/flight_safety/response.py:239-250 | in every run each force-disarm had the pilot switch off, no manual mode and tick or request authority, and came with no setpoint |
| `ResponseRuns.ModeRequestsAreSpaced` | src/flight_safety/response.py:283-286 | any two mode requests of a run are more than one second apart |
| `ResponseRuns.SessionsAreSeparate` | src/flight_safety/response.py:153-166 | in every run the stored Normal, its hold and the admission come from events after the last session reset |
| `ResponseRuns.ForwardedNormalIsOwn` | src/flight_safety/response.py:278-279 | a forwarded Normal is fresh and of the current session |
| `ResponseRuns.HoldNeedsEarlierNormal` | src/flight_safety/response.py:255-281 | in OFFBOARD a hold is published only after a tick of the same session saw a fresh Normal |
| `ResponseRuns.TouchdownKillIsConfirmed` | src/flight_safety/response.py:233-250 | a force-disarm below ERROR goes back to the first confirmed impact of a descent that has not been left since |
| `ResponseRuns.TouchdownKillsExactly` | src/flight_safety/response.py:233-250 | and conversely: below ERROR the owner's tick force-disarms exactly when some report of the descent still going on stands, at level WARN, armed |
| `ResponseStream.FreshNormalIsForwarded` | src/flight_safety/response.py:255-279 | in every run: the last Normal delivered in this session, while between zero and the timeout old, is exactly what a calm tick publishes beside its report, and in OFFBOARD the session is admitted |
| `ResponseStream.StaleNormalIsHeld` | src/flight_safety/response.py:280-281 | without a fresh Normal, an admitted session or the pilot's mode gets exactly the hold of the last Normal of the session that carried a position, if holding is enabled, and otherwise nothing |
| `ResponseStream.UnadmittedAsksForManual` | src/flight_safety/response.py:258-267 | a session not admitted, in OFFBOARD without a fresh Normal, gets no setpoint and a manual-mode request unless the run made one within the last second |
| `ResponseStream.AdmissionIsEarned` | src/flight_safety/response.py:258-261 | the session is admitted exactly when a calm OFFBOARD tick since its start saw a fresh Normal of it |
| `ResponseStream.ResetIsEdge` | src/flight_safety/response.py:153-166 | the session ends exactly at a change of the armed flag against the last state message, or at leaving its OFFBOARD |
| `ResponseStream.HoldCommands` | src/flight_safety/response.py:184-194 | the hold commands the local position, the yaw if the Normal commanded it, and nothing else |
| `Geofence.GeofenceDiag.Status` | src/flight_safety/diagnosis/geofence.py:63-74 | the margin is the smallest wall clearance over the enabled axes, and the zone is decided by it |
| `Geofence.GeofenceDiag.RunDiag` | src/flight_safety/diagnosis/geofence.py:76-99 | ERROR exactly outside the box or with neither pose, OK exactly clear of every wall, WARN otherwise |
| `Consistency.ConsistencyDiag.RunDiag` | src/flight_safety/diagnosis/consistency.py:33-57 | over the pairs seen: ERROR exactly when the latest is no older than the timeout and its positions lie further apart than the error limit; OK exactly when it is recent and within both limits; WARN otherwise |
| `Monitor.SeverityMonitor.OnDiag` | src/flight_safety/monitor.py:28-33 | each watched source holds the last status whose name contains its text |
| `Monitor.SeverityMonitor.Worst` | src/flight_safety/monitor.py:35-56 | the verdict is the largest capped level, with the sources at it named in order |
| `Monitor.WorstIsCapped` | src/flight_safety/monitor.py:49-53 | with valid caps the verdict never exceeds ERROR, whatever was reported |
| `Monitor.ErrorExactly` | src/flight_safety/monitor.py:42-53 | the verdict reaches ERROR exactly through a source with that authority that has gone silent after a report, or reports an error |
| `Monitor.OkExactly` | src/flight_safety/monitor.py:42-53 | the verdict is OK exactly when every source with any authority was heard recently at OK: one never heard warns |
| `Monitor.NamedAreAttaining` | src/flight_safety/monitor.py:54-54 | the named sources are exactly those at the verdict level |
| `Outage.OutageLevelStaysWarn` | config/monitor.yaml:10-17 | while the external pose alone is lost and reporters stay alive, the level stays at or below WARN in every run from any settled state |
| `Outage.OutageNeverFaultKills` | src/flight_safety/response.py:225-253 | in such a run every force-disarm is a standing touchdown or an admissible external request |
| `Outage.CalmFlightStaysSettled` | src/flight_safety/monitor.py:28-56 | states are settled through every run in which nothing uncapped is reported above WARN, startup included |
| `Outage.OutageInFlight` | config/monitor.yaml:10-17 | so the outage may begin at any point of a calm flight since startup |
| `Outage.OutageReachesWarn` | src/flight_safety/diagnosis/geofence.py:76-99 | once the geofence has reported in the outage and the monitor has published, the level is exactly WARN for the rest of it |
| `Outage.OutageLands` | src/flight_safety/response.py:251-253 | from then on every tick of an armed, owned vehicle without a touchdown reports the land lane and publishes the land setpoint, and nothing else |

## Left out

- ROS publication, services, launch files, subprocesses, `/proc` and rosgraph probing, file walking: their results are inputs.
- Hashes: the canonical-hash and source-digest gates are left out where equality of the hashed values is modelled, and are given as lists of equal strings in the acceptance records.
- JSON, YAML and CSV parsing, regular expressions, NaN and infinity, floating-point rounding.
- `_collect_identity`, the identity rechecks, the vehicle report and the estimator report: long conjunctions of equality checks, taken as lists of failures.
- `TraceParser.Parse`: the schema, topic, message-type and key-set gates of trace lines are not modelled; the producer writes the constants that the reader compares with.
- Races inside one callback of the response node, which uses no lock: callbacks are atomic here.
- Strict clocks are an assumption about clock readings, made by `CaptureRuns.OrderedExitZeroMeetsReader` alone.
- The claim that the two state traces beside the pull exited cleanly: `Receipt.Collect` shows that the receipt does not ask for it.
- `LinkageAccumulator.raw_records`, distributions and percentiles in the reports: display only.
- `ConfigTree.WithoutPaths`: deletes in a copied tree value; the aliasing of the walk through the copied dictionaries is not modelled.
- `Consistency.ConsistencyDiag.OnPair`: the square root is given by its defining equation.
- `ConfigTree.EvaluateParameters`: covers the parameter gates of the provenance table; the build manifest, executable and library gates are single equality checks on texts and hashes.
- `Timesync.Report`: the round-trip time of a status row is a number; one that is missing is a negative one.
- `Timesync.LinkedThresholdsAgree`: needs the integer offsets that the schema gate demands; for fractional offsets the linkage compares a truncated residual.
- `CovarianceGates.ConfiguredRecordIsSound`: asks that the eigenvalue loop stopped by its tolerance; after 256 passes without that, the decay proved here bounds the residual of six dimensions only by `Jacobi.Residual`.
- `CovarianceGates.ImuRecordIsSound`: asks for exact symmetry; on the tolerance exit `CovarianceGates.GateIsSoundExactly` covers asymmetric input too.
- `CovarianceGates.RecordIsSoundExactly`: asks that the other gates of the record accept a diagonal as small as the slack; `CovarianceGates.GateIsSoundExactly` asks for nothing of the kind.
- `Stream.StreamAccumulator.Observe`: the per-key quality counters other than `valid`, the eigenvalue lists and the quaternion norms are not kept.
- `Stream.StreamAccumulator.Summarize`: reads the judgements of a sample from its record, where `StreamSamples.JudgeSample` puts them.
- `Receipt.CheckTimesync`: the entries measured on the trace of a failed capture command are an input; they decide between FAIL and INCOMPLETE, never a PASS.
- `TimesyncTrace.ExitZeroLinksInOrder`: assumes that the producer accepts in increasing order and only rows it sent.
- `Response.ResponseNode.DoTick`: the texts of the published state message are not modelled, only its lane and level.
- `fcu_trace_capture.py`, the liveness reporter (a hypothesis on its level in `Outage`), the recorder, runtime manifests and append-only evidence.
