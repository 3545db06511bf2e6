/** The audit receipt: every sub-verdict feeds two lists, and only two empty lists give PASS. */
module Receipt {
  import opened Basics
  import PhaseGuard
  import ParamTrace
  import Timesync
  import TraceParser
  import TimesyncTrace
  import Capture
  import CaptureRuns

  /** An entry of the failure or incomplete list. */
  datatype Finding =
    | IdentityFinding(n: nat) | ClockUnavailable | ClockNotFalse | VehicleFinding(n: nat)
    | PhaseMissing | StateTrace(n: nat) | ExtendedTrace(n: nat) | GuardFinding(failure: PhaseGuard.Failure)
    | SourceChanged(n: nat) | RuntimeChanged(n: nat) | RecheckSkipped
    | NotReady | NoSafetySample | NotConcurrent | PullSkipped
    | DumpIncomplete | DumpError(n: nat) | ParamEnvelope(n: nat) | ParamTraceFailed
    | ConfigMismatch | ConfigUnavailable | TimesyncIncomplete | TimesyncMeasured(n: nat)
    | TimesyncTraceFailed | TimesyncReportFailed | TimesyncSource(n: nat)
    | EstimatorIncomplete | EstimatorMalformed | EstimatorFinding(n: nat)

  /** A parsed trace: whether its text was blank, the parser's failures, the accepted samples, the ready time. */
  datatype Trace<S> = Trace(blank: bool, failures: seq<Finding>, samples: seq<S>, ready: Option<int>)
  {
    predicate Valid() {
      blank ==> samples == []
    }
  }

  /** One phase's two captures. */
  datatype PhaseCapture = PhaseCapture(
    stateOk: bool, extendedOk: bool,
    state: Trace<PhaseGuard.StateSample>, extended: Trace<PhaseGuard.ExtendedSample>,
    stateInterval: PhaseGuard.Interval, extendedInterval: PhaseGuard.Interval, reference: int)
  {
    predicate Valid() {
      state.Valid() && extended.Valid()
    }

    function Phase(minimum: nat, span: PhaseGuard.Interval): PhaseGuard.Phase {
      PhaseGuard.Phase(state.samples, extended.samples,
        PhaseGuard.Source(state.ready, stateInterval), PhaseGuard.Source(extended.ready, extendedInterval),
        reference, minimum, span)
    }
  }

  const NO_SPAN := PhaseGuard.Interval(None, None)

  /** The smallest number of samples a one-shot guard asks for. */
  const ONE_SHOT := 2

  datatype Transaction = Transaction(
    ready: bool, safetySample: bool, concurrent: bool, during: PhaseCapture,
    dumpOk: bool, artifact: bool, dumpErrors: seq<Finding>, dumpStart: Option<int>, dumpEnd: Option<int>,
    values: map<string, real>, reported: int, params: Trace<ParamTrace.Sample>)

  /** The capture command, the trace it printed, and what is judged of that trace elsewhere. */
  datatype TimesyncTraceEvidence = TimesyncTraceEvidence(
    commandOk: bool, measured: seq<Finding>, log: seq<Capture.Record>, reference: int)

  datatype TimesyncEvidence = TimesyncEvidence(
    settings: seq<Setting>, trace: TimesyncTraceEvidence, sourceAvailable: bool, sourceFailures: seq<Finding>)

  /** What a parameter document holds; no document, or one that does not parse, is Nothing. */
  datatype Scalar = Float(x: real) | Integer(n: int) | Flag(b: bool) | Text(text: string) | Nothing
  {
    /** Integers and floats are numbers, booleans are not. */
    function Number(): Option<real> {
      match this
      case Float(x) => Some(x)
      case Integer(n) => Some(n as real)
      case _ => None
    }
  }

  /** The parameters whose values limit the timesync report, and all others. */
  datatype Key = MaxRtt | MaxDeviation | ConvergenceWindow | OtherKey(name: string)

  /** One effective parameter: whether the read command succeeded, the expected value, and what its output holds. */
  datatype Setting = Setting(key: Key, commandOk: bool, expected: Scalar, value: Scalar)
  {
    /** The type and value must match; against an expected float any equal number counts, however it was read. */
    predicate Exact() {
      if expected.Float? && value.Number().Some? then value.Number().value == expected.x
      else commandOk && value == expected
    }
  }

  datatype Contract = Contract(
    guard: PhaseGuard.Limits, duringMinimum: nat, minParams: int, maxAge: int, maxFuture: int,
    timesync: Timesync.Contract, minimums: Capture.Minimums, freshness: TraceParser.Freshness,
    names: TimesyncTrace.Watched)
  {
    /** The contract of the timesync step: its limits are the values the settings hold. */
    function Judging(settings: seq<Setting>): Contract {
      this.(timesync := timesync.(
        maxRtt := Effective(settings, MaxRtt), maxDeviation := Effective(settings, MaxDeviation),
        window := Effective(settings, ConvergenceWindow)))
    }

    predicate Valid() {
      guard.Valid() && timesync.Valid()
    }
  }

  function NumberOf(value: Scalar): Timesync.Number {
    match value
    case Float(x) => Timesync.Floating(x)
    case Integer(n) => Timesync.Integer(n)
    case _ => Timesync.Absent
  }

  /** The value read for a key, as a number. */
  function Effective(settings: seq<Setting>, key: Key): Timesync.Number {
    if settings == [] then Timesync.Absent
    else
      var last := settings[|settings| - 1];
      if last.key == key then NumberOf(last.value) else Effective(settings[..|settings| - 1], key)
  }

  datatype Evidence = Evidence(
    identityPass: bool, identityIncomplete: seq<Finding>,
    clockOk: bool, simTime: Option<bool>,
    vehicleOk: bool, vehicleSeen: bool, vehicleFailures: seq<Finding>, autopilot: int,
    pre: PhaseCapture, sourcesBefore: seq<Finding>, runtimeBefore: seq<Finding>,
    transaction: Transaction, post: PhaseCapture, timesync: TimesyncEvidence,
    estimatorOk: bool, estimatorBlank: bool, estimatorCount: nat, estimatorFailures: seq<Finding>,
    runtimeAfter: seq<Finding>, sourcesAfter: seq<Finding>)
  {
    predicate Valid() {
      pre.Valid() && post.Valid() && transaction.during.Valid()
    }
  }

  datatype Verdict = Pass | Incomplete | Fail

  /** One list after the other: empty exactly when both are. */
  function Then(first: seq<Finding>, second: seq<Finding>): (both: seq<Finding>)
    ensures both == [] <==> first == [] && second == []
  {
    first + second
  }

  // ---------------------------------------------------------------- one phase

  function Guarded(failures: seq<PhaseGuard.Failure>): (f: seq<Finding>)
    ensures |f| == |failures|
  {
    seq(|failures|, i requires 0 <= i < |failures| => GuardFinding(failures[i]))
  }

  /** Both streams of a one-shot phase have rows, at least two, and no row shows a violation. */
  ghost predicate PhaseGuarded(p: PhaseCapture, c: Contract) {
    var phase := p.Phase(ONE_SHOT, NO_SPAN);
    && p.state.samples != [] && PhaseGuard.StateRowsHold(phase, 2, c.guard)
    && p.extended.samples != [] && PhaseGuard.ExtendedRowsHold(phase, 2, c.guard)
  }

  /** What a phase must be: captured, parsed and guarded. */
  ghost predicate PhaseHolds(p: PhaseCapture, c: Contract) {
    p.stateOk && p.extendedOk && p.state.failures == [] && p.extended.failures == [] && PhaseGuarded(p, c)
  }

  /** That is what the guard itself says. */
  lemma GuardedIsPass(p: PhaseCapture, c: Contract)
    requires c.Valid()
    ensures PhaseGuard.Guard(p.Phase(ONE_SHOT, NO_SPAN), c.guard).Pass() <==> PhaseGuarded(p, c)
  {
    PhaseGuard.GuardIsRows(p.Phase(ONE_SHOT, NO_SPAN), c.guard);
  }

  /** Some command of the phase failed or left no rows. */
  predicate PhaseAbsent(p: PhaseCapture) {
    !p.stateOk || !p.extendedOk || p.state.samples == [] || p.extended.samples == []
  }

  /** A trace that is not blank did not parse, or the rows present show a violation. */
  ghost predicate PhaseViolated(p: PhaseCapture, c: Contract) {
    var phase := p.Phase(ONE_SHOT, NO_SPAN);
    || (!p.state.blank && p.state.failures != [])
    || (!p.extended.blank && p.extended.failures != [])
    || (p.state.samples != [] && !PhaseGuard.StateRowsHold(phase, 2, c.guard))
    || (p.extended.samples != [] && !PhaseGuard.ExtendedRowsHold(phase, 2, c.guard))
  }

  /** Some row is armed, disconnected or not on the ground, or does not say. */
  predicate UnsafeRow(p: PhaseCapture) {
    || (exists i | 0 <= i < |p.state.samples| ::
          p.state.samples[i].armed != Some(false) || p.state.samples[i].connected != Some(true))
    || (exists i | 0 <= i < |p.extended.samples| :: p.extended.samples[i].landed != Some(PhaseGuard.ON_GROUND))
  }

  lemma UnsafeRowViolates(p: PhaseCapture, c: Contract)
    requires UnsafeRow(p)
    ensures PhaseViolated(p, c)
  {
  }

  /** The failures measured on the rows of a one-shot phase. */
  method MeasurePhase(p: PhaseCapture, c: Contract) returns (failures: seq<Finding>)
    requires c.Valid()
    ensures failures != []
            <==> (p.state.samples != [] && !PhaseGuard.StateRowsHold(p.Phase(ONE_SHOT, NO_SPAN), 2, c.guard)) ||
                 (p.extended.samples != [] && !PhaseGuard.ExtendedRowsHold(p.Phase(ONE_SHOT, NO_SPAN), 2, c.guard))
  {
    var guard := PhaseGuard.Guard(p.Phase(ONE_SHOT, NO_SPAN), c.guard);
    PhaseGuard.MeasuredIsRows(p.Phase(ONE_SHOT, NO_SPAN), c.guard);
    failures := Guarded(PhaseGuard.Measured(guard, p.state.samples != [], p.extended.samples != []));
  }

  lemma PhaseHoldsExactly(p: PhaseCapture, c: Contract)
    requires p.Valid()
    ensures PhaseHolds(p, c) <==> !PhaseViolated(p, c) && !PhaseAbsent(p)
  {
  }

  /** A one-shot phase: the guard itself is never consulted, only the failures measured on the rows. */
  method CheckPhase(p: PhaseCapture, c: Contract) returns (failures: seq<Finding>, incomplete: seq<Finding>)
    requires c.Valid() && p.Valid()
    ensures failures != [] <==> PhaseViolated(p, c)
    ensures incomplete != [] <==> PhaseAbsent(p)
    ensures failures == [] && incomplete == [] <==> PhaseHolds(p, c)
  {
    failures, incomplete := [], [];
    if !p.stateOk || !p.extendedOk || p.state.samples == [] || p.extended.samples == [] {
      incomplete := [PhaseMissing];
    }
    if !p.state.blank && p.state.failures != [] {
      failures := failures + p.state.failures;
    }
    if !p.extended.blank && p.extended.failures != [] {
      failures := failures + p.extended.failures;
    }
    var measured := MeasurePhase(p, c);
    failures := failures + measured;
    PhaseHoldsExactly(p, c);
  }

  // ---------------------------------------------------------------- the forced pull

  function DumpSpan(t: Transaction): PhaseGuard.Interval {
    PhaseGuard.Interval(t.dumpStart, t.dumpEnd)
  }

  /** The traces that ran beside the dump; their guard spans the dump and knows no capture interval. */
  function DuringPhase(t: Transaction, c: Contract): PhaseGuard.Phase {
    t.during.(stateInterval := NO_SPAN, extendedInterval := NO_SPAN).Phase(c.duringMinimum, DumpSpan(t))
  }

  function DumpOf(t: Transaction, c: Contract, autopilot: int): ParamTrace.Dump {
    ParamTrace.Dump(t.values, t.reported, autopilot, c.minParams)
  }

  function PullTiming(t: Transaction, c: Contract): ParamTrace.Timing {
    ParamTrace.Timing(c.maxAge, c.maxFuture, t.params.ready, t.dumpStart, t.dumpEnd)
  }

  /** The traces beside the dump. Whether their two commands themselves succeeded is not asked. */
  ghost predicate DuringHolds(t: Transaction, c: Contract)
    requires c.Valid()
  {
    && t.during.state.failures == [] && t.during.extended.failures == []
    && PhaseGuard.GuardHolds(DuringPhase(t, c), c.guard)
  }

  /** The dump and its raw parameter messages. */
  ghost predicate DumpHolds(t: Transaction, c: Contract, autopilot: int) {
    && t.dumpOk && t.artifact && t.dumpErrors == [] && t.params.failures == []
    && ParamTrace.Passes(t.params.samples, DumpOf(t, c, autopilot), PullTiming(t, c))
  }

  /** What was dumped or traced is itself wrong. */
  ghost predicate DumpViolated(t: Transaction, c: Contract, autopilot: int) {
    || t.dumpErrors != [] || t.params.failures != []
    || !ParamTrace.Passes(t.params.samples, DumpOf(t, c, autopilot), PullTiming(t, c))
  }

  /** Everything wrong about a pull but a failed dump command is a failure. */
  ghost predicate PullViolated(t: Transaction, c: Contract, autopilot: int)
    requires c.Valid()
  {
    !t.ready || !t.safetySample || !t.concurrent || !DuringHolds(t, c) || DumpViolated(t, c, autopilot)
  }

  ghost predicate PullHolds(t: Transaction, c: Contract, autopilot: int)
    requires c.Valid()
  {
    t.ready && t.safetySample && t.concurrent && DuringHolds(t, c) && DumpHolds(t, c, autopilot)
  }

  method CheckDuring(t: Transaction, c: Contract) returns (failures: seq<Finding>)
    requires c.Valid()
    ensures failures == [] <==> DuringHolds(t, c)
  {
    failures := [];
    var guard := PhaseGuard.Guard(DuringPhase(t, c), c.guard);
    PhaseGuard.GuardIsRows(DuringPhase(t, c), c.guard);
    if !t.during.stateOk || !t.during.extendedOk || t.during.state.failures != [] || t.during.extended.failures != [] ||
       !guard.Pass() {
      failures := t.during.state.failures + t.during.extended.failures + Guarded(guard.failures);
    }
  }

  method CheckDump(t: Transaction, c: Contract, autopilot: int)
    returns (failures: seq<Finding>, incomplete: seq<Finding>)
    ensures failures != [] <==> DumpViolated(t, c, autopilot)
    ensures incomplete != [] <==> !t.dumpOk || !t.artifact
    ensures failures == [] && incomplete == [] <==> DumpHolds(t, c, autopilot)
  {
    failures, incomplete := [], [];
    var report := ParamTrace.Analyze(t.params.samples, DumpOf(t, c, autopilot), PullTiming(t, c));
    if !t.dumpOk || !t.artifact {
      incomplete := [DumpIncomplete];
    }
    if t.dumpErrors != [] || t.params.failures != [] || !report.pass {
      failures := t.dumpErrors + t.params.failures + (if report.pass then [] else [ParamTraceFailed]);
    }
  }

  function Handshakes(t: Transaction): (f: seq<Finding>)
    ensures f == [] <==> t.ready && t.safetySample && t.concurrent
  {
    (if t.ready then [] else [NotReady]) + (if t.safetySample then [] else [NoSafetySample]) +
    (if t.concurrent then [] else [NotConcurrent])
  }

  method CheckPull(t: Transaction, c: Contract, autopilot: int)
    returns (failures: seq<Finding>, incomplete: seq<Finding>)
    requires c.Valid()
    ensures failures != [] <==> PullViolated(t, c, autopilot)
    ensures incomplete != [] <==> !t.dumpOk || !t.artifact
    ensures failures == [] && incomplete == [] <==> PullHolds(t, c, autopilot)
  {
    var during := CheckDuring(t, c);
    failures, incomplete := CheckDump(t, c, autopilot);
    failures := Handshakes(t) + during + failures;
  }

  /** The messages of a good pull all arrived while the vehicle was watched: disarmed, connected and on the ground. */
  lemma PulledWhileDisarmed(t: Transaction, c: Contract, autopilot: int, k: nat) returns (i: nat, j: nat)
    requires c.Valid() && DuringHolds(t, c) && DumpHolds(t, c, autopilot) && k < |t.params.samples|
    ensures PhaseGuard.SafelyDisarmedAt(t.during.state.samples, i, t.params.samples[k].steady, c.guard.maxGap)
    ensures PhaseGuard.OnGroundAt(t.during.extended.samples, j, t.params.samples[k].steady, c.guard.maxGap)
  {
    var start, end := ArrivalInSpan(t, c, autopilot, k);
    PhaseGuard.GuardIsRows(DuringPhase(t, c), c.guard);
    i, j := PhaseGuard.GuardCoversSpan(DuringPhase(t, c), c.guard, start, end, t.params.samples[k].steady);
  }

  lemma ArrivalInSpan(t: Transaction, c: Contract, autopilot: int, k: nat) returns (start: int, end: int)
    requires DumpHolds(t, c, autopilot) && k < |t.params.samples|
    ensures DumpSpan(t) == PhaseGuard.Interval(Some(start), Some(end)) && start <= t.params.samples[k].steady <= end
  {
    start, end := t.dumpStart.value, t.dumpEnd.value;
  }

  // ---------------------------------------------------------------- timesync and estimator

  predicate AllExact(settings: seq<Setting>) {
    forall i | 0 <= i < |settings| :: settings[i].Exact()
  }

  method CheckSettings(settings: seq<Setting>) returns (failures: seq<Finding>, incomplete: seq<Finding>)
    ensures failures == [] && incomplete == [] <==> AllExact(settings)
    ensures failures != [] <==> exists i | 0 <= i < |settings| :: settings[i].commandOk && !settings[i].Exact()
    ensures incomplete != [] <==> exists i | 0 <= i < |settings| :: !settings[i].commandOk && !settings[i].Exact()
  {
    failures, incomplete := [], [];
    for i := 0 to |settings|
      invariant failures == [] && incomplete == [] <==> forall k | 0 <= k < i :: settings[k].Exact()
      invariant failures != [] <==> exists k | 0 <= k < i :: settings[k].commandOk && !settings[k].Exact()
      invariant incomplete != [] <==> exists k | 0 <= k < i :: !settings[k].commandOk && !settings[k].Exact()
    {
      var exact := settings[i].commandOk && settings[i].value == settings[i].expected;
      if settings[i].expected.Float? && settings[i].value.Number().Some? {
        exact := settings[i].value.Number().value == settings[i].expected.x;
      }
      if !exact {
        if settings[i].commandOk {
          failures := failures + [ConfigMismatch];
        } else {
          incomplete := incomplete + [ConfigUnavailable];
        }
      }
    }
  }

  ghost predicate TraceHolds(t: TimesyncTraceEvidence, c: Contract)
    requires c.Valid()
  {
    && t.commandOk
    && TraceParser.ParserAccepts(t.log, c.minimums, c.freshness)
    && TimesyncTrace.TraceReportPasses(t.log, c.names, t.reference, c.timesync)
  }

  /** A successful capture that does not hold, or what was measured on a failed one. */
  ghost predicate TraceViolated(t: TimesyncTraceEvidence, c: Contract)
    requires c.Valid()
  {
    if t.commandOk then !TraceHolds(t, c) else t.measured != []
  }

  method CheckTimesyncTrace(t: TimesyncTraceEvidence, c: Contract)
    returns (failures: seq<Finding>, incomplete: seq<Finding>)
    requires c.Valid()
    ensures failures != [] <==> TraceViolated(t, c)
    ensures incomplete != [] <==> !t.commandOk
    ensures failures == [] && incomplete == [] <==> TraceHolds(t, c)
  {
    failures, incomplete := [], [];
    var trace := TraceParser.Parse(t.log, c.minimums, c.freshness);
    var rows := TimesyncTrace.RowsOf(trace.streams.status);
    var matched, parsed := TimesyncTrace.DiagnosticRecords(trace.streams.acceptance, c.names.acceptance);
    var watched, clean := TimesyncTrace.DiagnosticRecords(trace.streams.diagnostics, c.names.diagnostic);
    var report, _ :=
      Timesync.Report(rows, matched, parsed, Timesync.Statuses(watched, clean), t.reference, c.timesync);
    if !t.commandOk {
      incomplete, failures := [TimesyncIncomplete], t.measured;
    } else if !trace.pass {
      failures := if report then [TimesyncTraceFailed] else [TimesyncTraceFailed, TimesyncReportFailed];
    } else if !report {
      failures := [TimesyncReportFailed];
    }
  }

  ghost predicate TimesyncHolds(t: TimesyncEvidence, c: Contract)
    requires c.Valid()
  {
    && AllExact(t.settings)
    && TraceHolds(t.trace, c.Judging(t.settings))
    && t.sourceFailures == []
  }

  /** A setting that was read is wrong, the trace is, or the source that was found is. */
  ghost predicate TimesyncViolated(t: TimesyncEvidence, c: Contract)
    requires c.Valid()
  {
    || (exists i | 0 <= i < |t.settings| :: t.settings[i].commandOk && !t.settings[i].Exact())
    || TraceViolated(t.trace, c.Judging(t.settings))
    || (t.sourceAvailable && t.sourceFailures != [])
  }

  predicate TimesyncAbsent(t: TimesyncEvidence) {
    || (exists i | 0 <= i < |t.settings| :: !t.settings[i].commandOk && !t.settings[i].Exact())
    || !t.trace.commandOk || (!t.sourceAvailable && t.sourceFailures != [])
  }

  method CheckSource(t: TimesyncEvidence) returns (failures: seq<Finding>, incomplete: seq<Finding>)
    ensures failures == [] && incomplete == [] <==> t.sourceFailures == []
    ensures if t.sourceAvailable then incomplete == [] else failures == []
  {
    failures, incomplete := [], [];
    if t.sourceFailures != [] {
      if t.sourceAvailable {
        failures := t.sourceFailures;
      } else {
        incomplete := t.sourceFailures;
      }
    }
  }

  method CheckTimesync(t: TimesyncEvidence, c: Contract) returns (failures: seq<Finding>, incomplete: seq<Finding>)
    requires c.Valid()
    ensures failures != [] <==> TimesyncViolated(t, c)
    ensures incomplete != [] <==> TimesyncAbsent(t)
    ensures failures == [] && incomplete == [] <==> TimesyncHolds(t, c)
  {
    var settingFailures, settingIncomplete := CheckSettings(t.settings);
    var traceFailures, traceIncomplete := CheckTimesyncTrace(t.trace, c.Judging(t.settings));
    var sourceFailures, sourceIncomplete := CheckSource(t);
    failures := Then(Then(settingFailures, traceFailures), sourceFailures);
    incomplete := Then(Then(settingIncomplete, traceIncomplete), sourceIncomplete);
  }

  predicate EstimatorHolds(e: Evidence) {
    e.estimatorOk && e.estimatorCount > 0 && e.estimatorFailures == []
  }

  /** Text that holds no document, or documents that fail the contract. */
  predicate EstimatorViolated(e: Evidence) {
    if e.estimatorCount == 0 then !e.estimatorBlank else e.estimatorFailures != []
  }

  method CheckEstimator(e: Evidence) returns (failures: seq<Finding>, incomplete: seq<Finding>)
    ensures failures != [] <==> EstimatorViolated(e)
    ensures incomplete != [] <==> !e.estimatorOk || e.estimatorCount == 0
    ensures failures == [] && incomplete == [] <==> EstimatorHolds(e)
  {
    failures, incomplete := [], [];
    if !e.estimatorOk || e.estimatorCount == 0 {
      incomplete := [EstimatorIncomplete];
    }
    if !e.estimatorBlank && e.estimatorCount == 0 {
      failures := [EstimatorMalformed];
    } else if e.estimatorCount > 0 && e.estimatorFailures != [] {
      failures := e.estimatorFailures;
    }
  }

  // ---------------------------------------------------------------- the receipt

  predicate ClockHolds(e: Evidence) {
    e.clockOk && e.simTime == Some(false)
  }

  /** What the pull needs before it may run. */
  ghost predicate Authorized(e: Evidence, c: Contract) {
    && PhaseGuarded(e.pre, c)
    && e.pre.state.failures == [] && e.pre.extended.failures == []
    && e.vehicleFailures == [] && ClockHolds(e) && e.identityPass
    && e.sourcesBefore == [] && e.runtimeBefore == []
  }

  /** What a PASS vouches for up to the pull, and after it. */
  ghost predicate PullAndBeforeHold(e: Evidence, c: Contract)
    requires c.Valid()
  {
    && e.identityPass && e.identityIncomplete == [] && ClockHolds(e) && e.vehicleFailures == []
    && e.sourcesBefore == [] && e.runtimeBefore == []
    && PhaseHolds(e.pre, c) && PullHolds(e.transaction, c, e.autopilot)
  }

  ghost predicate AfterHolds(e: Evidence, c: Contract)
    requires c.Valid()
  {
    && PhaseHolds(e.post, c) && TimesyncHolds(e.timesync, c) && EstimatorHolds(e)
    && e.runtimeAfter == [] && e.sourcesAfter == []
  }

  /** Everything a PASS vouches for. */
  ghost predicate AllHold(e: Evidence, c: Contract)
    requires c.Valid()
  {
    PullAndBeforeHold(e, c) && AfterHolds(e, c)
  }

  /** What makes the receipt fail, evidence by evidence, up to the pull. */
  ghost predicate BeforeViolated(e: Evidence, c: Contract) {
    || (e.clockOk && e.simTime != Some(false))
    || ((e.vehicleOk || e.vehicleSeen) && e.vehicleFailures != [])
    || PhaseViolated(e.pre, c)
    || (e.identityPass && (e.sourcesBefore != [] || e.runtimeBefore != []))
  }

  /** What leaves the receipt incomplete up to the pull. */
  predicate BeforeAbsent(e: Evidence) {
    || e.identityIncomplete != [] || !e.identityPass || !e.clockOk
    || (!e.vehicleOk && !e.vehicleSeen && e.vehicleFailures != [])
    || PhaseAbsent(e.pre)
  }

  ghost predicate AfterViolated(e: Evidence, c: Contract)
    requires c.Valid()
  {
    || PhaseViolated(e.post, c) || TimesyncViolated(e.timesync, c) || EstimatorViolated(e)
    || (e.identityPass && (e.runtimeAfter != [] || e.sourcesAfter != []))
  }

  predicate AfterAbsent(e: Evidence) {
    PhaseAbsent(e.post) || TimesyncAbsent(e.timesync) || !e.estimatorOk || e.estimatorCount == 0
  }

  /** Some evidence proves a violation; that of the pull counts only if the pull was authorized. */
  ghost predicate Violated(e: Evidence, c: Contract)
    requires c.Valid()
  {
    || BeforeViolated(e, c) || (Authorized(e, c) && PullViolated(e.transaction, c, e.autopilot))
    || AfterViolated(e, c)
  }

  /** Some evidence is missing. */
  ghost predicate Absent(e: Evidence, c: Contract) {
    BeforeAbsent(e) || !Authorized(e, c) || !e.transaction.dumpOk || !e.transaction.artifact || AfterAbsent(e)
  }

  /** The clock setting and the vehicle. */
  method CheckVehicle(e: Evidence) returns (failures: seq<Finding>, incomplete: seq<Finding>)
    ensures failures != [] <==>
            (e.clockOk && e.simTime != Some(false)) || ((e.vehicleOk || e.vehicleSeen) && e.vehicleFailures != [])
    ensures incomplete != [] <==>
            !e.clockOk || (!e.vehicleOk && !e.vehicleSeen && e.vehicleFailures != []) || e.identityIncomplete != []
  {
    failures, incomplete := [], e.identityIncomplete;
    if !e.clockOk {
      incomplete := incomplete + [ClockUnavailable];
    } else if e.simTime != Some(false) {
      failures := failures + [ClockNotFalse];
    }
    if e.vehicleFailures != [] {
      if e.vehicleOk || e.vehicleSeen {
        failures := failures + e.vehicleFailures;
      } else {
        incomplete := incomplete + e.vehicleFailures;
      }
    }
  }

  /** The identity once more, right before the pull. */
  method CheckRechecks(e: Evidence) returns (failures: seq<Finding>, incomplete: seq<Finding>)
    ensures failures != [] <==> e.identityPass && (e.sourcesBefore != [] || e.runtimeBefore != [])
    ensures incomplete != [] <==> !e.identityPass
  {
    failures, incomplete := [], [];
    if e.sourcesBefore != [] {
      if e.identityPass {
        failures := failures + e.sourcesBefore;
      } else {
        incomplete := incomplete + e.sourcesBefore;
      }
    }
    if e.identityPass {
      failures := failures + e.runtimeBefore;
    } else {
      incomplete := incomplete + [RecheckSkipped];
    }
  }

  method Authorize(e: Evidence, c: Contract) returns (authorized: bool)
    requires c.Valid()
    ensures authorized <==> Authorized(e, c)
  {
    var guard := PhaseGuard.Guard(e.pre.Phase(ONE_SHOT, NO_SPAN), c.guard);
    GuardedIsPass(e.pre, c);
    var clockPass := e.clockOk && e.simTime == Some(false);
    authorized := guard.Pass() && e.pre.state.failures == [] && e.pre.extended.failures == [] &&
      e.vehicleFailures == [] && clockPass && e.identityPass && e.sourcesBefore == [] && e.runtimeBefore == [];
  }

  /** The steps before the pull. */
  method CheckPreconditions(e: Evidence, c: Contract)
    returns (failures: seq<Finding>, incomplete: seq<Finding>, authorized: bool)
    requires c.Valid() && e.Valid()
    ensures authorized <==> Authorized(e, c)
    ensures failures != [] <==> BeforeViolated(e, c)
    ensures incomplete != [] <==> BeforeAbsent(e)
    ensures failures == [] && incomplete == []
            <==> authorized && e.identityIncomplete == [] && PhaseHolds(e.pre, c)
  {
    failures, incomplete := CheckVehicle(e);
    var phaseFailures, phaseIncomplete := CheckPhase(e.pre, c);
    failures, incomplete := Then(failures, phaseFailures), Then(incomplete, phaseIncomplete);
    var recheckFailures, recheckIncomplete := CheckRechecks(e);
    failures, incomplete := Then(failures, recheckFailures), Then(incomplete, recheckIncomplete);
    authorized := Authorize(e, c);
  }

  /** The last steps: the estimator, and the identity once more. */
  method CheckEnd(e: Evidence) returns (failures: seq<Finding>, incomplete: seq<Finding>)
    ensures failures != []
            <==> EstimatorViolated(e) || (e.identityPass && (e.runtimeAfter != [] || e.sourcesAfter != []))
    ensures incomplete != [] <==> !e.estimatorOk || e.estimatorCount == 0
    ensures e.identityPass ==>
              (failures == [] && incomplete == [] <==>
               EstimatorHolds(e) && e.runtimeAfter == [] && e.sourcesAfter == [])
  {
    failures, incomplete := CheckEstimator(e);
    if e.identityPass {
      failures := failures + e.runtimeAfter + e.sourcesAfter;
    }
  }

  /** The phase after the pull, and the time synchronisation. */
  method CheckPost(e: Evidence, c: Contract) returns (failures: seq<Finding>, incomplete: seq<Finding>)
    requires c.Valid() && e.Valid()
    ensures failures != [] <==> PhaseViolated(e.post, c) || TimesyncViolated(e.timesync, c)
    ensures incomplete != [] <==> PhaseAbsent(e.post) || TimesyncAbsent(e.timesync)
    ensures failures == [] && incomplete == [] <==> PhaseHolds(e.post, c) && TimesyncHolds(e.timesync, c)
  {
    failures, incomplete := CheckPhase(e.post, c);
    var timesyncFailures, timesyncIncomplete := CheckTimesync(e.timesync, c);
    failures, incomplete := Then(failures, timesyncFailures), Then(incomplete, timesyncIncomplete);
  }

  /** The steps after the pull. */
  method CheckAftermath(e: Evidence, c: Contract) returns (failures: seq<Finding>, incomplete: seq<Finding>)
    requires c.Valid() && e.Valid()
    ensures failures != [] <==> AfterViolated(e, c)
    ensures incomplete != [] <==> AfterAbsent(e)
    ensures e.identityPass ==> (failures == [] && incomplete == [] <==> AfterHolds(e, c))
  {
    failures, incomplete := CheckPost(e, c);
    var endFailures, endIncomplete := CheckEnd(e);
    failures, incomplete := Then(failures, endFailures), Then(incomplete, endIncomplete);
  }

  /** Up to the pull; without authorization the pull never runs. */
  method CheckPullAndBefore(e: Evidence, c: Contract)
    returns (failures: seq<Finding>, incomplete: seq<Finding>, pulled: bool)
    requires c.Valid() && e.Valid()
    ensures failures != [] <==> BeforeViolated(e, c) || (pulled && PullViolated(e.transaction, c, e.autopilot))
    ensures incomplete != []
            <==> BeforeAbsent(e) || !pulled || !e.transaction.dumpOk || !e.transaction.artifact
    ensures failures == [] && incomplete == [] <==> PullAndBeforeHold(e, c)
    ensures pulled <==> Authorized(e, c)
  {
    failures, incomplete, pulled := CheckPreconditions(e, c);
    if pulled {
      var pullFailures, pullIncomplete := CheckPull(e.transaction, c, e.autopilot);
      failures, incomplete := Then(failures, pullFailures), Then(incomplete, pullIncomplete);
    } else {
      incomplete := incomplete + [PullSkipped];
    }
  }

  /** An armed, disconnected or airborne row before or after the pull is a violation, whatever else is missing. */
  lemma UnsafeRowsFail(e: Evidence, c: Contract)
    requires c.Valid()
    ensures UnsafeRow(e.pre) || UnsafeRow(e.post) ==> Violated(e, c)
  {
    if UnsafeRow(e.pre) {
      UnsafeRowViolates(e.pre, c);
    }
    if UnsafeRow(e.post) {
      UnsafeRowViolates(e.post, c);
    }
  }

  /** Both lists of the whole run. */
  method CheckAll(e: Evidence, c: Contract)
    returns (failures: seq<Finding>, incomplete: seq<Finding>, pulled: bool)
    requires c.Valid() && e.Valid()
    ensures failures != [] <==> Violated(e, c)
    ensures incomplete != [] <==> Absent(e, c)
    ensures failures == [] && incomplete == [] <==> AllHold(e, c)
    ensures pulled <==> Authorized(e, c)
  {
    failures, incomplete, pulled := CheckPullAndBefore(e, c);
    var laterFailures, laterIncomplete := CheckAftermath(e, c);
    failures, incomplete := Then(failures, laterFailures), Then(incomplete, laterIncomplete);
  }

  /** The whole run: PASS exactly when every part holds; without authorization the pull never runs. */
  method Collect(e: Evidence, c: Contract)
    returns (verdict: Verdict, failures: seq<Finding>, incomplete: seq<Finding>, pulled: bool)
    requires c.Valid() && e.Valid()
    ensures verdict == Pass <==> AllHold(e, c)
    ensures verdict == Fail <==> Violated(e, c)
    ensures verdict == Incomplete <==> Absent(e, c) && !Violated(e, c)
    ensures UnsafeRow(e.pre) || UnsafeRow(e.post) ==> verdict == Fail
    ensures verdict == Pass <==> failures == [] && incomplete == []
    ensures verdict == Fail <==> failures != []
    ensures pulled <==> Authorized(e, c)
  {
    failures, incomplete, pulled := CheckAll(e, c);
    UnsafeRowsFail(e, c);
    verdict := if failures != [] then Fail else if incomplete != [] then Incomplete else Pass;
  }

  /** On PASS all parameters arrived while the vehicle was watched: disarmed, connected and on the ground. */
  lemma ParametersArrivedDisarmed(e: Evidence, c: Contract, k: nat) returns (i: nat, j: nat)
    requires c.Valid() && AllHold(e, c) && k < |e.transaction.params.samples|
    ensures var t, instant := e.transaction, e.transaction.params.samples[k].steady;
            && PhaseGuard.SafelyDisarmedAt(t.during.state.samples, i, instant, c.guard.maxGap)
            && PhaseGuard.OnGroundAt(t.during.extended.samples, j, instant, c.guard.maxGap)
  {
    i, j := PulledWhileDisarmed(e.transaction, c, e.autopilot, k);
  }

  /**
   On PASS the dumped values are the parameters the vehicle sent, at least as many as configured, each of them with its
   own index below their number, and the tool reported that number, or one more for a PX4 hash record.
   */
  lemma PassedParameters(e: Evidence, c: Contract) returns (names: seq<string>)
    requires c.Valid() && AllHold(e, c)
    ensures var t := e.transaction;
            && ParamTrace.Lists(names, t.values) && |names| >= c.minParams
            && (t.reported == |names| || (t.reported == |names| + 1 && e.autopilot == ParamTrace.MAV_AUTOPILOT_PX4))
  {
    var t := e.transaction;
    var dump := DumpOf(t, c, e.autopilot);
    var docs := ParamTrace.Documents(t.params.samples);
    names := ParamTrace.CompleteIsBijection(docs, dump);
    ParamTrace.ReportedNumber(docs, dump, |names|);
  }

  // ---------------------------------------------------------------- what a PASS says of the settings

  /** The receipt's evidence with another reading of one setting. */
  function Reread(e: Evidence, i: nat, s: Setting): Evidence
    requires i < |e.timesync.settings|
  {
    e.(timesync := e.timesync.(settings := e.timesync.settings[i := s]))
  }

  /** The timesync evidence is judged apart from everything else. */
  lemma TimesyncIsApart(e: Evidence, t: TimesyncEvidence, c: Contract)
    requires c.Valid() && AllHold(e, c)
    ensures AllHold(e.(timesync := t), c) <==> TimesyncHolds(t, c)
  {
  }

  lemma SettingsAreApart(t: TimesyncEvidence, other: TimesyncEvidence, c: Contract)
    requires c.Valid() && TimesyncHolds(t, c) && c.Judging(other.settings) == c.Judging(t.settings)
    requires other.trace == t.trace && other.sourceFailures == t.sourceFailures
    ensures TimesyncHolds(other, c) <==> AllExact(other.settings)
  {
  }

  lemma OtherSettingsAreExact(settings: seq<Setting>, i: nat, s: Setting)
    requires AllExact(settings) && i < |settings|
    ensures AllExact(settings[i := s]) <==> s.Exact()
  {
    assert settings[i := s][i] == s;
  }

  /** The limits depend on keys and values alone. */
  lemma {:induction false} SameEffective(settings: seq<Setting>, i: nat, s: Setting, key: Key)
    requires i < |settings| && s.key == settings[i].key && s.value == settings[i].value
    ensures Effective(settings[i := s], key) == Effective(settings, key)
  {
    var n := |settings| - 1;
    if i == n {
      assert settings[i := s][..n] == settings[..n];
    } else {
      assert settings[i := s][..n] == settings[..n][i := s];
      SameEffective(settings[..n], i, s, key);
    }
  }

  /** Only the success of the command, or the expected value, differs. */
  lemma RereadHolds(e: Evidence, c: Contract, i: nat, s: Setting)
    requires c.Valid() && AllHold(e, c) && i < |e.timesync.settings|
    requires s.key == e.timesync.settings[i].key && s.value == e.timesync.settings[i].value
    ensures AllHold(Reread(e, i, s), c) <==> s.Exact()
  {
    var t := e.timesync.(settings := e.timesync.settings[i := s]);
    OtherSettingsAreExact(e.timesync.settings, i, s);
    SameEffective(e.timesync.settings, i, s, MaxRtt);
    SameEffective(e.timesync.settings, i, s, MaxDeviation);
    SameEffective(e.timesync.settings, i, s, ConvergenceWindow);
    SettingsAreApart(e.timesync, t, c);
    TimesyncIsApart(e, t, c);
  }

  lemma RereadIsExact(e: Evidence, c: Contract, i: nat, s: Setting)
    requires c.Valid() && i < |e.timesync.settings| && AllHold(Reread(e, i, s), c)
    ensures s.Exact()
  {
    assert Reread(e, i, s).timesync.settings[i] == s;
  }

  /** However setting i might have been read against its expected value: a PASS means that the command succeeded. */
  ghost predicate Vouches(e: Evidence, c: Contract, i: nat)
    requires c.Valid() && i < |e.timesync.settings|
  {
    forall s: Setting | s.key == e.timesync.settings[i].key && s.expected == e.timesync.settings[i].expected ::
      VouchesFor(e, c, i, s)
  }

  ghost predicate VouchesFor(e: Evidence, c: Contract, i: nat, s: Setting)
    requires c.Valid() && i < |e.timesync.settings|
  {
    AllHold(Reread(e, i, s), c) ==> s.commandOk
  }

  /** A read that failed after it had printed the expected 10.0 adds no entry to either list. */
  method FailedReadIsExact(key: Key) returns (failures: seq<Finding>, incomplete: seq<Finding>)
    ensures failures == [] && incomplete == []
  {
    var rate := Setting(key, false, Float(10.0), Float(10.0));
    assert rate.Exact();
    failures, incomplete := CheckSettings([rate]);
  }

  lemma ExactAgainstOther(s: Setting)
    requires s.Exact() && !s.expected.Float?
    ensures s.commandOk
  {
  }

  lemma FailedReadStillPasses(e: Evidence, c: Contract, i: nat, s: Setting)
    requires c.Valid() && AllHold(e, c) && i < |e.timesync.settings| && e.timesync.settings[i].expected.Float?
    requires s == e.timesync.settings[i].(commandOk := false)
    ensures !VouchesFor(e, c, i, s)
  {
    HoldsExact(e, c, i);
    RereadHolds(e, c, i, s);
  }

  lemma HoldsExact(e: Evidence, c: Contract, i: nat)
    requires c.Valid() && AllHold(e, c) && i < |e.timesync.settings|
    ensures e.timesync.settings[i].Exact()
  {
  }

  /**
   A PASS vouches for the command that read a setting exactly when the expected value is not a float: against a float a
   failed command passes on the text it had printed before.
   */
  lemma PassVouchesForCommand(e: Evidence, c: Contract, i: nat)
    requires c.Valid() && AllHold(e, c) && i < |e.timesync.settings|
    ensures Vouches(e, c, i) <==> !e.timesync.settings[i].expected.Float?
  {
    var own := e.timesync.settings[i];
    if own.expected.Float? {
      FailedReadStillPasses(e, c, i, own.(commandOk := false));
    } else {
      forall s: Setting | s.key == own.key && s.expected == own.expected ensures VouchesFor(e, c, i, s) {
        if AllHold(Reread(e, i, s), c) {
          RereadIsExact(e, c, i, s);
          ExactAgainstOther(s);
        }
      }
    }
  }

  // ---------------------------------------------------------------- a PASS speaks of the configured limits

  /** The settings are the entries of a dictionary. */
  predicate DistinctSettings(settings: seq<Setting>) {
    forall i, j | 0 <= i < j < |settings| :: settings[i].key != settings[j].key
  }

  lemma {:induction false} EffectiveIsRead(settings: seq<Setting>, i: nat)
    requires DistinctSettings(settings) && i < |settings|
    ensures Effective(settings, settings[i].key) == NumberOf(settings[i].value)
  {
    var n := |settings| - 1;
    if i < n {
      assert settings[i].key != settings[n].key;
      EffectiveIsRead(settings[..n], i);
    }
  }

  /** An exact setting with a numeric expected value was read as that number. */
  lemma EffectiveIsExpected(settings: seq<Setting>, i: nat)
    requires DistinctSettings(settings) && AllExact(settings) && i < |settings|
    requires settings[i].expected.Number().Some?
    ensures var limit := Effective(settings, settings[i].key);
            !limit.Absent? && Timesync.Value(limit) == settings[i].expected.Number().value
  {
    EffectiveIsRead(settings, i);
    assert settings[i].Exact();
  }

  /** What a limit says of a linked tail record. */
  ghost predicate MeetsLimit(item: Timesync.Record, key: Key, limit: real) {
    match key
    case MaxRtt => item.rtt < limit
    case MaxDeviation => AbsInt(item.deviation) as real <= limit * 1000000.0
    case ConvergenceWindow => item.acceptedSequence as real >= limit
    case OtherKey(_) => true
  }

  /** The records of the tail of a trace. */
  function TailOf(t: TimesyncTraceEvidence, c: Contract): seq<Timesync.Record> {
    Timesync.Tail(
      Timesync.WellFormed(TimesyncTrace.MatchedOf(TimesyncTrace.Documents(t.log), c.names.acceptance)), c.timesync.tail)
  }

  lemma TailMeetsEffective(t: TimesyncEvidence, c: Contract, key: Key, k: nat)
    requires c.Valid() && TimesyncHolds(t, c) && k < |TailOf(t.trace, c)| && !Effective(t.settings, key).Absent?
    ensures MeetsLimit(TailOf(t.trace, c)[k], key, Timesync.Value(Effective(t.settings, key)))
  {
    var judged := c.Judging(t.settings).timesync;
    var tail := TailOf(t.trace, c);
    assert Timesync.RecordsWithinLimits(tail, judged) && Timesync.Converged(tail, judged.window);
    if key.ConvergenceWindow? {
      Timesync.StepsAddUp(tail, k + 1);
    }
  }

  /**
   On PASS every tail record meets the configured limits: below the expected round-trip time, within the expected
   deviation, and past the expected convergence window.
   */
  lemma PassMeetsConfiguredLimits(e: Evidence, c: Contract, i: nat, k: nat)
    requires c.Valid() && AllHold(e, c) && DistinctSettings(e.timesync.settings) && i < |e.timesync.settings|
    requires e.timesync.settings[i].expected.Number().Some? && k < |TailOf(e.timesync.trace, c)|
    ensures var s := e.timesync.settings[i];
            MeetsLimit(TailOf(e.timesync.trace, c)[k], s.key, s.expected.Number().value)
  {
    TimesyncOf(e, c);
    EffectiveIsExpected(e.timesync.settings, i);
    TailMeetsEffective(e.timesync, c, e.timesync.settings[i].key, k);
  }

  lemma TimesyncOf(e: Evidence, c: Contract)
    requires c.Valid() && AllHold(e, c)
    ensures TimesyncHolds(e.timesync, c) && AllExact(e.timesync.settings)
  {
  }

  // ---------------------------------------------------------------- what the capture contributes

  /**
   The timesync trace of a receipt whose log is that of a capture run which exited 0,
       with the producer in order: left to
   check are the capture command, that every line is readable, the gates the capture leaves open, and the report with
   records paired by position.
   */
  lemma ExitZeroTraceHolds(t: TimesyncTraceEvidence, c: Contract, capture: Capture.Config, deadline: real,
                           events: seq<Capture.Event>)
    requires c.Valid() && Capture.Run(capture, Capture.Initial(deadline), events).phase == Capture.Exited(0)
    requires t.log == Capture.Run(capture, Capture.Initial(deadline), events).log
    requires c.minimums == capture.minimums && c.names.acceptance == capture.acceptanceName
    requires c.timesync.tail <= capture.minimums.acceptance &&
             TimesyncTrace.ProducerInOrder(t.log, capture.acceptanceName)
    ensures t.log != []
    ensures TraceHolds(t, c)
            <==> t.commandOk && CaptureRuns.ReadableLog(t.log) && CaptureRuns.OpenGates(t.log, c.freshness) &&
                 TimesyncTrace.PassesInOrder(t.log, c.names, t.reference, c.timesync)
  {
    CaptureRuns.ExitZeroMeetsReader(capture, deadline, events, c.freshness);
    TimesyncTrace.ExitZeroLinksInOrder(capture, deadline, events, c.names, t.reference, c.timesync);
  }
}
