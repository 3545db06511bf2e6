/**
 The state and landed-state guards around a parameter pull. A missing or non-integer time reads as 0,
 which no gate accepts.
 */
module PhaseGuard {
  import opened Basics

  datatype Times = Times(header: int, ros: int, steady: int)

  datatype StateSample = StateSample(times: Times, connected: Option<bool>, armed: Option<bool>)

  datatype ExtendedSample = ExtendedSample(times: Times, landed: Option<int>)

  const ON_GROUND := 1

  datatype Limits = Limits(maxAge: int, maxFuture: int, maxGap: int)
  {
    predicate Valid() {
      maxGap > 0
    }
  }

  /** An optional pair of steady times: a dump span, or the interval of a capture command. */
  datatype Interval = Interval(start: Option<int>, end: Option<int>)
  {
    predicate Required() {
      start.Some? || end.Some?
    }

    predicate Valid() {
      Required() ==> start.Some? && end.Some? && 1 <= start.value <= end.value
    }
  }

  function StateTimes(s: seq<StateSample>): (t: seq<Times>)
    ensures |t| == |s| && forall i | 0 <= i < |t| :: t[i] == s[i].times
  {
    seq(|s|, i requires 0 <= i < |s| => s[i].times)
  }

  function ExtendedTimes(s: seq<ExtendedSample>): (t: seq<Times>)
    ensures |t| == |s| && forall i | 0 <= i < |t| :: t[i] == s[i].times
  {
    seq(|s|, i requires 0 <= i < |s| => s[i].times)
  }

  /** What surrounds one stream: its ready handshake and the interval of its capture command. */
  datatype Source = Source(ready: Option<int>, capture: Interval)

  datatype Gates = Gates(
    valid: bool, headers: bool, ros: bool, steady: bool, gap: bool, headerFresh: bool, freshAtFinish: bool,
    ready: bool, withinCapture: bool, coversStart: bool, coversEnd: bool)

  predicate TimesValid(t: seq<Times>) {
    |t| > 0 && forall i | 0 <= i < |t| :: t[i].header >= 1 && t[i].ros >= 1 && t[i].steady >= 1
  }

  predicate SteadyIncreasing(t: seq<Times>) {
    forall i | 1 <= i < |t| :: t[i - 1].steady < t[i].steady
  }

  predicate GapsWithin(t: seq<Times>, gap: int) {
    forall i | 1 <= i < |t| :: t[i].steady - t[i - 1].steady <= gap
  }

  function StreamGates(t: seq<Times>, source: Source, reference: int, span: Interval, c: Limits): Gates {
    var valid := TimesValid(t);
    var steady := valid && SteadyIncreasing(t);
    var age := if valid then reference - t[|t| - 1].ros else 0;
    var readyGate := source.ready.Some? && source.ready.value >= 1 && valid && source.ready.value <= t[0].steady;
    var spanned := span.Valid() && span.Required() && valid;
    Gates(
      valid,
      valid && (forall i | 1 <= i < |t| :: t[i - 1].header < t[i].header),
      valid && (forall i | 1 <= i < |t| :: t[i - 1].ros <= t[i].ros),
      steady,
      steady && GapsWithin(t, c.maxGap),
      valid && (forall i | 0 <= i < |t| :: -c.maxFuture <= t[i].ros - t[i].header <= c.maxAge),
      valid && -c.maxFuture <= age <= c.maxAge,
      readyGate && (span.Required() ==> span.start.Some? && source.ready.value <= span.start.value),
      source.capture.Required() ==>
        source.capture.Valid() && valid && source.ready.Some? &&
        source.capture.start.value <= source.ready.value <= t[0].steady &&
        t[|t| - 1].steady <= source.capture.end.value,
      spanned && t[0].steady <= span.start.value,
      spanned && t[|t| - 1].steady >= span.end.value)
  }

  function CeilDiv(a: nat, b: int): (q: nat)
    requires b > 0
    ensures q * b >= a && (q > 0 ==> (q - 1) * b < a)
  {
    (a + b - 1) / b
  }

  function RequiredSamples(minimum: nat, span: Interval, c: Limits): nat
    requires c.Valid()
  {
    if span.Valid() && span.Required() then
      var floor := CeilDiv(span.end.value - span.start.value, c.maxGap) + 2;
      if floor > minimum then floor else minimum
    else minimum
  }

  predicate Connected(s: seq<StateSample>) {
    |s| > 0 && forall i | 0 <= i < |s| :: s[i].connected == Some(true)
  }

  predicate Disarmed(s: seq<StateSample>) {
    |s| > 0 && forall i | 0 <= i < |s| :: s[i].armed == Some(false)
  }

  predicate StateSchema(s: seq<StateSample>) {
    forall i | 0 <= i < |s| :: s[i].connected.Some? && s[i].armed.Some?
  }

  predicate OnGround(s: seq<ExtendedSample>) {
    |s| > 0 && forall i | 0 <= i < |s| :: s[i].landed == Some(ON_GROUND)
  }

  predicate ExtendedSchema(s: seq<ExtendedSample>) {
    forall i | 0 <= i < |s| :: s[i].landed.Some? && 0 <= s[i].landed.value <= 4
  }

  datatype Failure =
    | SpanInvalid | CaptureInvalid | TooFewSamples | NotContinuous | NotReady | OutsideCapture | NotSpanning
    | StateSchemaIncomplete | ExtendedSchemaIncomplete | NotConnected | NotDisarmed | NotOnGround
    | StampsInvalid | HeadersNotMonotonic | RosNotMonotonic | SteadyNotMonotonic | GapTooLong | StaleAtFinish
    | StaleAtArrival

  datatype Report = Report(
    failures: seq<Failure>, required: nat, stateCount: nat, extendedCount: nat,
    state: Gates, extended: Gates, connected: bool, disarmed: bool, onGround: bool)
  {
    predicate Pass() {
      failures == []
    }
  }

  function When(failed: bool, failure: Failure): (f: seq<Failure>)
    ensures f == [] <==> !failed
  {
    if failed then [failure] else []
  }

  /** The failures one stream adds to the guard. */
  function StreamFailures(g: Gates, count: nat, required: nat, source: Source, span: Interval): seq<Failure> {
    When(!source.capture.Valid(), CaptureInvalid) +
    When(count < required, TooFewSamples) +
    When(!g.valid || !g.headers || !g.ros || !g.steady || !g.gap || !g.headerFresh || !g.freshAtFinish,
         NotContinuous) +
    When(!g.ready, NotReady) +
    When(!g.withinCapture, OutsideCapture) +
    When(span.Required() && (!g.coversStart || !g.coversEnd), NotSpanning)
  }

  /** One phase's guard: both streams, their sources, the clock at the end of the phase and the dump span, if any. */
  datatype Phase = Phase(
    state: seq<StateSample>, extended: seq<ExtendedSample>, stateSource: Source, extendedSource: Source,
    reference: int, minimum: nat, span: Interval)

  function Guard(p: Phase, c: Limits): Report
    requires c.Valid()
  {
    var required := RequiredSamples(p.minimum, p.span, c);
    var state := StreamGates(StateTimes(p.state), p.stateSource, p.reference, p.span, c);
    var extended := StreamGates(ExtendedTimes(p.extended), p.extendedSource, p.reference, p.span, c);
    var stateSchema, extendedSchema := StateSchema(p.state), ExtendedSchema(p.extended);
    var connected := stateSchema && Connected(p.state);
    var disarmed := stateSchema && Disarmed(p.state);
    var onGround := extendedSchema && OnGround(p.extended);
    Report(
      When(!p.span.Valid(), SpanInvalid) +
      StreamFailures(state, |p.state|, required, p.stateSource, p.span) +
      StreamFailures(extended, |p.extended|, required, p.extendedSource, p.span) +
      When(!stateSchema, StateSchemaIncomplete) +
      When(!extendedSchema, ExtendedSchemaIncomplete) +
      When(!connected, NotConnected) +
      When(!disarmed, NotDisarmed) +
      When(!onGround, NotOnGround),
      required, |p.state|, |p.extended|, state, extended, connected, disarmed, onGround)
  }

  function GateFailures(g: Gates): seq<Failure> {
    When(!g.valid, StampsInvalid) + When(!g.headers, HeadersNotMonotonic) + When(!g.ros, RosNotMonotonic) +
    When(!g.steady, SteadyNotMonotonic) + When(!g.gap, GapTooLong) +
    When(!g.freshAtFinish, StaleAtFinish) + When(!g.headerFresh, StaleAtArrival) +
    When(!g.ready, NotReady) + When(!g.withinCapture, OutsideCapture)
  }

  function MeasuredState(r: Report): seq<Failure> {
    When(r.stateCount < r.required, TooFewSamples) +
    When(!r.connected, NotConnected) +
    When(!r.disarmed, NotDisarmed) +
    GateFailures(r.state)
  }

  function MeasuredExtended(r: Report): seq<Failure> {
    When(r.extendedCount < r.required, TooFewSamples) +
    When(!r.onGround, NotOnGround) +
    GateFailures(r.extended)
  }

  /** The violations the rows that exist prove on their own. */
  function Measured(r: Report, statePresent: bool, extendedPresent: bool): seq<Failure> {
    (if statePresent then MeasuredState(r) else []) + (if extendedPresent then MeasuredExtended(r) else [])
  }

  // ---------------------------------------------------------------- what PASS covers

  /** Between two consecutive samples around the instant, at most gap apart. */
  ghost predicate Between(t: seq<Times>, i: nat, instant: int, gap: int) {
    1 <= i < |t| && t[i - 1].steady <= instant <= t[i].steady && t[i].steady - t[i - 1].steady <= gap
  }

  lemma {:induction false} InstantIsBetween(t: seq<Times>, instant: int, gap: int) returns (i: nat)
    requires |t| >= 2 && GapsWithin(t, gap) && t[0].steady <= instant <= t[|t| - 1].steady
    ensures Between(t, i, instant, gap)
    decreases |t|
  {
    var n := |t| - 1;
    if instant >= t[n - 1].steady || n == 1 {
      i := n;
    } else {
      i := InstantIsBetween(t[..n], instant, gap);
    }
  }

  lemma GatesOfPass(p: Phase, c: Limits)
    requires c.Valid()
    ensures var r := Guard(p, c);
            r.Pass() <==>
            && p.span.Valid() && StateSchema(p.state) && ExtendedSchema(p.extended)
            && r.connected && r.disarmed && r.onGround
            && StreamFailures(r.state, r.stateCount, r.required, p.stateSource, p.span) == []
            && StreamFailures(r.extended, r.extendedCount, r.required, p.extendedSource, p.span) == []
  {
  }

  lemma NoStreamFailures(g: Gates, count: nat, required: nat, source: Source, span: Interval)
    ensures StreamFailures(g, count, required, source, span) == []
            <==> source.capture.Valid() && count >= required && GateFailures(g) == []
                 && (span.Required() ==> g.coversStart && g.coversEnd)
  {
  }

  /** Two consecutive state samples around the instant, close together, both connected and disarmed. */
  ghost predicate SafelyDisarmedAt(s: seq<StateSample>, i: nat, instant: int, gap: int) {
    && Between(StateTimes(s), i, instant, gap)
    && s[i - 1].connected == s[i].connected == Some(true)
    && s[i - 1].armed == s[i].armed == Some(false)
  }

  ghost predicate OnGroundAt(s: seq<ExtendedSample>, i: nat, instant: int, gap: int) {
    Between(ExtendedTimes(s), i, instant, gap) && s[i - 1].landed == s[i].landed == Some(ON_GROUND)
  }

  /** Cadence and coverage of one stream. */
  ghost predicate Spanned(t: seq<Times>, start: int, end: int, gap: int) {
    |t| >= 2 && GapsWithin(t, gap) && t[0].steady <= start && end <= t[|t| - 1].steady
  }

  lemma SpannedStream(t: seq<Times>, source: Source, reference: int, span: Interval, c: Limits, required: nat)
    requires c.Valid() && span.Required() && span.Valid() && required >= 2
    requires StreamFailures(StreamGates(t, source, reference, span, c), |t|, required, source, span) == []
    ensures Spanned(t, span.start.value, span.end.value, c.maxGap)
  {
    NoStreamFailures(StreamGates(t, source, reference, span, c), |t|, required, source, span);
  }

  lemma SpannedPass(p: Phase, c: Limits, start: int, end: int)
    requires c.Valid() && p.span == Interval(Some(start), Some(end)) && Guard(p, c).Pass()
    ensures Spanned(StateTimes(p.state), start, end, c.maxGap) && Connected(p.state) && Disarmed(p.state)
    ensures Spanned(ExtendedTimes(p.extended), start, end, c.maxGap) && OnGround(p.extended)
  {
    GatesOfPass(p, c);
    var required := RequiredSamples(p.minimum, p.span, c);
    SpannedStream(StateTimes(p.state), p.stateSource, p.reference, p.span, c, required);
    SpannedStream(ExtendedTimes(p.extended), p.extendedSource, p.reference, p.span, c, required);
  }

  /** A passing guard over a dump span leaves no instant of the span uncovered, on either stream. */
  lemma GuardCoversSpan(p: Phase, c: Limits, start: int, end: int, instant: int) returns (i: nat, j: nat)
    requires c.Valid() && p.span == Interval(Some(start), Some(end)) && Guard(p, c).Pass()
    requires start <= instant <= end
    ensures SafelyDisarmedAt(p.state, i, instant, c.maxGap)
    ensures OnGroundAt(p.extended, j, instant, c.maxGap)
  {
    SpannedPass(p, c, start, end);
    i := InstantIsBetween(StateTimes(p.state), instant, c.maxGap);
    j := InstantIsBetween(ExtendedTimes(p.extended), instant, c.maxGap);
  }

  lemma {:induction false} GapsAddUp(t: seq<Times>, gap: int, n: nat)
    requires 1 <= n <= |t| && GapsWithin(t, gap)
    ensures t[n - 1].steady - t[0].steady <= (n - 1) * gap
  {
    if n > 1 {
      GapsAddUp(t, gap, n - 1);
      assert (n - 1) * gap == (n - 2) * gap + gap;
    }
  }

  lemma MultiplyOrder(m: int, n: int, b: int)
    requires b > 0
    ensures m <= n ==> m * b <= n * b
  {
  }

  lemma CeilBelow(a: nat, b: int, n: nat)
    requires b > 0 && n * b >= a
    ensures CeilDiv(a, b) <= n
  {
    MultiplyOrder(n, CeilDiv(a, b) - 1, b);
  }

  /** Cadence and coverage alone force one sample more than the span holds gaps. */
  lemma CoverageForcesCount(t: seq<Times>, span: Interval, c: Limits)
    requires c.Valid() && span.Required() && span.Valid()
    requires |t| > 0 && GapsWithin(t, c.maxGap)
    requires t[0].steady <= span.start.value && span.end.value <= t[|t| - 1].steady
    ensures |t| >= CeilDiv(span.end.value - span.start.value, c.maxGap) + 1
  {
    GapsAddUp(t, c.maxGap, |t|);
    CeilBelow(span.end.value - span.start.value, c.maxGap, |t| - 1);
  }

  /** So the sample floor adds to the other gates of a spanned stream exactly one case: one sample short. */
  lemma FloorAsksForOneMore(t: seq<Times>, span: Interval, c: Limits)
    requires c.Valid() && span.Required() && span.Valid()
    requires |t| > 0 && GapsWithin(t, c.maxGap)
    requires t[0].steady <= span.start.value && span.end.value <= t[|t| - 1].steady
    ensures |t| < RequiredSamples(0, span, c)
            <==> |t| == CeilDiv(span.end.value - span.start.value, c.maxGap) + 1
  {
    CoverageForcesCount(t, span, c);
  }

  // ---------------------------------------------------------------- freshness and the capture interval

  lemma {:induction false} SteadyOrder(t: seq<Times>, i: nat, j: nat)
    requires SteadyIncreasing(t) && i <= j < |t|
    ensures t[i].steady <= t[j].steady
  {
    if i < j {
      SteadyOrder(t, i, j - 1);
    }
  }

  /** On a stream without gate failures, the newest header is no older at the finish than twice the age limit. */
  lemma NewestHeaderIsFresh(t: seq<Times>, source: Source, reference: int, span: Interval, c: Limits)
    requires GateFailures(StreamGates(t, source, reference, span, c)) == []
    ensures |t| > 0 && -2 * c.maxFuture <= reference - t[|t| - 1].header <= 2 * c.maxAge
  {
    var last := t[|t| - 1];
    assert -c.maxFuture <= last.ros - last.header <= c.maxAge;
  }

  /** Every sample of such a stream arrived after the ready handshake and inside the command's interval. */
  lemma SamplesInsideCapture(t: seq<Times>, source: Source, reference: int, span: Interval, c: Limits, i: nat)
    requires GateFailures(StreamGates(t, source, reference, span, c)) == [] && i < |t|
    ensures source.ready.Some? && source.ready.value <= t[i].steady
    ensures source.capture.Required() ==>
              source.capture.start.Some? && source.capture.end.Some? &&
              source.capture.start.value <= t[i].steady <= source.capture.end.value
  {
    SteadyOrder(t, 0, i);
    SteadyOrder(t, i, |t| - 1);
  }

  /** A passing guard's streams have no gate failure. */
  lemma PassedGuardHasNoGateFailure(p: Phase, c: Limits)
    requires c.Valid() && Guard(p, c).Pass()
    ensures GateFailures(Guard(p, c).state) == [] && GateFailures(Guard(p, c).extended) == []
  {
    var r := Guard(p, c);
    GatesOfPass(p, c);
    NoStreamFailures(r.state, r.stateCount, r.required, p.stateSource, p.span);
    NoStreamFailures(r.extended, r.extendedCount, r.required, p.extendedSource, p.span);
  }

  // ---------------------------------------------------------------- measured failures

  predicate Covers(p: Phase, r: Report) {
    p.span.Required() ==>
      p.span.Valid() && r.state.coversStart && r.state.coversEnd && r.extended.coversStart && r.extended.coversEnd
  }

  /** The guard passes exactly when both streams have rows, cover any span there is, and show no measured failure. */
  lemma PassIsNoMeasuredFailure(p: Phase, c: Limits)
    requires c.Valid()
    ensures var r := Guard(p, c);
            r.Pass() <==>
            p.state != [] && p.extended != [] && Covers(p, r) && Measured(r, p.state != [], p.extended != []) == []
  {
    var r := Guard(p, c);
    GatesOfPass(p, c);
    NoStreamFailures(r.state, r.stateCount, r.required, p.stateSource, p.span);
    NoStreamFailures(r.extended, r.extendedCount, r.required, p.extendedSource, p.span);
    NoMeasuredState(r);
    NoMeasuredExtended(r);
    WithinCaptureNeedsInterval(StateTimes(p.state), p.stateSource, p.reference, p.span, c);
    WithinCaptureNeedsInterval(ExtendedTimes(p.extended), p.extendedSource, p.reference, p.span, c);
  }

  lemma NoMeasuredState(r: Report)
    ensures MeasuredState(r) == []
            <==> r.stateCount >= r.required && r.connected && r.disarmed && GateFailures(r.state) == []
  {
  }

  lemma NoMeasuredExtended(r: Report)
    ensures MeasuredExtended(r) == []
            <==> r.extendedCount >= r.required && r.onGround && GateFailures(r.extended) == []
  {
  }

  lemma WithinCaptureNeedsInterval(t: seq<Times>, source: Source, reference: int, span: Interval, c: Limits)
    ensures GateFailures(StreamGates(t, source, reference, span, c)) == [] ==> source.capture.Valid()
  {
  }

  lemma SameMeasured(r: Report, q: Report)
    requires r.required == q.required
    ensures r.stateCount == q.stateCount && r.connected == q.connected && r.disarmed == q.disarmed && r.state == q.state
            ==> Measured(r, true, false) == Measured(q, true, false)
    ensures r.extendedCount == q.extendedCount && r.onGround == q.onGround && r.extended == q.extended
            ==> Measured(r, false, true) == Measured(q, false, true)
  {
  }

  /** The state violations do not depend on the landed-state rows, nor the reverse. */
  lemma MeasuredStreamsAreIndependent(p: Phase, q: Phase, c: Limits)
    requires c.Valid() && p.reference == q.reference && p.minimum == q.minimum && p.span == q.span
    ensures p.state == q.state && p.stateSource == q.stateSource ==>
              Measured(Guard(p, c), true, false) == Measured(Guard(q, c), true, false)
    ensures p.extended == q.extended && p.extendedSource == q.extendedSource ==>
              Measured(Guard(p, c), false, true) == Measured(Guard(q, c), false, true)
  {
    SameMeasured(Guard(p, c), Guard(q, c));
  }

  // ---------------------------------------------------------------- the measured failures, row by row

  /** Positive times in order, without long gaps, fresh headers, and a last arrival fresh at the finish. */
  ghost predicate Continuous(t: seq<Times>, reference: int, c: Limits) {
    && (forall i | 0 <= i < |t| :: t[i].header >= 1 && t[i].ros >= 1 && t[i].steady >= 1)
    && (forall i | 1 <= i < |t| :: t[i - 1].header < t[i].header && t[i - 1].ros <= t[i].ros)
    && (forall i | 1 <= i < |t| :: 0 < t[i].steady - t[i - 1].steady <= c.maxGap)
    && (forall i | 0 <= i < |t| :: -c.maxFuture <= t[i].ros - t[i].header <= c.maxAge)
    && (|t| > 0 ==> -c.maxFuture <= reference - t[|t| - 1].ros <= c.maxAge)
  }

  /** Every row arrived after the handshake, which came before any span, and inside any interval of the command. */
  ghost predicate Enclosed(t: seq<Times>, source: Source, span: Interval) {
    && source.ready.Some? && source.ready.value >= 1
    && (forall i | 0 <= i < |t| :: source.ready.value <= t[i].steady)
    && (span.Required() ==> span.start.Some? && source.ready.value <= span.start.value)
    && (source.capture.Required() ==>
          && source.capture.start.Some? && source.capture.end.Some?
          && 1 <= source.capture.start.value <= source.ready.value
          && forall i | 0 <= i < |t| :: t[i].steady <= source.capture.end.value)
  }

  lemma ContinuityGates(t: seq<Times>, source: Source, reference: int, span: Interval, c: Limits)
    requires t != []
    ensures var g := StreamGates(t, source, reference, span, c);
            (g.valid && g.headers && g.ros && g.steady && g.gap && g.freshAtFinish && g.headerFresh)
            <==> Continuous(t, reference, c)
  {
  }

  lemma EnclosureGates(t: seq<Times>, source: Source, reference: int, span: Interval, c: Limits)
    requires t != [] && TimesValid(t) && SteadyIncreasing(t)
    ensures var g := StreamGates(t, source, reference, span, c);
            g.ready && g.withinCapture <==> Enclosed(t, source, span)
  {
    forall i | 0 <= i < |t|
      ensures t[0].steady <= t[i].steady <= t[|t| - 1].steady
    {
      SteadyOrder(t, 0, i);
      SteadyOrder(t, i, |t| - 1);
    }
  }

  lemma NoGateFailures(g: Gates)
    ensures GateFailures(g) == []
            <==> (g.valid && g.headers && g.ros && g.steady && g.gap && g.freshAtFinish && g.headerFresh) &&
                 g.ready && g.withinCapture
  {
  }

  lemma GatesAreRows(t: seq<Times>, source: Source, reference: int, span: Interval, c: Limits)
    requires t != []
    ensures GateFailures(StreamGates(t, source, reference, span, c)) == []
            <==> Continuous(t, reference, c) && Enclosed(t, source, span)
  {
    NoGateFailures(StreamGates(t, source, reference, span, c));
    ContinuityGates(t, source, reference, span, c);
    if Continuous(t, reference, c) {
      EnclosureGates(t, source, reference, span, c);
    }
  }

  /** The state rows show no violation: enough of them, all connected and disarmed, continuous and enclosed. */
  ghost predicate StateRowsHold(p: Phase, required: nat, c: Limits) {
    && |p.state| >= required
    && (forall i | 0 <= i < |p.state| :: p.state[i].connected == Some(true) && p.state[i].armed == Some(false))
    && Continuous(StateTimes(p.state), p.reference, c) && Enclosed(StateTimes(p.state), p.stateSource, p.span)
  }

  ghost predicate ExtendedRowsHold(p: Phase, required: nat, c: Limits) {
    && |p.extended| >= required
    && (forall i | 0 <= i < |p.extended| :: p.extended[i].landed == Some(ON_GROUND))
    && Continuous(ExtendedTimes(p.extended), p.reference, c)
    && Enclosed(ExtendedTimes(p.extended), p.extendedSource, p.span)
  }

  lemma StateRowsOf(r: Report, p: Phase, required: nat, c: Limits)
    requires p.state != [] && r.stateCount == |p.state| && r.required == required
    requires r.connected && r.disarmed <==>
             forall i | 0 <= i < |p.state| :: p.state[i].connected == Some(true) && p.state[i].armed == Some(false)
    requires r.state == StreamGates(StateTimes(p.state), p.stateSource, p.reference, p.span, c)
    ensures MeasuredState(r) == [] <==> StateRowsHold(p, required, c)
  {
    NoMeasuredState(r);
    GatesAreRows(StateTimes(p.state), p.stateSource, p.reference, p.span, c);
  }

  lemma ExtendedRowsOf(r: Report, p: Phase, required: nat, c: Limits)
    requires p.extended != [] && r.extendedCount == |p.extended| && r.required == required
    requires r.onGround <==> forall i | 0 <= i < |p.extended| :: p.extended[i].landed == Some(ON_GROUND)
    requires r.extended == StreamGates(ExtendedTimes(p.extended), p.extendedSource, p.reference, p.span, c)
    ensures MeasuredExtended(r) == [] <==> ExtendedRowsHold(p, required, c)
  {
    NoMeasuredExtended(r);
    GatesAreRows(ExtendedTimes(p.extended), p.extendedSource, p.reference, p.span, c);
  }

  lemma MeasuredStateIsRows(p: Phase, c: Limits)
    requires c.Valid() && p.state != []
    ensures MeasuredState(Guard(p, c)) == [] <==> StateRowsHold(p, RequiredSamples(p.minimum, p.span, c), c)
  {
    StateRowsOf(Guard(p, c), p, RequiredSamples(p.minimum, p.span, c), c);
  }

  lemma MeasuredExtendedIsRows(p: Phase, c: Limits)
    requires c.Valid() && p.extended != []
    ensures MeasuredExtended(Guard(p, c)) == [] <==> ExtendedRowsHold(p, RequiredSamples(p.minimum, p.span, c), c)
  {
    ExtendedRowsOf(Guard(p, c), p, RequiredSamples(p.minimum, p.span, c), c);
  }

  /** No failure is measured exactly when the rows present, of either stream, show no violation themselves. */
  lemma MeasuredIsRows(p: Phase, c: Limits)
    requires c.Valid()
    ensures Measured(Guard(p, c), p.state != [], p.extended != []) == []
            <==> (p.state != [] ==> StateRowsHold(p, RequiredSamples(p.minimum, p.span, c), c)) &&
                 (p.extended != [] ==> ExtendedRowsHold(p, RequiredSamples(p.minimum, p.span, c), c))
  {
    if p.state != [] {
      MeasuredStateIsRows(p, c);
    }
    if p.extended != [] {
      MeasuredExtendedIsRows(p, c);
    }
  }

  /** The rows reach from the start of any span to its end. */
  ghost predicate Reaches(t: seq<Times>, span: Interval) {
    span.Required() ==>
      span.Valid() && |t| > 0 && t[0].steady <= span.start.value && span.end.value <= t[|t| - 1].steady
  }

  lemma CoveringIsReaching(t: seq<Times>, source: Source, reference: int, span: Interval, c: Limits)
    requires t != [] && Continuous(t, reference, c)
    ensures var g := StreamGates(t, source, reference, span, c);
            (span.Required() ==> span.Valid() && g.coversStart && g.coversEnd) <==> Reaches(t, span)
  {
  }

  /** What the guard asks of the rows of both streams. */
  ghost predicate GuardHolds(p: Phase, c: Limits)
    requires c.Valid()
  {
    var required := RequiredSamples(p.minimum, p.span, c);
    && p.state != [] && StateRowsHold(p, required, c) && Reaches(StateTimes(p.state), p.span)
    && p.extended != [] && ExtendedRowsHold(p, required, c) && Reaches(ExtendedTimes(p.extended), p.span)
  }

  /** The guard as a whole says only this about the rows of the two streams. */
  lemma GuardIsRows(p: Phase, c: Limits)
    requires c.Valid()
    ensures Guard(p, c).Pass() <==> GuardHolds(p, c)
  {
    PassIsNoMeasuredFailure(p, c);
    MeasuredIsRows(p, c);
    var required := RequiredSamples(p.minimum, p.span, c);
    if p.state != [] && p.extended != [] && StateRowsHold(p, required, c) && ExtendedRowsHold(p, required, c) {
      CoveringIsReaching(StateTimes(p.state), p.stateSource, p.reference, p.span, c);
      CoveringIsReaching(ExtendedTimes(p.extended), p.extendedSource, p.reference, p.span, c);
    }
  }

  /** How many rows each stream of a passing guard has: the minimum, and over a span one per gap and two more. */
  lemma PassedCount(p: Phase, c: Limits)
    requires c.Valid() && Guard(p, c).Pass()
    ensures |p.state| >= p.minimum && |p.extended| >= p.minimum
    ensures p.span.Required() ==>
              (|p.state| - 2) * c.maxGap >= p.span.end.value - p.span.start.value &&
              (|p.extended| - 2) * c.maxGap >= p.span.end.value - p.span.start.value
    ensures !p.span.Required() ==> RequiredSamples(p.minimum, p.span, c) == p.minimum
  {
    GatesOfPass(p, c);
    var r := Guard(p, c);
    NoStreamFailures(r.state, r.stateCount, r.required, p.stateSource, p.span);
    NoStreamFailures(r.extended, r.extendedCount, r.required, p.extendedSource, p.span);
    if p.span.Required() {
      var gaps := CeilDiv(p.span.end.value - p.span.start.value, c.maxGap);
      MultiplyOrder(gaps, |p.state| - 2, c.maxGap);
      MultiplyOrder(gaps, |p.extended| - 2, c.maxGap);
    }
  }
}
