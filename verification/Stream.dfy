/** Online stream statistics, equal to their definitions over the raw records, and what their gates guarantee. */
module Stream {
  import opened Basics

  /** The per-sample payload and covariance judgements a profile can require of every sample. */
  datatype Kind =
    | Pose | Twist | Imu | ImuOrientation | ImuOrientationCovariance | ImuAngularCovariance | ImuLinearCovariance
    | PoseCovariance | TwistCovariance

  datatype Record = Record(
    stamp: int, arrivalRos: int, arrivalWall: int, frame: string, child: string, valid: set<Kind>)

  datatype Config = Config(
    frame: string, child: string, minSamples: int, minRate: real, maxGap: real, maxIdle: real, maxLatency: real,
    maxFirstDelay: real, minCoverage: real, required: set<Kind>)

  // ---------------------------------------------------------------- definitions over the raw records

  /** What a counter counts. */
  datatype Trait =
    | Duplicate | Backward | Forward | Gap | ArrivalBackward | ArrivalForward | ArrivalGap
    | ZeroStamp | FrameMismatch | ChildMismatch | ValidOf(kind: Kind)

  /** Record i has the trait. */
  ghost predicate Has(t: Trait, c: Config, r: seq<Record>, i: nat) {
    i < |r| &&
    match t
    case Duplicate => i > 0 && r[i].stamp == r[i - 1].stamp
    case Backward => i > 0 && r[i].stamp < r[i - 1].stamp
    case Forward => i > 0 && r[i].stamp > r[i - 1].stamp
    case Gap => i > 0 && r[i].stamp > r[i - 1].stamp && Seconds(r[i].stamp - r[i - 1].stamp) > c.maxGap
    case ArrivalBackward => i > 0 && r[i].arrivalWall < r[i - 1].arrivalWall
    case ArrivalForward => i > 0 && r[i].arrivalWall >= r[i - 1].arrivalWall
    case ArrivalGap =>
      i > 0 && r[i].arrivalWall >= r[i - 1].arrivalWall && Seconds(r[i].arrivalWall - r[i - 1].arrivalWall) > c.maxGap
    case ZeroStamp => r[i].stamp <= 0
    case FrameMismatch => r[i].frame != c.frame
    case ChildMismatch => r[i].child != c.child
    case ValidOf(kind) => kind in r[i].valid
  }

  ghost function At(t: Trait, c: Config, r: seq<Record>): set<nat> {
    set i: nat | i < |r| && Has(t, c, r, i)
  }

  ghost function Count(t: Trait, c: Config, r: seq<Record>): nat {
    |At(t, c, r)|
  }

  lemma HasIsLocal(t: Trait, c: Config, r: seq<Record>, x: Record, i: nat)
    requires i < |r|
    ensures Has(t, c, r + [x], i) <==> Has(t, c, r, i)
  {
    var all := r + [x];
    assert all[i] == r[i] && (i > 0 ==> all[i - 1] == r[i - 1]);
  }

  lemma CountStep(t: Trait, c: Config, r: seq<Record>, x: Record)
    ensures Count(t, c, r + [x]) == Count(t, c, r) + if Has(t, c, r + [x], |r|) then 1 else 0
  {
    var all := r + [x];
    forall i: nat | i < |r|
      ensures i in At(t, c, all) <==> i in At(t, c, r)
    {
      HasIsLocal(t, c, r, x, i);
    }
    assert At(t, c, all) == At(t, c, r) + if Has(t, c, all, |r|) then {|r|} else {};
  }

  lemma CountIsZero(t: Trait, c: Config, r: seq<Record>)
    ensures Count(t, c, r) == 0 <==> forall i: nat | i < |r| :: !Has(t, c, r, i)
  {
    assert Count(t, c, r) == 0 <==> At(t, c, r) == {};
    assert forall i: nat | i < |r| :: Has(t, c, r, i) <==> i in At(t, c, r);
  }

  lemma CountIsAll(t: Trait, c: Config, r: seq<Record>)
    ensures Count(t, c, r) == |r| <==> forall i: nat | i < |r| :: Has(t, c, r, i)
  {
    var at := At(t, c, r);
    SubsetSize(at, Range(0, |r|));
    assert forall i: nat | i < |r| :: Has(t, c, r, i) <==> i in at;
    if forall i: nat | i < |r| :: Has(t, c, r, i) {
      assert at == Range(0, |r|);
    }
  }

  /** The positive stamp steps, in order. */
  function StampIntervals(r: seq<Record>): (s: seq<real>)
    ensures forall i | 0 <= i < |s| :: s[i] > 0.0
  {
    if |r| < 2 then []
    else
      var n := |r| - 1;
      var before := StampIntervals(r[..n]);
      if r[n].stamp > r[n - 1].stamp then before + [Seconds(r[n].stamp - r[n - 1].stamp)] else before
  }

  /** The arrival steps that do not go back, in order. */
  function ArrivalIntervals(r: seq<Record>): (s: seq<real>)
    ensures forall i | 0 <= i < |s| :: s[i] >= 0.0
  {
    if |r| < 2 then []
    else
      var n := |r| - 1;
      var before := ArrivalIntervals(r[..n]);
      if r[n].arrivalWall >= r[n - 1].arrivalWall
      then before + [Seconds(r[n].arrivalWall - r[n - 1].arrivalWall)] else before
  }

  function Latencies(r: seq<Record>): seq<real> {
    if r == [] then []
    else
      var n := |r| - 1;
      var before := Latencies(r[..n]);
      if r[n].stamp > 0 then before + [Seconds(r[n].arrivalRos - r[n].stamp)] else before
  }

  lemma StampIntervalsStep(r: seq<Record>, x: Record)
    requires r != []
    ensures var last := r[|r| - 1];
            StampIntervals(r + [x]) ==
            if x.stamp > last.stamp then StampIntervals(r) + [Seconds(x.stamp - last.stamp)] else StampIntervals(r)
  {
    assert (r + [x])[..|r|] == r;
  }

  lemma ArrivalIntervalsStep(r: seq<Record>, x: Record)
    requires r != []
    ensures var last := r[|r| - 1];
            ArrivalIntervals(r + [x]) ==
            if x.arrivalWall >= last.arrivalWall
            then ArrivalIntervals(r) + [Seconds(x.arrivalWall - last.arrivalWall)] else ArrivalIntervals(r)
  {
    assert (r + [x])[..|r|] == r;
  }

  lemma LatenciesStep(r: seq<Record>, x: Record)
    ensures Latencies(r + [x]) ==
            if x.stamp > 0 then Latencies(r) + [Seconds(x.arrivalRos - x.stamp)] else Latencies(r)
  {
    assert (r + [x])[..|r|] == r;
  }

  /** m is the largest of the values, or 0 when there are none. */
  ghost predicate LargestOrZero(m: real, values: seq<real>) {
    (forall i | 0 <= i < |values| :: values[i] <= m) && m >= 0.0 && (m == 0.0 || m in values)
  }

  lemma LargestStep(m: real, values: seq<real>, v: real)
    requires LargestOrZero(m, values) && v >= 0.0
    ensures LargestOrZero(if v > m then v else m, values + [v])
  {
    assert (values + [v])[|values|] == v;
    assert forall w :: w in values ==> w in values + [v];
  }

  ghost predicate Occurs(r: seq<Record>, frame: string) {
    exists i | 0 <= i < |r| :: r[i].frame == frame
  }

  ghost predicate ChildOccurs(r: seq<Record>, child: string) {
    exists i | 0 <= i < |r| :: r[i].child == child
  }

  // ---------------------------------------------------------------- the online tallies

  /** The header stamps seen: counters, forward steps and the largest step. */
  datatype StampTally = StampTally(backward: nat, duplicates: nat, gaps: nat, maxGap: real, intervals: seq<real>)
  {
    ghost predicate Of(c: Config, r: seq<Record>) {
      && duplicates == Count(Duplicate, c, r) && backward == Count(Backward, c, r) && gaps == Count(Gap, c, r)
      && intervals == StampIntervals(r) && LargestOrZero(maxGap, intervals)
    }
  }

  datatype ArrivalTally = ArrivalTally(backward: nat, gaps: nat, maxGap: real, intervals: seq<real>)
  {
    ghost predicate Of(c: Config, r: seq<Record>) {
      && backward == Count(ArrivalBackward, c, r) && gaps == Count(ArrivalGap, c, r)
      && intervals == ArrivalIntervals(r) && LargestOrZero(maxGap, intervals)
    }
  }

  datatype LatencyTally = LatencyTally(zeroStamps: nat, latencies: seq<real>)
  {
    ghost predicate Of(c: Config, r: seq<Record>) {
      zeroStamps == Count(ZeroStamp, c, r) && latencies == Latencies(r)
    }
  }

  datatype FrameTally = FrameTally(ids: set<string>, childIds: set<string>, mismatches: nat, childMismatches: nat)
  {
    ghost predicate Of(c: Config, r: seq<Record>) {
      && mismatches == Count(FrameMismatch, c, r) && childMismatches == Count(ChildMismatch, c, r)
      && (forall f :: f in ids <==> Occurs(r, f))
      && (forall f :: f in childIds <==> ChildOccurs(r, f))
    }
  }

  /** The first and last readings and where the window starts. */
  datatype Ends = Ends(count: nat, firstArrival: Option<int>, firstStamp: Option<int>, lastArrival: Option<int>,
                       lastStamp: Option<int>, windowStart: Option<int>)
  {
    ghost predicate Of(r: seq<Record>, givenStart: Option<int>) {
      && count == |r|
      && firstArrival == (if r == [] then None else Some(r[0].arrivalWall))
      && firstStamp == (if r == [] then None else Some(r[0].stamp))
      && lastArrival == (if r == [] then None else Some(r[|r| - 1].arrivalWall))
      && lastStamp == (if r == [] then None else Some(r[|r| - 1].stamp))
      && windowStart == (if givenStart.Some? then givenStart else firstArrival)
    }
  }

  ghost predicate ValidityOf(counts: map<Kind, nat>, c: Config, r: seq<Record>) {
    forall kind :: kind in counts && counts[kind] == Count(ValidOf(kind), c, r)
  }

  method TallyArrival(c: Config, t: ArrivalTally, last: Option<int>, ghost r: seq<Record>, record: Record)
    returns (next: ArrivalTally)
    requires t.Of(c, r) && last == if r == [] then None else Some(r[|r| - 1].arrivalWall)
    ensures next.Of(c, r + [record])
  {
    CountStep(ArrivalBackward, c, r, record);
    CountStep(ArrivalGap, c, r, record);
    next := t;
    if last.Some? {
      ArrivalIntervalsStep(r, record);
      var dt := Seconds(record.arrivalWall - last.value);
      if dt < 0.0 {
        next := next.(backward := next.backward + 1);
      } else {
        LargestStep(t.maxGap, t.intervals, dt);
        next := next.(intervals := next.intervals + [dt]);
        if dt > c.maxGap {
          next := next.(gaps := next.gaps + 1);
        }
        next := next.(maxGap := if dt > next.maxGap then dt else next.maxGap);
      }
    }
  }

  method TallyStamp(c: Config, t: StampTally, last: Option<int>, ghost r: seq<Record>, record: Record)
    returns (next: StampTally)
    requires t.Of(c, r) && last == if r == [] then None else Some(r[|r| - 1].stamp)
    ensures next.Of(c, r + [record])
  {
    CountStep(Duplicate, c, r, record);
    CountStep(Backward, c, r, record);
    CountStep(Gap, c, r, record);
    next := t;
    if last.Some? {
      StampIntervalsStep(r, record);
      var dt := Seconds(record.stamp - last.value);
      if dt < 0.0 {
        next := next.(backward := next.backward + 1);
      } else if dt == 0.0 {
        next := next.(duplicates := next.duplicates + 1);
      } else {
        LargestStep(t.maxGap, t.intervals, dt);
        next := next.(intervals := next.intervals + [dt]);
        if dt > c.maxGap {
          next := next.(gaps := next.gaps + 1);
        }
        next := next.(maxGap := if dt > next.maxGap then dt else next.maxGap);
      }
    }
  }

  method TallyLatency(c: Config, t: LatencyTally, ghost r: seq<Record>, record: Record) returns (next: LatencyTally)
    requires t.Of(c, r)
    ensures next.Of(c, r + [record])
  {
    CountStep(ZeroStamp, c, r, record);
    LatenciesStep(r, record);
    if record.stamp <= 0 {
      next := t.(zeroStamps := t.zeroStamps + 1);
    } else {
      next := t.(latencies := t.latencies + [Seconds(record.arrivalRos - record.stamp)]);
    }
  }

  method TallyFrames(c: Config, t: FrameTally, ghost r: seq<Record>, record: Record) returns (next: FrameTally)
    requires t.Of(c, r)
    ensures next.Of(c, r + [record])
  {
    CountStep(FrameMismatch, c, r, record);
    CountStep(ChildMismatch, c, r, record);
    OccursStep(r, record);
    next := t.(ids := t.ids + {record.frame}, childIds := t.childIds + {record.child});
    if record.frame != c.frame {
      next := next.(mismatches := next.mismatches + 1);
    }
    if record.child != c.child {
      next := next.(childMismatches := next.childMismatches + 1);
    }
  }

  method TallyValidity(c: Config, counts: map<Kind, nat>, ghost r: seq<Record>, record: Record)
    returns (next: map<Kind, nat>)
    requires ValidityOf(counts, c, r)
    ensures ValidityOf(next, c, r + [record])
  {
    next := map kind | kind in counts :: counts[kind] + if kind in record.valid then 1 else 0;
    forall kind
      ensures kind in next && next[kind] == Count(ValidOf(kind), c, r + [record])
    {
      CountStep(ValidOf(kind), c, r, record);
      assert kind in counts && counts[kind] == Count(ValidOf(kind), c, r);
    }
  }

  method TallyEnds(t: Ends, ghost r: seq<Record>, ghost givenStart: Option<int>, record: Record) returns (next: Ends)
    requires t.Of(r, givenStart)
    ensures next.Of(r + [record], givenStart)
  {
    next := t.(count := t.count + 1, lastArrival := Some(record.arrivalWall), lastStamp := Some(record.stamp));
    if t.windowStart.None? {
      next := next.(windowStart := Some(record.arrivalWall));
    }
    if t.firstArrival.None? {
      next := next.(firstArrival := Some(record.arrivalWall), firstStamp := Some(record.stamp));
    }
  }

  lemma OccursStep(r: seq<Record>, x: Record)
    ensures forall f :: Occurs(r + [x], f) <==> Occurs(r, f) || x.frame == f
    ensures forall f :: ChildOccurs(r + [x], f) <==> ChildOccurs(r, f) || x.child == f
  {
    var all := r + [x];
    assert all[|r|] == x;
    assert forall i | 0 <= i < |r| :: all[i] == r[i];
  }

  // ---------------------------------------------------------------- conservation

  lemma NoCountOfNothing(t: Trait, c: Config)
    ensures Count(t, c, []) == 0
  {
    assert At(t, c, []) == {};
  }

  lemma {:induction false} StampStepsAreCounted(c: Config, r: seq<Record>)
    requires r != []
    ensures |StampIntervals(r)| + Count(Duplicate, c, r) + Count(Backward, c, r) == |r| - 1
    decreases |r|
  {
    var before, x := r[..|r| - 1], r[|r| - 1];
    assert r == before + [x];
    CountStep(Duplicate, c, before, x);
    CountStep(Backward, c, before, x);
    if before == [] {
      NoCountOfNothing(Duplicate, c);
      NoCountOfNothing(Backward, c);
    } else {
      StampStepsAreCounted(c, before);
      StampIntervalsStep(before, x);
    }
  }

  lemma {:induction false} ArrivalStepsAreCounted(c: Config, r: seq<Record>)
    requires r != []
    ensures |ArrivalIntervals(r)| + Count(ArrivalBackward, c, r) == |r| - 1
    decreases |r|
  {
    var before, x := r[..|r| - 1], r[|r| - 1];
    assert r == before + [x];
    CountStep(ArrivalBackward, c, before, x);
    if before == [] {
      NoCountOfNothing(ArrivalBackward, c);
    } else {
      ArrivalStepsAreCounted(c, before);
      ArrivalIntervalsStep(before, x);
    }
  }

  lemma {:induction false} LatenciesAreCounted(c: Config, r: seq<Record>)
    ensures |Latencies(r)| + Count(ZeroStamp, c, r) == |r|
    decreases |r|
  {
    if r == [] {
      NoCountOfNothing(ZeroStamp, c);
    } else {
      var before, x := r[..|r| - 1], r[|r| - 1];
      assert r == before + [x];
      LatenciesAreCounted(c, before);
      CountStep(ZeroStamp, c, before, x);
      LatenciesStep(before, x);
    }
  }

  // ---------------------------------------------------------------- the gates, over the raw records

  predicate StampsAdvance(c: Config, r: seq<Record>) {
    && (forall i | 0 <= i < |r| :: r[i].stamp > 0)
    && (forall i | 1 <= i < |r| :: r[i - 1].stamp < r[i].stamp)
    && (forall i | 1 <= i < |r| :: Seconds(r[i].stamp - r[i - 1].stamp) <= c.maxGap)
  }

  predicate ArrivalsAdvance(c: Config, r: seq<Record>) {
    && (forall i | 1 <= i < |r| :: r[i - 1].arrivalWall <= r[i].arrivalWall)
    && (forall i | 1 <= i < |r| :: Seconds(r[i].arrivalWall - r[i - 1].arrivalWall) <= c.maxGap)
  }

  predicate ContentExact(c: Config, r: seq<Record>) {
    forall i | 0 <= i < |r| :: r[i].frame == c.frame && r[i].child == c.child && c.required <= r[i].valid
  }

  predicate LatenciesWithin(c: Config, r: seq<Record>) {
    forall i | 0 <= i < |r| :: Abs(Seconds(r[i].arrivalRos - r[i].stamp)) <= c.maxLatency
  }

  /** When the window ends, and how long it was asked to be. */
  datatype Finish = Finish(wall: int, ros: int, requested: Option<real>)

  /** The n - 1 steps after the first sample took no longer than the rate allows. */
  predicate RateHolds(samples: nat, first: int, last: int, rate: real) {
    last > first && (samples - 1) as real >= rate * Seconds(last - first)
  }

  /** The asked-for duration, or the measured one. */
  function Duration(e: Ends, f: Finish): real
    requires e.firstArrival.Some? && e.lastArrival.Some?
  {
    if f.requested.Some? then f.requested.value else Seconds(e.lastArrival.value - e.firstArrival.value)
  }

  /** The samples span the demanded share of the duration; no span has more than all of it. */
  predicate ShareHolds(span: real, duration: real, share: real) {
    duration > 0.0 && share <= 1.0 && span >= share * duration
  }

  /** What is asked of the ends of the window. */
  predicate EndsWithin(c: Config, e: Ends, f: Finish) {
    && e.count >= 2 && e.count >= c.minSamples
    && e.firstArrival.Some? && e.lastArrival.Some? && e.firstStamp.Some? && e.lastStamp.Some? && e.windowStart.Some?
    && RateHolds(e.count, e.firstArrival.value, e.lastArrival.value, c.minRate)
    && RateHolds(e.count, e.firstStamp.value, e.lastStamp.value, c.minRate)
    && 0.0 <= Seconds(f.wall - e.lastArrival.value) <= c.maxIdle
    && e.lastStamp.value > 0 && Abs(Seconds(f.ros - e.lastStamp.value)) <= c.maxIdle + c.maxLatency
    && 0.0 <= Seconds(e.firstArrival.value - e.windowStart.value) <= c.maxFirstDelay
    && ShareHolds(Seconds(e.lastArrival.value - e.firstArrival.value), Duration(e, f), c.minCoverage)
  }

  /** The rate as the code computes it. */
  predicate RateGate(samples: nat, first: int, last: int, rate: real) {
    last > first && (samples - 1) as real / Seconds(last - first) >= rate
  }

  function Clamp(x: real): real {
    if x < 0.0 then 0.0 else if x > 1.0 then 1.0 else x
  }

  lemma QuotientBound(a: real, b: real, q: real)
    requires b > 0.0
    ensures a / b >= q <==> a >= q * b
  {
    var quotient := a / b;
    assert quotient * b == a;
    if quotient >= q {
      ScaleOrder(q, quotient, b);
    } else {
      StrictScaleOrder(quotient, q, b);
    }
  }

  lemma ScaleOrder(a: real, b: real, k: real)
    requires a <= b && k > 0.0
    ensures a * k <= b * k
  {
  }

  lemma StrictScaleOrder(a: real, b: real, k: real)
    requires a < b && k > 0.0
    ensures a * k < b * k
  {
  }

  lemma RateGateHolds(samples: nat, first: int, last: int, rate: real)
    ensures RateGate(samples, first, last, rate) <==> RateHolds(samples, first, last, rate)
  {
    if last > first {
      QuotientBound((samples - 1) as real, Seconds(last - first), rate);
    }
  }

  lemma CoverageGateHolds(span: real, duration: real, share: real)
    requires span > 0.0
    ensures duration > 0.0 && Clamp(span / duration) >= share <==> ShareHolds(span, duration, share)
  {
    if duration > 0.0 {
      QuotientBound(span, duration, share);
      QuotientBound(span, duration, 0.0);
    }
  }

  ghost predicate Passes(c: Config, e: Ends, r: seq<Record>, f: Finish) {
    EndsWithin(c, e, f) && StampsAdvance(c, r) && ArrivalsAdvance(c, r) && LatenciesWithin(c, r) && ContentExact(c, r)
  }

  lemma StampCounters(c: Config, r: seq<Record>)
    ensures Count(ZeroStamp, c, r) == 0 && Count(Backward, c, r) == 0 && Count(Duplicate, c, r) == 0 &&
              Count(Gap, c, r) == 0
            <==> StampsAdvance(c, r)
  {
    CountIsZero(ZeroStamp, c, r);
    CountIsZero(Backward, c, r);
    CountIsZero(Duplicate, c, r);
    CountIsZero(Gap, c, r);
    if Count(ZeroStamp, c, r) == 0 && Count(Backward, c, r) == 0 && Count(Duplicate, c, r) == 0 &&
        Count(Gap, c, r) == 0 {
      forall i | 0 <= i < |r|
        ensures r[i].stamp > 0
        ensures i > 0 ==> r[i - 1].stamp < r[i].stamp && Seconds(r[i].stamp - r[i - 1].stamp) <= c.maxGap
      {
        assert !Has(ZeroStamp, c, r, i) && !Has(Backward, c, r, i) && !Has(Duplicate, c, r, i) && !Has(Gap, c, r, i);
      }
    }
  }

  lemma ArrivalCounters(c: Config, r: seq<Record>)
    ensures Count(ArrivalBackward, c, r) == 0 && Count(ArrivalGap, c, r) == 0 <==> ArrivalsAdvance(c, r)
  {
    CountIsZero(ArrivalBackward, c, r);
    CountIsZero(ArrivalGap, c, r);
    if Count(ArrivalBackward, c, r) == 0 && Count(ArrivalGap, c, r) == 0 {
      forall i | 1 <= i < |r|
        ensures r[i - 1].arrivalWall <= r[i].arrivalWall && Seconds(r[i].arrivalWall - r[i - 1].arrivalWall) <= c.maxGap
      {
        assert !Has(ArrivalBackward, c, r, i) && !Has(ArrivalGap, c, r, i);
      }
    }
  }

  lemma ContentCounters(c: Config, r: seq<Record>, counts: map<Kind, nat>)
    requires ValidityOf(counts, c, r)
    ensures Count(FrameMismatch, c, r) == 0 && Count(ChildMismatch, c, r) == 0 &&
            (forall kind | kind in c.required :: kind in counts && counts[kind] == |r|)
            <==> ContentExact(c, r)
  {
    CountIsZero(FrameMismatch, c, r);
    CountIsZero(ChildMismatch, c, r);
    forall kind
      ensures counts[kind] == |r| <==> forall i: nat | i < |r| :: Has(ValidOf(kind), c, r, i)
    {
      CountIsAll(ValidOf(kind), c, r);
      assert kind in counts;
    }
    if Count(FrameMismatch, c, r) == 0 && Count(ChildMismatch, c, r) == 0 &&
       forall kind | kind in c.required :: kind in counts && counts[kind] == |r| {
      forall i | 0 <= i < |r|
        ensures r[i].frame == c.frame && r[i].child == c.child && c.required <= r[i].valid
      {
        assert !Has(FrameMismatch, c, r, i) && !Has(ChildMismatch, c, r, i);
        forall kind | kind in c.required
          ensures kind in r[i].valid
        {
          assert Has(ValidOf(kind), c, r, i);
        }
      }
    }
  }

  lemma {:induction false} LatenciesAreAll(r: seq<Record>)
    requires forall i | 0 <= i < |r| :: r[i].stamp > 0
    ensures |Latencies(r)| == |r|
    ensures forall i | 0 <= i < |r| :: Latencies(r)[i] == Seconds(r[i].arrivalRos - r[i].stamp)
  {
    if r != [] {
      LatenciesAreAll(r[..|r| - 1]);
    }
  }

  lemma StampsArePositive(c: Config, r: seq<Record>)
    requires Count(ZeroStamp, c, r) == 0
    ensures forall i | 0 <= i < |r| :: r[i].stamp > 0
  {
    CountIsZero(ZeroStamp, c, r);
    forall i | 0 <= i < |r|
      ensures r[i].stamp > 0
    {
      assert !Has(ZeroStamp, c, r, i);
    }
  }

  /** The online statistics of one stream. */
  datatype Tallies = Tallies(
    stamps: StampTally, arrivals: ArrivalTally, latencies: LatencyTally, frames: FrameTally,
    validCounts: map<Kind, nat>)
  {
    ghost predicate Of(c: Config, r: seq<Record>) {
      stamps.Of(c, r) && arrivals.Of(c, r) && latencies.Of(c, r) && frames.Of(c, r) && ValidityOf(validCounts, c, r)
    }
  }

  method Tally(c: Config, t: Tallies, e: Ends, ghost r: seq<Record>, ghost start: Option<int>, record: Record)
    returns (next: Tallies)
    requires t.Of(c, r) && e.Of(r, start)
    ensures next.Of(c, r + [record])
  {
    var arrivals := TallyArrival(c, t.arrivals, e.lastArrival, r, record);
    var stamps := TallyStamp(c, t.stamps, e.lastStamp, r, record);
    var latencies := TallyLatency(c, t.latencies, r, record);
    var frames := TallyFrames(c, t.frames, r, record);
    var counts := TallyValidity(c, t.validCounts, r, record);
    next := Tallies(stamps, arrivals, latencies, frames, counts);
  }

  /** Every sample after the first is counted once by each clock, and every sample once by the latency statistics. */
  lemma NothingIsLost(c: Config, t: Tallies, r: seq<Record>)
    requires t.Of(c, r) && r != []
    ensures |t.stamps.intervals| + t.stamps.duplicates + t.stamps.backward == |r| - 1
    ensures |t.arrivals.intervals| + t.arrivals.backward == |r| - 1
    ensures |t.latencies.latencies| + t.latencies.zeroStamps == |r|
  {
    StampStepsAreCounted(c, r);
    ArrivalStepsAreCounted(c, r);
    LatenciesAreCounted(c, r);
  }

  /** The gates that read only the ends of the window. */
  method EndGates(c: Config, e: Ends, f: Finish) returns (pass: bool)
    ensures pass <==> EndsWithin(c, e, f)
  {
    if e.count < 2 || e.firstArrival.None? || e.lastArrival.None? || e.firstStamp.None? || e.lastStamp.None? ||
       e.windowStart.None? {
      return false;
    }
    var span := Seconds(e.lastArrival.value - e.firstArrival.value);
    var duration := if f.requested.Some? then f.requested.value else span;
    var arrivalRate := RateGate(e.count, e.firstArrival.value, e.lastArrival.value, c.minRate);
    var stampRate := RateGate(e.count, e.firstStamp.value, e.lastStamp.value, c.minRate);
    RateGateHolds(e.count, e.firstArrival.value, e.lastArrival.value, c.minRate);
    RateGateHolds(e.count, e.firstStamp.value, e.lastStamp.value, c.minRate);
    var idle := Seconds(f.wall - e.lastArrival.value);
    var headerAge := Seconds(f.ros - e.lastStamp.value);
    var firstDelay := Seconds(e.firstArrival.value - e.windowStart.value);
    pass := e.count >= c.minSamples && arrivalRate && stampRate && 0.0 <= idle <= c.maxIdle &&
      e.lastStamp.value > 0 && Abs(headerAge) <= c.maxIdle + c.maxLatency && 0.0 <= firstDelay <= c.maxFirstDelay;
    if pass {
      CoverageGateHolds(span, duration, c.minCoverage);
      pass := duration > 0.0 && Clamp(span / duration) >= c.minCoverage;
    }
  }

  class StreamAccumulator {
    const config: Config
    const givenStart: Option<int>
    var ends: Ends
    var tallies: Tallies
    var rawRecords: seq<Record>

    /** Every statistic is what its definition over the raw records says. */
    ghost predicate Valid()
      reads this
    {
      ends.Of(rawRecords, givenStart) && tallies.Of(config, rawRecords)
    }

    constructor (config: Config, windowStart: Option<int>)
      ensures Valid() && rawRecords == [] && this.config == config && givenStart == windowStart
    {
      this.config, givenStart := config, windowStart;
      ends := Ends(0, None, None, None, None, windowStart);
      tallies := Tallies(
        StampTally(0, 0, 0, 0.0, []), ArrivalTally(0, 0, 0.0, []), LatencyTally(0, []), FrameTally({}, {}, 0, 0),
        map[Pose := 0, Twist := 0, Imu := 0, ImuOrientation := 0, ImuOrientationCovariance := 0,
            ImuAngularCovariance := 0, ImuLinearCovariance := 0, PoseCovariance := 0, TwistCovariance := 0]);
      rawRecords := [];
      new;
      assert forall t :: At(t, config, []) == {};
      forall kind: Kind
        ensures kind in tallies.validCounts && tallies.validCounts[kind] == 0
      {
        match kind
        case Pose => case Twist => case Imu => case ImuOrientation => case ImuOrientationCovariance =>
        case ImuAngularCovariance => case ImuLinearCovariance => case PoseCovariance => case TwistCovariance =>
      }
    }

    method Observe(record: Record)
      requires Valid()
      modifies this
      ensures Valid() && rawRecords == old(rawRecords) + [record]
    {
      tallies := Tally(config, tallies, ends, rawRecords, givenStart, record);
      ends := TallyEnds(ends, rawRecords, givenStart, record);
      rawRecords := rawRecords + [record];
    }
  
    /** The gates, read off the counters: they hold exactly when the raw records meet their definitions. */
    method Summarize(f: Finish) returns (pass: bool)
      requires Valid()
      ensures pass <==> Passes(config, ends, rawRecords, f)
    {
      StampCounters(config, rawRecords);
      ArrivalCounters(config, rawRecords);
      ContentCounters(config, rawRecords, tallies.validCounts);
      if tallies.latencies.zeroStamps == 0 {
        CountIsZero(ZeroStamp, config, rawRecords);
        StampsArePositive(config, rawRecords);
        LatenciesAreAll(rawRecords);
      }
      var stampGates := tallies.latencies.zeroStamps == 0 && tallies.stamps.backward == 0 &&
        tallies.stamps.duplicates == 0 && tallies.stamps.gaps == 0;
      var arrivalGates := tallies.arrivals.backward == 0 && tallies.arrivals.gaps == 0;
      var contentGates := tallies.frames.mismatches == 0 && tallies.frames.childMismatches == 0 &&
        forall kind | kind in config.required :: kind in tallies.validCounts && tallies.validCounts[kind] == ends.count;
      var latencyGate := tallies.latencies.latencies != [] &&
        forall i | 0 <= i < |tallies.latencies.latencies| :: Abs(tallies.latencies.latencies[i]) <= config.maxLatency;
      var endGates := EndGates(config, ends, f);
      pass := endGates && stampGates && arrivalGates && contentGates && latencyGate;
    }
  }

  // ---------------------------------------------------------------- what a PASS covers

  function Total(s: seq<real>): real {
    if s == [] then 0.0 else Total(s[..|s| - 1]) + s[|s| - 1]
  }

  lemma TotalStep(s: seq<real>, x: real)
    ensures Total(s + [x]) == Total(s) + x
  {
    assert (s + [x])[..|s|] == s;
  }

  lemma SecondsDifference(a: int, b: int)
    ensures Seconds(a) - Seconds(b) == Seconds(a - b)
  {
  }

  /** Strictly increasing stamps: all steps are intervals, and they add up to the whole. */
  lemma {:induction false} StampIntervalsAddUp(r: seq<Record>)
    requires r != [] && forall i | 1 <= i < |r| :: r[i - 1].stamp < r[i].stamp
    ensures |StampIntervals(r)| == |r| - 1
    ensures Total(StampIntervals(r)) == Seconds(r[|r| - 1].stamp - r[0].stamp)
    decreases |r|
  {
    var n := |r| - 1;
    if n > 0 {
      var before := r[..n];
      StampIntervalsAddUp(before);
      TotalStep(StampIntervals(before), Seconds(r[n].stamp - r[n - 1].stamp));
      SecondsDifference(r[n].stamp, r[n - 1].stamp);
    }
  }

  /** n samples at most gap apart cover at most n - 1 gaps. */
  lemma {:induction false} ArrivalsReach(c: Config, r: seq<Record>, n: nat)
    requires ArrivalsAdvance(c, r) && 1 <= n <= |r|
    ensures Seconds(r[n - 1].arrivalWall - r[0].arrivalWall) <= (n - 1) as real * c.maxGap
  {
    if n > 1 {
      ArrivalsReach(c, r, n - 1);
      OneMoreGap(n, c.maxGap);
    }
  }

  lemma OneMoreGap(n: nat, gap: real)
    requires n > 1
    ensures (n - 1) as real * gap == (n - 2) as real * gap + gap
  {
    assert (n - 1) as real == (n - 2) as real + 1.0;
  }

  /** An instant is as near to a sample as its place allows: before the first, between two, or after the last. */
  ghost predicate Near(c: Config, r: seq<Record>, instant: int, i: nat) {
    i < |r| &&
    (if instant < r[i].arrivalWall then i == 0 && Seconds(r[i].arrivalWall - instant) <= c.maxFirstDelay
     else if i == |r| - 1 then Seconds(instant - r[i].arrivalWall) <= c.maxIdle
     else instant <= r[i + 1].arrivalWall && Seconds(r[i + 1].arrivalWall - r[i].arrivalWall) <= c.maxGap)
  }

  lemma {:induction false} LastBefore(r: seq<Record>, n: nat, instant: int) returns (i: nat)
    requires 1 <= n <= |r| && r[0].arrivalWall <= instant
    ensures i < n && r[i].arrivalWall <= instant && (i + 1 < n ==> instant < r[i + 1].arrivalWall)
  {
    if n == 1 || r[n - 1].arrivalWall <= instant {
      i := n - 1;
    } else {
      i := LastBefore(r, n - 1, instant);
    }
  }

  /** No instant between the start of a passing window and its finish is far from a sample. */
  lemma EveryInstantIsNear(c: Config, e: Ends, r: seq<Record>, f: Finish, start: Option<int>, instant: int)
    returns (i: nat)
    requires e.Of(r, start) && Passes(c, e, r, f)
    requires (if start.Some? then start.value else r[0].arrivalWall) <= instant <= f.wall
    ensures Near(c, r, instant, i)
  {
    if instant < r[0].arrivalWall {
      i := 0;
    } else {
      i := LastBefore(r, |r|, instant);
    }
  }

  /** A stream PASS: every stamp step is forward, and the steps add up to the whole. */
  lemma PassedStampsAddUp(c: Config, e: Ends, r: seq<Record>, f: Finish, start: Option<int>)
    requires e.Of(r, start) && Passes(c, e, r, f)
    ensures |r| >= 2 && |StampIntervals(r)| == |r| - 1
    ensures Total(StampIntervals(r)) == Seconds(r[|r| - 1].stamp - r[0].stamp)
  {
    StampIntervalsAddUp(r);
  }

  /** A stream PASS: at the largest allowed gap, the samples still reach the asked-for share of the window. */
  lemma PassedSamplesCoverWindow(c: Config, e: Ends, r: seq<Record>, f: Finish, start: Option<int>)
    requires e.Of(r, start) && Passes(c, e, r, f)
    ensures (|r| - 1) as real * c.maxGap >= c.minCoverage * Duration(e, f)
  {
    ArrivalsReach(c, r, |r|);
  }
}
