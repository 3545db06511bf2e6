/** The preflight node's callbacks: each message is judged, counted by its stream, and noted for the linkage. */
module Preflight {
  import opened Basics
  import CovarianceGates
  import Identity
  import Jacobi
  import Linkage
  import opened QuadraticForm
  import Stream
  import opened StreamSamples

  /** What the linkage keeps of a stream's records. */
  function Headers(r: seq<Stream.Record>): (s: seq<Linkage.Sample>)
    ensures |s| == |r| && forall i | 0 <= i < |s| :: s[i] == Linkage.Sample(r[i].stamp, r[i].arrivalWall)
  {
    seq(|r|, i requires 0 <= i < |r| => Linkage.Sample(r[i].stamp, r[i].arrivalWall))
  }

  lemma HeadersStep(r: seq<Stream.Record>, x: Stream.Record)
    ensures Headers(r + [x]) == Headers(r) + [Linkage.Sample(x.stamp, x.arrivalWall)]
  {
  }

  lemma JudgedStep(r: seq<Stream.Record>, samples: seq<Sample>, gates: CovarianceGates.Config, tolerance: real,
                   judgements: seq<Judgements>, x: Stream.Record, s: Sample, j: Judgements)
    requires AllJudged(r, samples, gates, tolerance, judgements) && JudgedFrom(x, s, gates, tolerance, j)
    ensures AllJudged(r + [x], samples + [s], gates, tolerance, judgements + [j])
  {
    forall i | 0 <= i < |r| + 1
      ensures JudgedFrom((r + [x])[i], (samples + [s])[i], gates, tolerance, (judgements + [j])[i])
    {
      if i < |r| {
        assert JudgedFrom(r[i], samples[i], gates, tolerance, judgements[i]);
      }
    }
  }

  /** The linkage and the judgements of one stream follow its records. */
  ghost predicate Follows(headers: seq<Linkage.Sample>, r: seq<Stream.Record>, samples: seq<Sample>,
                          gates: CovarianceGates.Config, tolerance: real, judgements: seq<Judgements>) {
    headers == Headers(r) && AllJudged(r, samples, gates, tolerance, judgements)
  }

  lemma FollowsStep(headers: seq<Linkage.Sample>, r: seq<Stream.Record>, samples: seq<Sample>,
                    gates: CovarianceGates.Config, tolerance: real, judgements: seq<Judgements>, x: Stream.Record,
                    s: Sample, j: Judgements)
    requires Follows(headers, r, samples, gates, tolerance, judgements) && JudgedFrom(x, s, gates, tolerance, j)
    ensures Follows(headers + [Linkage.Sample(x.stamp, x.arrivalWall)], r + [x], samples + [s], gates, tolerance,
                    judgements + [j])
  {
    JudgedStep(r, samples, gates, tolerance, judgements, x, s, j);
    HeadersStep(r, x);
  }

  lemma HeadAndRest<T>(before: seq<T>, s: seq<T>)
    ensures if s == [] then before + s == before else before + [s[0]] + s[1..] == before + s
  {
  }

  /** One stream's subscription: its accumulator and the linkage it shares with the other streams. */
  class StreamMonitor {
    const name: string
    const gates: CovarianceGates.Config
    const tolerance: real
    const accumulator: Stream.StreamAccumulator
    const linkage: Linkage.LinkageAccumulator
    ghost var samples: seq<Sample>
    ghost var judgements: seq<Judgements>

    /** The counters are those of the judged samples, and the linkage holds their stamps and arrivals. */
    ghost predicate Valid()
      reads this, accumulator, linkage
    {
      accumulator.Valid() &&
      Follows(linkage.Stream(name), accumulator.rawRecords, samples, gates, tolerance, judgements)
    }

    constructor (name: string, gates: CovarianceGates.Config, tolerance: real, accumulator: Stream.StreamAccumulator,
                 linkage: Linkage.LinkageAccumulator)
      requires accumulator.Valid() && accumulator.rawRecords == [] && linkage.Stream(name) == []
      ensures Valid() && samples == [] && this.name == name && this.gates == gates && this.tolerance == tolerance
      ensures this.accumulator == accumulator && this.linkage == linkage
    {
      this.name, this.gates, this.tolerance := name, gates, tolerance;
      this.accumulator, this.linkage, samples, judgements := accumulator, linkage, [], [];
    }

    /** Counts a judged sample and notes it for the linkage. */
    method Count(record: Stream.Record, ghost sample: Sample, ghost judged: Judgements)
      requires Valid() && JudgedFrom(record, sample, gates, tolerance, judged)
      modifies this`samples, this`judgements, accumulator, linkage
      ensures Valid() && samples == old(samples) + [sample]
      ensures forall other: string | other != name :: linkage.Stream(other) == old(linkage.Stream(other))
    {
      ghost var headers, r := linkage.Stream(name), accumulator.rawRecords;
      FollowsStep(headers, r, samples, gates, tolerance, judgements, record, sample, judged);
      samples, judgements := samples + [sample], judgements + [judged];
      accumulator.Observe(record);
      linkage.ObserveStream(name, record.stamp, record.arrivalWall);
    }

    /** The callback of one message. */
    method OnMessage(sample: Sample, rotation: Jacobi.Rotation, root: real -> real)
      requires Valid() && Jacobi.SolvesAngle(rotation) && TakesRoots(root)
      modifies this`samples, this`judgements, accumulator, linkage
      ensures Valid() && samples == old(samples) + [sample]
      ensures forall other: string | other != name :: linkage.Stream(other) == old(linkage.Stream(other))
    {
      var record, judged := JudgeSample(sample, gates, tolerance, rotation, root);
      Count(record, sample, judged);
    }

    /** A run of messages, one after the other. */
    method Watch(messages: seq<Sample>, rotation: Jacobi.Rotation, root: real -> real)
      requires Valid() && Jacobi.SolvesAngle(rotation) && TakesRoots(root)
      modifies this`samples, this`judgements, accumulator, linkage
      ensures Valid() && samples == old(samples) + messages
    {
      HeadAndRest(samples, messages);
      if messages != [] {
        OnMessage(messages[0], rotation, root);
        Watch(messages[1..], rotation, root);
      }
    }

    /** The verdict on everything watched, and what a PASS says of its covariances. */
    method Finish(f: Stream.Finish) returns (pass: bool)
      requires Valid()
      ensures pass <==> Stream.Passes(accumulator.config, accumulator.ends, accumulator.rawRecords, f)
      ensures pass ==> ImuDefinite(samples, accumulator.config, gates)
      ensures pass ==> PosesDefinite(samples, accumulator.config, gates, judgements)
    {
      pass := accumulator.Summarize(f);
      if pass {
        PassIsDefinite(accumulator.config, accumulator.ends, accumulator.rawRecords, f, samples, gates, tolerance,
                       judgements);
      }
    }
  }

  /** Every required IMU covariance that is symmetric is positive definite. */
  ghost predicate ImuDefinite(samples: seq<Sample>, c: Stream.Config, gates: CovarianceGates.Config) {
    gates.maxAbs <= 1000.0 && gates.minEigenvalue > CovarianceGates.Slack(3, 0.0) ==>
      forall i, kind | 0 <= i < |samples| && kind in c.required && kind in IMU_KINDS :: DefiniteAt(samples[i], kind)
  }

  ghost predicate DefiniteAt(s: Sample, kind: Stream.Kind) {
    var n := Dimension(kind);
    FiniteVector(s.Covariance(kind), n * n) &&
    (Symmetric(CovarianceGates.Rows(s.Covariance(kind).value, n)) ==>
       PositiveDefinite(CovarianceGates.Rows(s.Covariance(kind).value, n)))
  }

  /** Every required pose or twist covariance whose loop stopped by tolerance is definite, if the floor is wide. */
  ghost predicate PosesDefinite(samples: seq<Sample>, c: Stream.Config, gates: CovarianceGates.Config,
                                judgements: seq<Judgements>) {
    |judgements| == |samples| &&
    forall i, kind | 0 <= i < |samples| && kind in c.required && kind in POSE_KINDS ::
      PoseDefiniteAt(samples[i], kind, gates, judgements[i])
  }

  ghost predicate PoseDefiniteAt(s: Sample, kind: Stream.Kind, gates: CovarianceGates.Config, judgements: Judgements) {
    kind in judgements && judgements[kind].quality.Valid() &&
    (judgements[kind].converged ==>
       && FiniteVector(s.Covariance(kind), 36)
       && (WideEnough(CovarianceGates.Rows(s.Covariance(kind).value, 6), gates) ==>
             PositiveDefinite(CovarianceGates.Rows(s.Covariance(kind).value, 6))))
  }

  lemma PassIsDefinite(c: Stream.Config, e: Stream.Ends, r: seq<Stream.Record>, f: Stream.Finish, samples: seq<Sample>,
                       gates: CovarianceGates.Config, tolerance: real, judgements: seq<Judgements>)
    requires PassedStream(c, e, r, f, samples, gates, tolerance, judgements)
    ensures ImuDefinite(samples, c, gates) && PosesDefinite(samples, c, gates, judgements)
  {
    forall i, kind | 0 <= i < |samples| && kind in c.required && kind in POSE_KINDS
      ensures PoseDefiniteAt(samples[i], kind, gates, judgements[i])
    {
      ExactCovariance(c, r, samples, gates, tolerance, judgements, i, kind);
      if judgements[i][kind].converged {
        PassedPosesAreDefinite(c, e, r, f, samples, gates, tolerance, judgements, i, kind);
      }
    }
    if gates.maxAbs <= 1000.0 && gates.minEigenvalue > CovarianceGates.Slack(3, 0.0) {
      forall i, kind | 0 <= i < |samples| && kind in c.required &&
          kind in IMU_KINDS ensures DefiniteAt(samples[i], kind) {
        PassedImuIsDefinite(c, e, r, f, samples, gates, tolerance, judgements, i, kind);
      }
    }
  }

  // ---------------------------------------------------------------- the correction stream and its identity records

  lemma PassedStampsIncrease(c: Stream.Config, e: Stream.Ends, r: seq<Stream.Record>, f: Stream.Finish)
    requires Stream.Passes(c, e, r, f)
    ensures Increasing(Linkage.Stamps(Headers(r)))
  {
    assert forall i | 0 <= i < |r| - 1 :: Linkage.Stamps(Headers(r))[i] < Linkage.Stamps(Headers(r))[i + 1];
  }

  /** Record i is that of correction i: near in stamp and arrival, of the one session, and i-th in its sequence. */
  ghost predicate Positional(corrections: seq<Linkage.Sample>, records: seq<Linkage.IdentityRecord>,
                             config: Linkage.Config)
    requires Linkage.AllParsed(records)
  {
    && |records| == |corrections| && Identity.OneEpoch(records)
    && forall i | 0 <= i < |records| ::
         && Seconds(AbsInt(corrections[i].stamp - records[i].parsed.value.correctionStamp)) <= config.maxStampDelta
         && Seconds(AbsInt(corrections[i].arrival - records[i].arrivalWall)) <= config.maxStatusArrivalDelta
  }

  lemma OrderedIsPositional(corrections: seq<Linkage.Sample>, records: seq<Linkage.IdentityRecord>,
                            propagated: seq<Linkage.Sample>, config: Linkage.Config, g: Linkage.Gates)
    requires Increasing(Linkage.Stamps(corrections)) && Linkage.AllParsed(records) && Identity.OneEpoch(records)
    requires Linkage.Judged(corrections, propagated, records, config, g) && g.Pass() && config.maxStampDelta >= 0.0
    ensures Positional(corrections, records, config)
  {
    Identity.GatesAreOneEpoch(records);
    Linkage.PassingLinkageIsPositional(corrections, propagated, records, config, g);
  }

  /**
   The three summaries together. When the correction stream, the identity records and the linkage of that stream all
   pass, the linkage is positional: the order of both sides is what the other two summaries have checked.
   */
  lemma PreflightPassIsPositional(c: Stream.Config, e: Stream.Ends, r: seq<Stream.Record>, f: Stream.Finish,
                                  records: seq<Linkage.IdentityRecord>, identity: Identity.Config, now: int,
                                  propagated: seq<Linkage.Sample>, config: Linkage.Config, g: Linkage.Gates)
    requires Stream.Passes(c, e, r, f)
    requires Identity.StatusesHold(records, identity, now) && Identity.OneEpoch(records)
    requires Linkage.Judged(Headers(r), propagated, records, config, g) && g.Pass() && config.maxStampDelta >= 0.0
    ensures Positional(Headers(r), records, config)
  {
    PassedStampsIncrease(c, e, r, f);
    OrderedIsPositional(Headers(r), records, propagated, config, g);
  }
}
