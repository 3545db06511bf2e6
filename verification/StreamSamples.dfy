/** From a sample's vectors and covariances to the judgements the stream counts, and what a stream PASS says of them. */
module StreamSamples {
  import opened Basics
  import opened QuadraticForm
  import opened CovarianceGates
  import Jacobi
  import Stream

  type Numbers = Option<seq<Number>>

  datatype Vectors = Vectors(
    position: Numbers, orientation: Numbers, linear: Numbers, angular: Numbers,
    imuAngular: Numbers, imuLinear: Numbers, imuOrientation: Numbers)

  datatype Sample = Sample(
    stamp: int, arrivalRos: int, arrivalWall: int, frame: string, child: string,
    vectors: Vectors, covariances: map<Stream.Kind, seq<Number>>)
  {
    function Covariance(kind: Stream.Kind): Numbers {
      if kind in covariances then Some(covariances[kind]) else None
    }
  }

  /** The record made of a covariance, and whether its eigenvalue loop stopped by its tolerance. */
  datatype Judgement = Judgement(quality: Quality, converged: bool)

  type Judgements = map<Stream.Kind, Judgement>

  // ---------------------------------------------------------------- payloads

  predicate FiniteVector(v: Numbers, length: nat) {
    v.Some? && |v.value| == length && AllFinite(v.value)
  }

  function SquaredLength(values: seq<Number>): real
    requires AllFinite(values)
  {
    if values == [] then 0.0
    else
      var x := values[|values| - 1].value;
      SquaredLength(values[..|values| - 1]) + x * x
  }

  ghost predicate TakesRoots(root: real -> real) {
    forall x: real | x >= 0.0 :: root(x) >= 0.0 && root(x) * root(x) == x
  }

  /** The length of the quaternion is within the tolerance of one, by its square. */
  predicate NearUnit(orientation: Numbers, tolerance: real) {
    && FiniteVector(orientation, 4) && tolerance >= 0.0
    && SquaredLength(orientation.value) <= (1.0 + tolerance) * (1.0 + tolerance)
    && (tolerance > 1.0 || SquaredLength(orientation.value) >= (1.0 - tolerance) * (1.0 - tolerance))
  }

  method SumOfSquares(values: seq<Number>) returns (sum: real)
    requires AllFinite(values)
    ensures sum == SquaredLength(values) && sum >= 0.0
  {
    sum := 0.0;
    for i := 0 to |values|
      invariant sum == SquaredLength(values[..i]) && sum >= 0.0
    {
      assert values[..i + 1][..i] == values[..i];
      sum := sum + values[i].value * values[i].value;
    }
    assert values[..|values|] == values;
  }

  method QuaternionNormalized(orientation: Numbers, tolerance: real, root: real -> real) returns (normalized: bool)
    requires TakesRoots(root)
    ensures normalized <==> NearUnit(orientation, tolerance)
  {
    if !FiniteVector(orientation, 4) {
      return false;
    }
    var sum := SumOfSquares(orientation.value);
    var norm := root(sum);
    normalized := Abs(norm - 1.0) <= tolerance;
    RootExceeds(norm, 1.0 + tolerance);
    if tolerance <= 1.0 {
      RootExceeds(1.0 - tolerance, norm);
    }
  }

  // ---------------------------------------------------------------- covariances

  /** Whether the gates look at the matrix at all: IMU covariances have two ways to say "unknown". */
  predicate Known(values: Numbers, n: nat) {
    && FiniteVector(values, n * n)
    && (n == 3 ==> values.value[0].value != -1.0 && exists i | 0 <= i < 9 :: values.value[i].value != 0.0)
  }

  /** What the record of an n by n covariance says of it. */
  ghost predicate QualityOf(values: Numbers, n: nat, gates: Config, j: Judgement) {
    if Known(values, n) then Judged(Rows(values.value, n), gates, j.quality, j.converged) else !j.quality.Valid()
  }

  const POSE_KINDS := {Stream.PoseCovariance, Stream.TwistCovariance}
  const IMU_KINDS := {Stream.ImuOrientationCovariance, Stream.ImuAngularCovariance, Stream.ImuLinearCovariance}

  function Dimension(kind: Stream.Kind): nat {
    if kind in IMU_KINDS then 3 else 6
  }

  method JudgeCovariance(values: Numbers, n: nat, gates: Config, rotation: Jacobi.Rotation)
    returns (valid: bool, ghost j: Judgement)
    requires Jacobi.SolvesAngle(rotation) && (n == 3 || n == 6)
    ensures QualityOf(values, n, gates, j) && valid == j.quality.Valid()
    ensures valid ==> Known(values, n)
  {
    var q: Quality;
    ghost var converged;
    var list := if values.Some? then values.value else [];
    if n == 6 {
      q, converged := CovarianceQuality(list, values.Some?, gates, rotation);
    } else {
      q, converged := ImuCovarianceQuality(list, values.Some?, gates, rotation);
    }
    valid, j := q.Valid(), Judgement(q, converged);
  }

  // ---------------------------------------------------------------- the sample

  /** What the judgements in a record say of the sample it was made from. */
  ghost predicate JudgedFrom(r: Stream.Record, s: Sample, gates: Config, tolerance: real, judgements: Judgements) {
    && r.stamp == s.stamp && r.arrivalRos == s.arrivalRos && r.arrivalWall == s.arrivalWall
    && r.frame == s.frame && r.child == s.child
    && PayloadsJudged(r.valid, s.vectors, tolerance) && CovariancesJudged(r.valid, s, gates, judgements)
  }

  const PAYLOAD_KINDS := {Stream.Pose, Stream.Twist, Stream.Imu, Stream.ImuOrientation}

  predicate PayloadsJudged(valid: set<Stream.Kind>, v: Vectors, tolerance: real) {
    && (Stream.Pose in valid <==> FiniteVector(v.position, 3) && NearUnit(v.orientation, tolerance))
    && (Stream.Twist in valid <==> FiniteVector(v.linear, 3) && FiniteVector(v.angular, 3))
    && (Stream.Imu in valid <==> FiniteVector(v.imuAngular, 3) && FiniteVector(v.imuLinear, 3))
    && (Stream.ImuOrientation in valid <==> NearUnit(v.imuOrientation, tolerance))
  }

  ghost predicate CovariancesJudged(valid: set<Stream.Kind>, s: Sample, gates: Config, judgements: Judgements) {
    forall kind | kind in POSE_KINDS + IMU_KINDS :: CovarianceJudged(kind, valid, s, gates, judgements)
  }

  /** The kind counts as valid exactly when the record of the sample's covariance of that kind is valid. */
  ghost predicate CovarianceJudged(kind: Stream.Kind, valid: set<Stream.Kind>, s: Sample, gates: Config,
                                   judgements: Judgements) {
    && kind in judgements && QualityOf(s.Covariance(kind), Dimension(kind), gates, judgements[kind])
    && (kind in valid <==> judgements[kind].quality.Valid())
  }

  function If(holds: bool, kind: Stream.Kind): set<Stream.Kind> {
    if holds then {kind} else {}
  }

  method JudgeCovariances(s: Sample, gates: Config, rotation: Jacobi.Rotation)
    returns (valid: set<Stream.Kind>, ghost judgements: Judgements)
    requires Jacobi.SolvesAngle(rotation)
    ensures CovariancesJudged(valid, s, gates, judgements) && valid <= POSE_KINDS + IMU_KINDS
  {
    var order := [Stream.PoseCovariance, Stream.TwistCovariance, Stream.ImuOrientationCovariance,
                  Stream.ImuAngularCovariance, Stream.ImuLinearCovariance];
    valid, judgements := {}, map[];
    for k := 0 to |order|
      invariant valid <= POSE_KINDS + IMU_KINDS && forall j | k <= j < |order| :: order[j] !in valid
      invariant forall j | 0 <= j < k :: CovarianceJudged(order[j], valid, s, gates, judgements)
    {
      ghost var before, earlier := judgements, valid;
      var holds, judgement := JudgeCovariance(s.Covariance(order[k]), Dimension(order[k]), gates, rotation);
      judgements := judgements[order[k] := judgement];
      valid := valid + If(holds, order[k]);
      forall j | 0 <= j < k ensures CovarianceJudged(order[j], valid, s, gates, judgements) {
        assert CovarianceJudged(order[j], earlier, s, gates, before);
      }
    }
    assert forall j | 0 <= j < |order| :: CovarianceJudged(order[j], valid, s, gates, judgements);
    EveryCovariance(order);
  }

  lemma EveryCovariance(order: seq<Stream.Kind>)
    requires order == [Stream.PoseCovariance, Stream.TwistCovariance, Stream.ImuOrientationCovariance,
                       Stream.ImuAngularCovariance, Stream.ImuLinearCovariance]
    ensures forall kind | kind in POSE_KINDS + IMU_KINDS :: kind in order
  {
    assert order[0] in order && order[1] in order && order[2] in order && order[3] in order && order[4] in order;
  }

  method JudgePayloads(v: Vectors, tolerance: real, root: real -> real) returns (valid: set<Stream.Kind>)
    requires TakesRoots(root)
    ensures PayloadsJudged(valid, v, tolerance) && valid <= PAYLOAD_KINDS
  {
    var poseNorm := QuaternionNormalized(v.orientation, tolerance, root);
    var imuNorm := QuaternionNormalized(v.imuOrientation, tolerance, root);
    valid := If(FiniteVector(v.position, 3) && poseNorm, Stream.Pose) +
      If(FiniteVector(v.linear, 3) && FiniteVector(v.angular, 3), Stream.Twist) +
      If(FiniteVector(v.imuAngular, 3) && FiniteVector(v.imuLinear, 3), Stream.Imu) +
      If(imuNorm, Stream.ImuOrientation);
  }

  lemma PayloadsApart(payloads: set<Stream.Kind>, covariances: set<Stream.Kind>, v: Vectors, tolerance: real)
    requires PayloadsJudged(payloads, v, tolerance) && covariances <= POSE_KINDS + IMU_KINDS
    ensures PayloadsJudged(payloads + covariances, v, tolerance)
  {
    assert Stream.Pose !in covariances && Stream.Twist !in covariances;
    assert Stream.Imu !in covariances && Stream.ImuOrientation !in covariances;
  }

  lemma CovariancesApart(payloads: set<Stream.Kind>, covariances: set<Stream.Kind>, s: Sample, gates: Config,
                         judgements: Judgements)
    requires CovariancesJudged(covariances, s, gates, judgements) && payloads <= PAYLOAD_KINDS
    ensures CovariancesJudged(payloads + covariances, s, gates, judgements)
  {
    forall kind | kind in POSE_KINDS + IMU_KINDS
      ensures CovarianceJudged(kind, payloads + covariances, s, gates, judgements)
    {
      assert CovarianceJudged(kind, covariances, s, gates, judgements);
      assert kind !in payloads;
    }
  }

  /** The part of observing a sample that judges it; Stream.StreamAccumulator.Observe counts what it returns. */
  method JudgeSample(s: Sample, gates: Config, tolerance: real, rotation: Jacobi.Rotation, root: real -> real)
    returns (record: Stream.Record, ghost judgements: Judgements)
    requires Jacobi.SolvesAngle(rotation) && TakesRoots(root)
    ensures PayloadsJudged(record.valid, s.vectors, tolerance)
    ensures JudgedFrom(record, s, gates, tolerance, judgements)
  {
    var covariances: set<Stream.Kind>;
    covariances, judgements := JudgeCovariances(s, gates, rotation);
    var payloads := JudgePayloads(s.vectors, tolerance, root);
    PayloadsApart(payloads, covariances, s.vectors, tolerance);
    CovariancesApart(payloads, covariances, s, gates, judgements);
    record := Stream.Record(s.stamp, s.arrivalRos, s.arrivalWall, s.frame, s.child, payloads + covariances);
  }

  // ---------------------------------------------------------------- what a stream PASS says of its covariances

  ghost predicate AllJudged(r: seq<Stream.Record>, samples: seq<Sample>, gates: Config, tolerance: real,
                            judgements: seq<Judgements>) {
    |samples| == |r| == |judgements| &&
    forall i | 0 <= i < |r| :: JudgedFrom(r[i], samples[i], gates, tolerance, judgements[i])
  }

  /** The configured floor exceeds what the tolerance exit and the asymmetry of m can take. */
  predicate WideEnough(m: Matrix, gates: Config)
    requires Square(m)
  {
    gates.minEigenvalue > Slack(6, gates.symmetryTolerance) || (Symmetric(m) && gates.minEigenvalue > Slack(6, 0.0))
  }

  lemma ValidPoseIsDefinite(m: Matrix, gates: Config, q: Quality)
    requires Judged(m, gates, q, true) && q.Valid() && |m| == 6 && WideEnough(m, gates)
    ensures PositiveDefinite(m)
  {
    FloorOfJudged(m, gates, q, true);
    if gates.minEigenvalue > Slack(6, gates.symmetryTolerance) {
      WideFloorIsSound(m, gates.minEigenvalue, JACOBI_ITERATIONS, gates.symmetryTolerance);
    } else {
      FloorGateMeansPositiveDefinite(m, gates.minEigenvalue, JACOBI_ITERATIONS);
    }
  }

  lemma ExactCovariance(c: Stream.Config, r: seq<Stream.Record>, samples: seq<Sample>, gates: Config, tolerance: real,
                        judgements: seq<Judgements>, i: nat, kind: Stream.Kind)
    requires Stream.ContentExact(c, r) && AllJudged(r, samples, gates, tolerance, judgements) && i < |r|
    requires kind in c.required && kind in POSE_KINDS + IMU_KINDS
    ensures kind in judgements[i] && judgements[i][kind].quality.Valid() &&
            Known(samples[i].Covariance(kind), Dimension(kind))
    ensures Judged(Rows(samples[i].Covariance(kind).value, Dimension(kind)), gates, judgements[i][kind].quality,
                   judgements[i][kind].converged)
  {
    assert JudgedFrom(r[i], samples[i], gates, tolerance, judgements[i]) && kind in r[i].valid;
    assert CovarianceJudged(kind, r[i].valid, samples[i], gates, judgements[i]);
  }

  lemma ExactPoseIsDefinite(c: Stream.Config, r: seq<Stream.Record>, samples: seq<Sample>, gates: Config,
                            tolerance: real, judgements: seq<Judgements>, i: nat, kind: Stream.Kind)
    requires Stream.ContentExact(c, r) && AllJudged(r, samples, gates, tolerance, judgements) && i < |r|
    requires kind in c.required && kind in POSE_KINDS && kind in judgements[i] && judgements[i][kind].converged
    ensures FiniteVector(samples[i].Covariance(kind), 36)
    ensures WideEnough(Rows(samples[i].Covariance(kind).value, 6), gates) ==>
              PositiveDefinite(Rows(samples[i].Covariance(kind).value, 6))
  {
    ExactCovariance(c, r, samples, gates, tolerance, judgements, i, kind);
    var m := Rows(samples[i].Covariance(kind).value, 6);
    if WideEnough(m, gates) {
      ValidPoseIsDefinite(m, gates, judgements[i][kind].quality);
    }
  }

  /** The covariances of one passing stream, sample by sample, and the judgements behind its counters. */
  ghost predicate PassedStream(c: Stream.Config, e: Stream.Ends, r: seq<Stream.Record>, f: Stream.Finish,
                               samples: seq<Sample>, gates: Config, tolerance: real, judgements: seq<Judgements>) {
    Stream.Passes(c, e, r, f) && AllJudged(r, samples, gates, tolerance, judgements)
  }

  /**
   In a passing stream that requires pose or twist covariances, every one whose loop stopped by its tolerance is
   positive definite if it is symmetric, or if the floor exceeds the slack of the tolerated asymmetry.
   */
  lemma PassedPosesAreDefinite(c: Stream.Config, e: Stream.Ends, r: seq<Stream.Record>, f: Stream.Finish,
                               samples: seq<Sample>, gates: Config, tolerance: real, judgements: seq<Judgements>,
                               i: nat, kind: Stream.Kind)
    requires PassedStream(c, e, r, f, samples, gates, tolerance, judgements) && i < |r|
    requires kind in c.required && kind in POSE_KINDS && kind in judgements[i] && judgements[i][kind].converged
    ensures FiniteVector(samples[i].Covariance(kind), 36)
    ensures WideEnough(Rows(samples[i].Covariance(kind).value, 6), gates) ==>
              PositiveDefinite(Rows(samples[i].Covariance(kind).value, 6))
  {
    ExactPoseIsDefinite(c, r, samples, gates, tolerance, judgements, i, kind);
  }

  /** In a passing stream that requires an IMU covariance, every symmetric one is positive definite on either exit. */
  lemma PassedImuIsDefinite(c: Stream.Config, e: Stream.Ends, r: seq<Stream.Record>, f: Stream.Finish,
                            samples: seq<Sample>, gates: Config, tolerance: real, judgements: seq<Judgements>, i: nat,
                            kind: Stream.Kind)
    requires PassedStream(c, e, r, f, samples, gates, tolerance, judgements) && i < |r|
    requires kind in c.required && kind in IMU_KINDS
    requires gates.maxAbs <= 1000.0 && gates.minEigenvalue > Slack(3, 0.0)
    ensures FiniteVector(samples[i].Covariance(kind), 9)
    ensures Symmetric(Rows(samples[i].Covariance(kind).value, 3)) ==>
              PositiveDefinite(Rows(samples[i].Covariance(kind).value, 3))
  {
    ExactCovariance(c, r, samples, gates, tolerance, judgements, i, kind);
    var values := samples[i].Covariance(kind).value;
    if Symmetric(Rows(values, 3)) {
      ImuRecordIsSound(values, gates, judgements[i][kind].quality, judgements[i][kind].converged);
    }
  }
}
