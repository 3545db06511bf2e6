/**
 The covariance quality records: which gates a covariance passes, what the eigenvalue gates
 then guarantee about its quadratic form, and where they do not.
 */
module CovarianceGates {
  import opened Basics
  import opened Sums
  import opened QuadraticForm
  import opened FormBounds
  import opened JacobiEnergy
  import opened Jacobi

  const JACOBI_TOLERANCE := 0.00000000000001   // 1e-14
  const JACOBI_ITERATIONS := 256

  datatype Number = Finite(value: real) | NotFinite

  datatype Config = Config(
    symmetryTolerance: real, psdTolerance: real, minDiagonal: real,
    minEigenvalue: real, maxDiagonal: real, maxAbs: real)

  datatype Quality = Quality(
    available: bool, known: bool, finite: bool, nonzero: bool, positiveDiagonal: bool,
    symmetric: bool, psd: bool, eigenvalueFloor: bool, withinBounds: bool)
  {
    /** A pose or twist covariance is valid when every gate but `known` holds. */
    predicate Valid() {
      available && finite && nonzero && positiveDiagonal && symmetric && psd && eigenvalueFloor && withinBounds
    }
  }

  predicate AllFinite(values: seq<Number>) {
    forall i | 0 <= i < |values| :: values[i].Finite?
  }

  function Cell(values: seq<Number>, size: nat, i: nat, j: nat): real {
    var k := i * size + j;
    if k < |values| && values[k].Finite? then values[k].value else 0.0
  }

  /** The row-major list as a size by size matrix. */
  function Rows(values: seq<Number>, size: nat): (m: Matrix)
    ensures |m| == size && Square(m)
    ensures forall i: nat, j: nat | i < size && j < size :: Entry(m, i, j) == Cell(values, size, i, j)
  {
    seq(size, i requires 0 <= i < size => seq(size, j requires 0 <= j < size => Cell(values, size, i, j)))
  }

  predicate InBounds(m: Matrix, config: Config)
    requires Square(m)
  {
    && (forall i | 0 <= i < |m| :: config.minDiagonal <= m[i][i] <= config.maxDiagonal)
    && (forall i, j | 0 <= i < |m| && 0 <= j < |m| :: Abs(m[i][j]) <= config.maxAbs)
  }

  predicate PositiveDiagonal(m: Matrix)
    requires Square(m)
  {
    forall i | 0 <= i < |m| :: m[i][i] > 0.0
  }

  /**
   What an eigenvalue gate with threshold `floor` says about the covariance it judged: a pass bounds the form of a
   symmetric reading from below, and a form bounded by the threshold passes. converged: the loop stopped by tolerance.
   */
  ghost predicate FloorGate(m: Matrix, floor: real, passed: bool, converged: bool, iterations: nat) {
    && Square(m)
    && (exists reading: Matrix, residual: real :: GateReads(m, floor, passed, converged, iterations, reading, residual))
    && (OffDiagonalWithin(m, JACOBI_TOLERANCE) ==> (passed <==> DiagonalAtLeast(m, floor)))
    && (OffDiagonalWithin(m, JACOBI_TOLERANCE) && iterations > 0 ==> converged)
  }

  ghost predicate GateReads(m: Matrix, floor: real, passed: bool, converged: bool, iterations: nat,
                            reading: Matrix, residual: real) {
    && Reading(m, reading) && Residual(m, iterations, JACOBI_TOLERANCE, converged, residual)
    && (passed ==> BoundedBelow(reading, Lowered(floor, |m|, residual)))
    && (BoundedBelow(reading, floor) ==> passed)
  }

  method SmallestEigenvalueAtLeast(m: Matrix, rotation: Rotation, psdFloor: real, floor: real, iterations: nat)
    returns (psd: bool, eigenvalueFloor: bool, ghost converged: bool)
    requires Square(m) && |m| > 0 && SolvesAngle(rotation)
    ensures psdFloor <= floor && eigenvalueFloor ==> psd
    ensures OffDiagonalWithin(m, JACOBI_TOLERANCE) ==> (psd <==> DiagonalAtLeast(m, psdFloor))
    ensures FloorGate(m, psdFloor, psd, converged, iterations)
    ensures FloorGate(m, floor, eigenvalueFloor, converged, iterations)
  {
    var eigenvalues;
    ghost var reading, residual;
    eigenvalues, reading, residual, converged := JacobiEigenvalues(m, rotation, JACOBI_TOLERANCE, iterations);
    var smallest := eigenvalues[0];
    for i := 1 to |eigenvalues|
      invariant forall j | 0 <= j < i :: eigenvalues[j] >= smallest
      invariant smallest in eigenvalues
    {
      if eigenvalues[i] < smallest {
        smallest := eigenvalues[i];
      }
    }
    psd, eigenvalueFloor := smallest >= psdFloor, smallest >= floor;
    MinimumDecides(reading, eigenvalues, residual, smallest, psdFloor, psd);
    MinimumDecides(reading, eigenvalues, residual, smallest, floor, eigenvalueFloor);
    GateFromMinimum(m, eigenvalues, reading, residual, smallest, psdFloor, psd, converged, iterations);
    GateFromMinimum(m, eigenvalues, reading, residual, smallest, floor, eigenvalueFloor, converged, iterations);
  }

  lemma MinimumDecides(reading: Matrix, listed: seq<real>, residual: real, smallest: real, floor: real, passed: bool)
    requires Brackets(reading, listed, residual) && smallest in listed && AllAtLeast(listed, smallest)
    requires passed == (smallest >= floor)
    ensures passed ==> BoundedBelow(reading, Lowered(floor, |reading|, residual))
    ensures BoundedBelow(reading, floor) ==> passed
  {
    assert passed ==> AllAtLeast(listed, floor);
    assert AllAtLeast(listed, floor) ==> passed;
  }

  lemma GateFromMinimum(m: Matrix, eigenvalues: seq<real>, reading: Matrix, residual: real, smallest: real,
                        floor: real, passed: bool, converged: bool, iterations: nat)
    requires Square(m) && |eigenvalues| == |m| && Residual(m, iterations, JACOBI_TOLERANCE, converged, residual)
    requires Reading(m, reading)
    requires passed ==> BoundedBelow(reading, Lowered(floor, |m|, residual))
    requires BoundedBelow(reading, floor) ==> passed
    requires OffDiagonalWithin(m, JACOBI_TOLERANCE) ==> forall i | 0 <= i < |m| :: eigenvalues[i] == m[i][i]
    requires OffDiagonalWithin(m, JACOBI_TOLERANCE) && iterations > 0 ==> converged
    requires smallest in eigenvalues && AllAtLeast(eigenvalues, smallest) && passed == (smallest >= floor)
    ensures FloorGate(m, floor, passed, converged, iterations)
  {
    assert GateReads(m, floor, passed, converged, iterations, reading, residual);
    if OffDiagonalWithin(m, JACOBI_TOLERANCE) {
      DiagonalPasses(m, eigenvalues, smallest, floor);
    }
  }

  lemma DiagonalPasses(m: Matrix, eigenvalues: seq<real>, smallest: real, floor: real)
    requires Square(m) && |eigenvalues| == |m| && forall i | 0 <= i < |m| :: eigenvalues[i] == m[i][i]
    requires smallest in eigenvalues && AllAtLeast(eigenvalues, smallest)
    ensures smallest >= floor <==> DiagonalAtLeast(m, floor)
  {
    var k :| 0 <= k < |eigenvalues| && eigenvalues[k] == smallest;
    assert smallest == Entry(m, k, k);
    assert forall i: nat | i < |m| :: Entry(m, i, i) == eigenvalues[i] >= smallest;
  }

  function Unjudged(available: bool): Quality {
    Quality(available, false, false, false, false, false, false, false, false)
  }

  /** Everything the record says about a matrix of finite numbers. */
  ghost predicate Judged(m: Matrix, config: Config, q: Quality, converged: bool) {
    && Square(m) && q.available && q.finite && q.known
    && (q.nonzero <==> exists i, j | 0 <= i < |m| && 0 <= j < |m| :: m[i][j] != 0.0)
    && (q.positiveDiagonal <==> PositiveDiagonal(m))
    && (q.symmetric <==> PairsWithin(m, config.symmetryTolerance))
    && (q.withinBounds <==> InBounds(m, config))
    && (q.symmetric ==>
          && FloorGate(m, -config.psdTolerance, q.psd, converged, JACOBI_ITERATIONS)
          && FloorGate(m, config.minEigenvalue, q.eigenvalueFloor, converged, JACOBI_ITERATIONS))
    && (!q.symmetric ==> !q.psd && !q.eigenvalueFloor)
  }

  method JudgeMatrix(m: Matrix, config: Config, rotation: Rotation) returns (q: Quality, ghost converged: bool)
    requires Square(m) && |m| > 0 && SolvesAngle(rotation)
    ensures Judged(m, config, q, converged)
  {
    var psd, floor := false, false;
    converged := false;
    if PairsWithin(m, config.symmetryTolerance) {
      psd, floor, converged :=
        SmallestEigenvalueAtLeast(m, rotation, -config.psdTolerance, config.minEigenvalue, JACOBI_ITERATIONS);
    }
    q := Quality(true, true, true, exists i, j | 0 <= i < |m| && 0 <= j < |m| :: m[i][j] != 0.0,
      PositiveDiagonal(m), PairsWithin(m, config.symmetryTolerance), psd, floor, InBounds(m, config));
  }

  /** Pose and twist covariances: 36 numbers. */
  method CovarianceQuality(values: seq<Number>, available: bool, config: Config, rotation: Rotation)
    returns (q: Quality, ghost converged: bool)
    requires SolvesAngle(rotation)
    ensures q.available == available
    ensures q.finite <==> available && |values| == 36 && AllFinite(values)
    ensures q.finite ==> Judged(Rows(values, 6), config, q, converged)
    ensures !q.finite ==> q == Unjudged(available)
  {
    converged := false;
    if !available || |values| != 36 || !AllFinite(values) {
      q := Unjudged(available);
      return;
    }
    q, converged := JudgeMatrix(Rows(values, 6), config, rotation);
  }

  /** IMU covariances: 9 numbers; a first element of -1 or nine zeros mean "not known". */
  method ImuCovarianceQuality(values: seq<Number>, available: bool, config: Config, rotation: Rotation)
    returns (q: Quality, ghost converged: bool)
    requires SolvesAngle(rotation)
    ensures q.available == available
    ensures q.finite <==> available && |values| == 9 && AllFinite(values)
    ensures q.known <==> q.finite && values[0].value != -1.0 && exists i | 0 <= i < 9 :: values[i].value != 0.0
    ensures q.known ==> Judged(Rows(values, 3), config, q, converged)
    ensures !q.known ==> !q.Valid()
  {
    converged := false;
    if !available || |values| != 9 || !AllFinite(values) {
      q := Unjudged(available);
      return;
    }
    var nonzero := exists i | 0 <= i < 9 :: values[i].value != 0.0;
    if values[0].value == -1.0 || !nonzero {
      q := Unjudged(true).(finite := true, nonzero := nonzero);
      return;
    }
    q, converged := JudgeMatrix(Rows(values, 3), config, rotation);
  }

  // ----- What a passing gate guarantees ---------------------------------------

  lemma PositiveBound(m: Matrix, bound: real)
    requires BoundedBelow(m, bound) && bound > 0.0
    ensures PositiveDefinite(m)
  {
    forall x: Vector | NormSq(|m|, x) > 0.0 ensures Quad(m, x) > 0.0 {
      PositiveProduct(bound, NormSq(|m|, x));
    }
  }

  lemma GateReading(m: Matrix, floor: real, passed: bool, converged: bool, iterations: nat)
    returns (reading: Matrix, residual: real)
    requires FloorGate(m, floor, passed, converged, iterations)
    ensures GateReads(m, floor, passed, converged, iterations, reading, residual)
  {
    reading, residual :| GateReads(m, floor, passed, converged, iterations, reading, residual);
  }

  /** Pairs asymmetric within the tolerance lower the bound of a pass by (n - 1) / 2 times the tolerance. */
  lemma FloorGateWithAsymmetry(m: Matrix, floor: real, converged: bool, iterations: nat, tolerance: real)
    returns (residual: real)
    requires FloorGate(m, floor, true, converged, iterations) && PairsWithin(m, tolerance)
    ensures Residual(m, iterations, JACOBI_TOLERANCE, converged, residual)
    ensures BoundedBelow(m, Lowered(floor, |m|, residual + 0.5 * tolerance))
  {
    var reading, least := GateReading(m, floor, true, converged, iterations);
    residual := least;
    PassBoundsForm(m, reading, floor, residual, tolerance);
  }

  lemma PassBoundsForm(m: Matrix, reading: Matrix, floor: real, residual: real, tolerance: real)
    requires Square(m) && Reading(m, reading) && PairsWithin(m, tolerance)
    requires BoundedBelow(reading, Lowered(floor, |m|, residual))
    ensures BoundedBelow(m, Lowered(floor, |m|, residual + 0.5 * tolerance))
  {
    ReadingCost(m, reading, tolerance, Lowered(floor, |m|, residual));
    LoweredTwice(floor, |m|, residual, 0.5 * tolerance);
  }

  /** Conversely a form bounded by that much more than the threshold is never refused. */
  lemma BoundedFormPasses(m: Matrix, floor: real, passed: bool, converged: bool, iterations: nat, tolerance: real,
                          bound: real)
    requires FloorGate(m, floor, passed, converged, iterations) && PairsWithin(m, tolerance)
    requires BoundedBelow(m, bound) && Lowered(bound, |m|, 0.5 * tolerance) == floor
    ensures passed
  {
    var reading, residual := GateReading(m, floor, passed, converged, iterations);
    ReadingCost(m, reading, tolerance, bound);
  }

  /** What the tolerance exit and the tolerated asymmetry can take from the smallest Rayleigh quotient. */
  function Slack(n: nat, tolerance: real): real {
    (n as real - 1.0) * (JACOBI_TOLERANCE + 0.5 * tolerance)
  }

  /** A floor above the slack: whatever the gate lets through on the tolerance exit is positive definite. */
  lemma WideFloorIsSound(m: Matrix, floor: real, iterations: nat, tolerance: real)
    requires FloorGate(m, floor, true, true, iterations) && PairsWithin(m, tolerance)
    requires |m| > 0 && floor > Slack(|m|, tolerance)
    ensures PositiveDefinite(m)
  {
    var residual := FloorGateWithAsymmetry(m, floor, true, iterations, tolerance);
    SmallResidualSuffices(m, floor, residual, tolerance);
  }

  lemma SmallResidualSuffices(m: Matrix, floor: real, residual: real, tolerance: real)
    requires |m| > 0 && residual <= JACOBI_TOLERANCE && floor > Slack(|m|, tolerance)
    requires BoundedBelow(m, Lowered(floor, |m|, residual + 0.5 * tolerance))
    ensures PositiveDefinite(m)
  {
    SlackGrows(|m| as real - 1.0, residual, tolerance);
    PositiveBound(m, Lowered(floor, |m|, residual + 0.5 * tolerance));
  }

  lemma SlackGrows(k: real, residual: real, tolerance: real)
    requires k >= 0.0 && residual <= JACOBI_TOLERANCE
    ensures k * (residual + 0.5 * tolerance) <= k * (JACOBI_TOLERANCE + 0.5 * tolerance)
  {
  }

  lemma SymmetricPairs(m: Matrix)
    requires Square(m) && Symmetric(m)
    ensures PairsWithin(m, 0.0)
  {
  }

  /** The gate on an exactly symmetric covariance, once the eigenvalue loop has stopped by its tolerance. */
  lemma FloorGateMeansPositiveDefinite(m: Matrix, floor: real, iterations: nat)
    requires FloorGate(m, floor, true, true, iterations) && Symmetric(m)
    requires |m| > 0 && floor > Slack(|m|, 0.0)
    ensures PositiveDefinite(m)
  {
    SymmetricPairs(m);
    WideFloorIsSound(m, floor, iterations, 0.0);
  }

  // ----- Where the gate and positive definiteness part ------------------------

  /** The slack on the diagonal, just inside the loop's tolerance above it, as far from symmetric as allowed below. */
  function SkewedEntry(n: nat, tolerance: real, i: nat, j: nat): real {
    if i == j then Slack(n, tolerance) else if i < j then -JACOBI_TOLERANCE else -JACOBI_TOLERANCE - tolerance
  }

  function Skewed(n: nat, tolerance: real): (m: Matrix)
    ensures |m| == n && Square(m)
    ensures forall i: nat, j: nat | i < n && j < n :: Entry(m, i, j) == SkewedEntry(n, tolerance, i, j)
  {
    seq(n, i requires 0 <= i < n => seq(n, j requires 0 <= j < n => SkewedEntry(n, tolerance, i, j)))
  }

  ghost function Ones(): Vector {
    (k: nat) => 1.0
  }

  lemma SkewedTerm(n: nat, tolerance: real, i: nat, j: nat)
    requires i < n && j < n
    ensures SymmetrizedTerm(Skewed(n, tolerance), Ones())(i, j)
            == if i == j then Slack(n, tolerance) else -(JACOBI_TOLERANCE + 0.5 * tolerance)
  {
  }

  lemma RowOfTwoValues(n: nat, f: nat -> real, i: nat, k: real, diagonal: real)
    requires i < n && f(i) == diagonal && diagonal == (n as real - 1.0) * -k
    requires forall j: nat | j < n && j != i :: f(j) == k
    ensures Sum(n, f) == 0.0
  {
    SumChange(n, f, Constant(k), i);
    SumConstant(n, k);
    RowBalances(n as real, k, diagonal, Sum(n, f));
  }

  lemma RowBalances(n: real, k: real, diagonal: real, total: real)
    requires diagonal == (n - 1.0) * -k && total - n * k == diagonal - k
    ensures total == 0.0
  {
    assert (n - 1.0) * -k == k - n * k;
  }

  lemma SkewedRow(n: nat, tolerance: real, i: nat)
    requires i < n
    ensures RowSums(n, SymmetrizedTerm(Skewed(n, tolerance), Ones()))(i) == 0.0
  {
    var f := RowOf(SymmetrizedTerm(Skewed(n, tolerance), Ones()), i);
    forall j: nat | j < n ensures f(j) == SymmetrizedTerm(Skewed(n, tolerance), Ones())(i, j) {
      SkewedTerm(n, tolerance, i, j);
    }
    SkewedTerm(n, tolerance, i, i);
    RowOfTwoValues(n, f, i, -(JACOBI_TOLERANCE + 0.5 * tolerance), Slack(n, tolerance));
  }

  /** Its form vanishes along (1, ..., 1). */
  lemma SkewedIsNotDefinite(n: nat, tolerance: real)
    requires n > 0
    ensures Quad(Skewed(n, tolerance), Ones()) == 0.0 && !PositiveDefinite(Skewed(n, tolerance))
  {
    var f := SymmetrizedTerm(Skewed(n, tolerance), Ones());
    QuadSymmetrized(Skewed(n, tolerance), Ones());
    forall i: nat | i < n ensures RowSums(n, f)(i) == Zero()(i) {
      SkewedRow(n, tolerance, i);
    }
    SumEqual(n, RowSums(n, f), Zero());
    SumZero(n);
    SumEqual(n, SquareTerm(Ones()), Constant(1.0));
    SumConstant(n, 1.0);
  }

  lemma SkewedEntries(n: nat, tolerance: real)
    requires n > 0 && tolerance >= 0.0
    ensures var m := Skewed(n, tolerance);
            && PairsWithin(m, tolerance) && OffDiagonalWithin(m, JACOBI_TOLERANCE)
            && DiagonalAtLeast(m, Slack(n, tolerance))
  {
    var m := Skewed(n, tolerance);
    forall i, j | 0 <= i < n && 0 <= j < n ensures Abs(m[i][j] - m[j][i]) <= tolerance {
      assert m[i][j] == Entry(m, i, j) && m[j][i] == Entry(m, j, i);
    }
  }

  lemma SkewedPasses(n: nat, tolerance: real, floor: real, iterations: nat)
    requires n > 0 && tolerance >= 0.0 && floor <= Slack(n, tolerance)
    ensures FloorGate(Skewed(n, tolerance), floor, true, true, iterations)
  {
    var m := Skewed(n, tolerance);
    SkewedEntries(n, tolerance);
    DiagonalFloorBoundsForm(m, floor, JACOBI_TOLERANCE);
    assert GateReads(m, floor, true, true, iterations, UpperMirrored(m), JACOBI_TOLERANCE);
  }

  /** Every square matrix of this size that both gates let through on the tolerance exit is positive definite. */
  ghost predicate GateIsSound(n: nat, floor: real, tolerance: real, iterations: nat) {
    forall m: Matrix | |m| == n && FloorGate(m, floor, true, true, iterations) && PairsWithin(m, tolerance) ::
      PositiveDefinite(m)
  }

  /** The symmetry and floor gates together mean positive definiteness exactly when the floor exceeds the slack. */
  lemma GateIsSoundExactly(n: nat, floor: real, tolerance: real, iterations: nat)
    requires n > 0 && tolerance >= 0.0
    ensures GateIsSound(n, floor, tolerance, iterations) <==> floor > Slack(n, tolerance)
  {
    if floor > Slack(n, tolerance) {
      forall m: Matrix | |m| == n && FloorGate(m, floor, true, true, iterations) && PairsWithin(m, tolerance)
        ensures PositiveDefinite(m)
      {
        WideFloorIsSound(m, floor, iterations, tolerance);
      }
    } else {
      SkewedPasses(n, tolerance, floor, iterations);
      SkewedEntries(n, tolerance);
      SkewedIsNotDefinite(n, tolerance);
    }
  }

  // ----- The whole record -------------------------------------------------------

  /** A valid record of a covariance, made on the tolerance exit, means that it is positive definite. */
  ghost predicate SoundOn(values: seq<Number>, config: Config, q: Quality) {
    Judged(Rows(values, 6), config, q, true) && q.Valid() ==> PositiveDefinite(Rows(values, 6))
  }

  ghost predicate RecordIsSound(config: Config) {
    forall values: seq<Number>, q: Quality :: SoundOn(values, config, q)
  }

  /** The other gates do not stand in the way of a diagonal as small as the slack. */
  predicate AcceptsSlack(config: Config) {
    var slack := Slack(6, config.symmetryTolerance);
    && config.symmetryTolerance >= 0.0 && -config.psdTolerance <= slack
    && config.minDiagonal <= slack <= config.maxDiagonal && slack <= config.maxAbs
  }

  /** The skewed matrix as the message carries it. */
  function SkewedList(tolerance: real): (values: seq<Number>)
    ensures |values| == 36 && AllFinite(values)
    ensures Rows(values, 6) == Skewed(6, tolerance)
  {
    var values := seq(36, k requires 0 <= k < 36 => Finite(SkewedEntry(6, tolerance, k / 6, k % 6)));
    SkewedCells(values, tolerance);
    values
  }

  lemma SkewedCells(values: seq<Number>, tolerance: real)
    requires |values| == 36 && forall k | 0 <= k < 36 :: values[k] == Finite(SkewedEntry(6, tolerance, k / 6, k % 6))
    ensures Rows(values, 6) == Skewed(6, tolerance)
  {
    forall i: nat, j: nat | i < 6 && j < 6 ensures Cell(values, 6, i, j) == SkewedEntry(6, tolerance, i, j) {
      assert (i * 6 + j) / 6 == i && (i * 6 + j) % 6 == j;
    }
    SameMatrix(Rows(values, 6), Skewed(6, tolerance));
  }

  /** Everything the gates ask of the skewed matrix. */
  lemma SkewedIsAccepted(config: Config)
    requires AcceptsSlack(config) && config.minEigenvalue <= Slack(6, config.symmetryTolerance)
    ensures Accepted(Skewed(6, config.symmetryTolerance), config)
  {
    var m := Skewed(6, config.symmetryTolerance);
    SkewedEntries(6, config.symmetryTolerance);
    forall i, j | 0 <= i < 6 && 0 <= j < 6 ensures m[i][j] == SkewedEntry(6, config.symmetryTolerance, i, j) {
      assert m[i][j] == Entry(m, i, j);
    }
  }

  /** A matrix the loop leaves alone, inside every bound. */
  ghost predicate Accepted(m: Matrix, config: Config) {
    && Square(m) && |m| > 0 && m[0][0] != 0.0 && PairsWithin(m, config.symmetryTolerance)
    && InBounds(m, config) && PositiveDiagonal(m) && OffDiagonalWithin(m, JACOBI_TOLERANCE)
    && DiagonalAtLeast(m, -config.psdTolerance) && DiagonalAtLeast(m, config.minEigenvalue)
  }

  lemma AcceptedIsValid(m: Matrix, config: Config, q: Quality, converged: bool)
    requires Accepted(m, config) && Judged(m, config, q, converged)
    ensures q.Valid() && converged
  {
    assert m[0][0] != 0.0;
  }

  lemma AllGatesJudge(m: Matrix, config: Config, q: Quality)
    requires Accepted(m, config) && q == Quality(true, true, true, true, true, true, true, true, true)
    requires FloorGate(m, -config.psdTolerance, true, true, JACOBI_ITERATIONS)
    requires FloorGate(m, config.minEigenvalue, true, true, JACOBI_ITERATIONS)
    ensures Judged(m, config, q, true)
  {
    assert m[0][0] != 0.0;
  }

  lemma FloorOfJudged(m: Matrix, config: Config, q: Quality, converged: bool)
    requires Judged(m, config, q, converged) && q.Valid()
    ensures PairsWithin(m, config.symmetryTolerance) && InBounds(m, config)
    ensures FloorGate(m, config.minEigenvalue, true, converged, JACOBI_ITERATIONS)
  {
  }

  /** A valid record on the tolerance exit means positive definiteness exactly when the floor exceeds the slack. */
  lemma RecordIsSoundExactly(config: Config)
    requires AcceptsSlack(config)
    ensures RecordIsSound(config) <==> config.minEigenvalue > Slack(6, config.symmetryTolerance)
  {
    if config.minEigenvalue > Slack(6, config.symmetryTolerance) {
      forall values: seq<Number>, q: Quality ensures SoundOn(values, config, q) {
        if Judged(Rows(values, 6), config, q, true) && q.Valid() {
          WideRecordIsSound(Rows(values, 6), config, q);
        }
      }
    } else {
      NarrowRecordIsUnsound(config);
    }
  }

  lemma WideRecordIsSound(m: Matrix, config: Config, q: Quality)
    requires Judged(m, config, q, true) && q.Valid() && |m| > 0
    requires config.minEigenvalue > Slack(|m|, config.symmetryTolerance)
    ensures PositiveDefinite(m)
  {
    FloorOfJudged(m, config, q, true);
    WideFloorIsSound(m, config.minEigenvalue, JACOBI_ITERATIONS, config.symmetryTolerance);
  }

  lemma SkewedIsJudgedValid(config: Config, q: Quality)
    requires AcceptsSlack(config) && config.minEigenvalue <= Slack(6, config.symmetryTolerance)
    requires q == Quality(true, true, true, true, true, true, true, true, true)
    ensures Judged(Skewed(6, config.symmetryTolerance), config, q, true)
  {
    SkewedIsAccepted(config);
    SkewedPasses(6, config.symmetryTolerance, -config.psdTolerance, JACOBI_ITERATIONS);
    SkewedPasses(6, config.symmetryTolerance, config.minEigenvalue, JACOBI_ITERATIONS);
    AllGatesJudge(Skewed(6, config.symmetryTolerance), config, q);
  }

  lemma SkewedListIsUnsound(config: Config, values: seq<Number>, q: Quality)
    requires AcceptsSlack(config) && config.minEigenvalue <= Slack(6, config.symmetryTolerance)
    requires values == SkewedList(config.symmetryTolerance)
    requires q == Quality(true, true, true, true, true, true, true, true, true)
    ensures !SoundOn(values, config, q)
  {
    SkewedIsJudgedValid(config, q);
    SkewedIsNotDefinite(6, config.symmetryTolerance);
  }

  lemma NarrowRecordIsUnsound(config: Config)
    requires AcceptsSlack(config) && config.minEigenvalue <= Slack(6, config.symmetryTolerance)
    ensures !RecordIsSound(config)
  {
    var q := Quality(true, true, true, true, true, true, true, true, true);
    SkewedListIsUnsound(config, SkewedList(config.symmetryTolerance), q);
  }

  /** In the other case the judging method itself finds the skewed list valid. */
  method AdmitsIndefinite(config: Config, rotation: Rotation) returns (q: Quality, ghost converged: bool)
    requires SolvesAngle(rotation)
    requires AcceptsSlack(config) && config.minEigenvalue <= Slack(6, config.symmetryTolerance)
    ensures q.Valid() && converged && !PositiveDefinite(Rows(SkewedList(config.symmetryTolerance), 6))
  {
    q, converged := CovarianceQuality(SkewedList(config.symmetryTolerance), true, config, rotation);
    SkewedIsAccepted(config);
    AcceptedIsValid(Skewed(6, config.symmetryTolerance), config, q, converged);
    SkewedIsNotDefinite(6, config.symmetryTolerance);
  }

  /** The gates of the configuration file. */
  const CONFIGURED := Config(0.000000001, 0.000000001, 0.000000000001, 0.000000000001, 1000.0, 1000.0)

  lemma ConfiguredTolerancesAreTooWide()
    ensures AcceptsSlack(CONFIGURED) && !RecordIsSound(CONFIGURED)
  {
    RecordIsSoundExactly(CONFIGURED);
  }

  /** With the configured values an exactly symmetric covariance whose record is valid is positive definite. */
  lemma ConfiguredRecordIsSound(values: seq<Number>, q: Quality)
    requires Judged(Rows(values, 6), CONFIGURED, q, true) && q.Valid() && Symmetric(Rows(values, 6))
    ensures PositiveDefinite(Rows(values, 6))
  {
    FloorOfJudged(Rows(values, 6), CONFIGURED, q, true);
    FloorGateMeansPositiveDefinite(Rows(values, 6), CONFIGURED.minEigenvalue, JACOBI_ITERATIONS);
  }

  // ----- Three dimensions need no convergence hypothesis -------------------------

  lemma EnergyWithinBounds(m: Matrix, most: real)
    requires Square(m) && forall i, j | 0 <= i < |m| && 0 <= j < |m| :: Abs(m[i][j]) <= most
    ensures OffEnergy(m) <= |m| as real * (|m| as real - 1.0) * (most * most)
  {
    var n := |m|;
    forall i: nat, j: nat | i < n && j < n ensures OffTerm(m)(i, j) <= OffConstant(most * most)(i, j) {
      assert Abs(m[i][j]) <= most && m[i][j] == Entry(m, i, j);
      AbsSquare(m[i][j]);
      SquareGrows(Abs(m[i][j]), most);
    }
    Sum2Monotone(n, n, OffTerm(m), OffConstant(most * most));
    OffConstantTotal(n, most * most);
  }

  lemma PowerHalves(rho: real, k: nat, most: real)
    requires 0.0 <= rho <= 1.0 && Power(rho, k / 2) <= most
    ensures 0.0 <= Power(rho, k) <= most * most
  {
    PowerWithinOne(rho, k / 2);
    PowerWithinOne(rho, k % 2);
    PowerSquares(rho, k / 2, most);
    PowerSplits(rho, k, 2 * (k / 2), k % 2);
    ShareOf(Power(rho, k), Power(rho, 2 * (k / 2)), Power(rho, k % 2));
  }

  lemma PowerSplits(rho: real, k: nat, i: nat, j: nat)
    requires k == i + j
    ensures Power(rho, k) == Power(rho, i) * Power(rho, j)
  {
    PowerOfSum(rho, i, j);
  }

  lemma TwoThirds(rho: real, k: nat)
    requires rho == 2.0 / 3.0 && k >= 4
    ensures Power(rho, k) <= 0.2
  {
    PowerWithinOne(rho, k - 4);
    assert Power(rho, k - 2) == rho * (rho * Power(rho, k - 4));
    assert Power(rho, k) == rho * (rho * Power(rho, k - 2));
  }

  /** 256 rotations of a 3 by 3 matrix leave less than 1e-40 of the off-diagonal energy. */
  lemma ThirdsVanish(rho: real, k: nat)
    requires rho == 2.0 / 3.0 && k >= 256
    ensures 0.0 <= Power(rho, k) <= 0.0000000000000000000000000000000000000001
  {
    TwoThirds(rho, k / 2 / 2 / 2 / 2 / 2 / 2);
    PowerHalves(rho, k / 2 / 2 / 2 / 2 / 2, 0.2);
    PowerHalves(rho, k / 2 / 2 / 2 / 2, 0.04);
    PowerHalves(rho, k / 2 / 2 / 2, 0.002);
    PowerHalves(rho, k / 2 / 2, 0.000004);
    PowerHalves(rho, k / 2, 0.00000000002);
    PowerHalves(rho, k, 0.000000000000000000001);
  }

  lemma ScaledBelow(power: real, energy: real, most: real)
    requires power >= 0.0 && energy <= most
    ensures power * energy <= power * most
  {
  }

  lemma SquareExceeds(residual: real, power: real, energy: real)
    requires residual > JACOBI_TOLERANCE && energy <= 6000000.0
    requires 0.0 <= power <= 0.0000000000000000000000000000000000000001
    ensures 2.0 * (residual * residual) > power * energy
  {
    ScaledBelow(power, energy, 6000000.0);
    SquareGrows(JACOBI_TOLERANCE, residual);
  }

  lemma BoundedEnergy(m: Matrix, most: real)
    requires Square(m) && |m| == 3 && most <= 1000.0
    requires forall i, j | 0 <= i < 3 && 0 <= j < 3 :: Abs(m[i][j]) <= most
    ensures OffEnergy(m) <= 6000000.0
  {
    EnergyWithinBounds(m, most);
    assert Abs(m[0][0]) <= most;
    SquareGrows(most, 1000.0);
  }

  lemma LittleEnergyIsLeft(iterations: nat, energy: real) returns (power: real)
    requires iterations >= 256
    ensures 0.0 <= power <= 0.0000000000000000000000000000000000000001
    ensures Decayed(Shrink(3), iterations, energy) == power * energy
  {
    power := Power(Shrink(3), iterations);
    ThirdsVanish(Shrink(3), iterations);
    DecayIsPower(Shrink(3), iterations, energy);
  }

  /** A symmetric 3 by 3 matrix with entries up to 1000 is diagonal to the tolerance on both exits. */
  lemma SmallResidual(m: Matrix, iterations: nat, converged: bool, residual: real, most: real)
    requires Square(m) && Symmetric(m) && |m| == 3 && iterations >= 256
    requires Residual(m, iterations, JACOBI_TOLERANCE, converged, residual)
    requires most <= 1000.0 && forall i, j | 0 <= i < 3 && 0 <= j < 3 :: Abs(m[i][j]) <= most
    ensures residual <= JACOBI_TOLERANCE
  {
    BoundedEnergy(m, most);
    var power := LittleEnergyIsLeft(iterations, OffEnergy(m));
    if residual > JACOBI_TOLERANCE {
      SquareExceeds(residual, power, OffEnergy(m));
      assert false;
    }
  }

  /** The floor gate on a symmetric 3 by 3 matrix with entries up to 1000, whichever exit the loop took. */
  lemma FloorGateInThreeDimensions(m: Matrix, floor: real, converged: bool, iterations: nat, most: real)
    requires FloorGate(m, floor, true, converged, iterations) && Symmetric(m)
    requires |m| == 3 && iterations >= 256 && floor > Slack(3, 0.0)
    requires most <= 1000.0 && forall i, j | 0 <= i < 3 && 0 <= j < 3 :: Abs(m[i][j]) <= most
    ensures PositiveDefinite(m)
  {
    SymmetricPairs(m);
    var residual := FloorGateWithAsymmetry(m, floor, converged, iterations, 0.0);
    SmallResidual(m, iterations, converged, residual, most);
    SmallResidualSuffices(m, floor, residual, 0.0);
  }

  /** An exactly symmetric IMU covariance whose record is valid is positive definite, whichever exit the loop took. */
  lemma ImuRecordIsSound(values: seq<Number>, config: Config, q: Quality, converged: bool)
    requires Judged(Rows(values, 3), config, q, converged) && q.Valid() && Symmetric(Rows(values, 3))
    requires config.maxAbs <= 1000.0 && config.minEigenvalue > Slack(3, 0.0)
    ensures PositiveDefinite(Rows(values, 3))
  {
    FloorOfJudged(Rows(values, 3), config, q, converged);
    FloorGateInThreeDimensions(Rows(values, 3), config.minEigenvalue, converged, JACOBI_ITERATIONS, config.maxAbs);
  }
}
