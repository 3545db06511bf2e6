/**
 The in-place Jacobi eigenvalue loop of the shadow preflight, over a mutable matrix.
 Floats are modelled as reals; atan2, cos and sin enter as one rotation function.
 */
module Jacobi {
  import opened Basics
  import opened Sums
  import opened QuadraticForm
  import opened FormBounds
  import opened JacobiEnergy

  /** atan2, cos and sin as the loop combines them: from (arr, acc, arc) to (cosine, sine). */
  type Rotation = (real, real, real) -> (real, real)

  ghost predicate SolvesAngle(rotation: Rotation) {
    forall arr: real, acc: real, arc: real ::
      Annihilates(arr, acc, arc, rotation(arr, acc, arc).0, rotation(arr, acc, arc).1)
  }

  ghost function Snapshot(a: array2<real>): (m: Matrix)
    requires a.Length0 == a.Length1
    reads a
    ensures |m| == a.Length0 && Square(m)
    ensures forall i: nat, j: nat | i < a.Length0 && j < a.Length0 :: m[i][j] == a[i, j] == Entry(m, i, j)
  {
    seq(a.Length0, i requires 0 <= i < a.Length0 reads a =>
      seq(a.Length0, j requires 0 <= j < a.Length0 reads a => a[i, j]))
  }

  /** Entry (a, b) comes before (row, col) in the scan, row by row. */
  ghost predicate Before(a: nat, b: nat, row: nat, col: nat) {
    a < row || (a == row && b < col)
  }

  /** The first largest entry strictly above the diagonal, scanning row by row. */
  method FindPivot(values: array2<real>) returns (largest: real, row: nat, col: nat)
    requires values.Length0 == values.Length1
    ensures largest >= 0.0 && OffDiagonalWithin(Snapshot(values), largest)
    ensures largest > 0.0 ==> row < col < values.Length0 && largest == Abs(values[row, col])
    ensures largest > 0.0 ==>
              forall a: nat, b: nat | a < b < values.Length0 && Before(a, b, row, col) :: Abs(values[a, b]) < largest
  {
    var size := values.Length0;
    largest, row, col := 0.0, 0, 0;
    for i := 0 to size
      invariant largest >= 0.0
      invariant largest > 0.0 ==> row < i && row < col < size && largest == Abs(values[row, col])
      invariant forall a: nat, b: nat | a < b < size && a < i :: Abs(values[a, b]) <= largest
      invariant largest > 0.0 ==>
                  forall a: nat, b: nat | a < b < size && Before(a, b, row, col) :: Abs(values[a, b]) < largest
    {
      for j := i + 1 to size
        invariant largest >= 0.0
        invariant largest > 0.0 ==> Before(row, col, i, j) && row < col < size && largest == Abs(values[row, col])
        invariant forall a: nat, b: nat | a < b < size && Before(a, b, i, j) :: Abs(values[a, b]) <= largest
        invariant largest > 0.0 ==>
                    forall a: nat, b: nat | a < b < size && Before(a, b, row, col) :: Abs(values[a, b]) < largest
      {
        var magnitude := Abs(values[i, j]);
        if magnitude > largest {
          largest, row, col := magnitude, i, j;
        }
      }
    }
  }

  /** The cells one pass of the update loop writes. */
  lemma RotatedCells(m: Matrix, r: nat, c: nat, cs: real, sn: real, other: nat, newRow: real, newCol: real)
    requires Square(m) && r < c < |m| && other < |m| && other != r && other != c
    requires newRow == cs * Entry(m, other, r) - sn * Entry(m, other, c)
    requires newCol == sn * Entry(m, other, r) + cs * Entry(m, other, c)
    ensures var w := Rotated(m, r, c, cs, sn);
            w[r][other] == w[other][r] == newRow && w[c][other] == w[other][c] == newCol
  {
    var w := Rotated(m, r, c, cs, sn);
    assert w[r][other] == Entry(w, r, other) && w[other][r] == Entry(w, other, r);
    assert w[c][other] == Entry(w, c, other) && w[other][c] == Entry(w, other, c);
  }

  /** The four cells the pivot block writes. */
  lemma RotatedBlock(m: Matrix, r: nat, c: nat, cs: real, sn: real, arr: real, acc: real, arc: real, newRow: real,
                     newCol: real)
    requires Square(m) && r < c < |m|
    requires arr == Entry(m, r, r) && acc == Entry(m, c, c) && arc == Entry(m, r, c)
    requires newRow == cs * cs * arr - 2.0 * sn * cs * arc + sn * sn * acc
    requires newCol == sn * sn * arr + 2.0 * sn * cs * arc + cs * cs * acc
    ensures var w := Rotated(m, r, c, cs, sn);
            w[r][r] == newRow && w[c][c] == newCol && w[r][c] == w[c][r] == 0.0
  {
    var w := Rotated(m, r, c, cs, sn);
    assert w[r][r] == Entry(w, r, r) && w[c][c] == Entry(w, c, c);
    assert w[r][c] == Entry(w, r, c) && w[c][r] == Entry(w, c, r);
  }

  lemma UntouchedCells(m: Matrix, r: nat, c: nat, cs: real, sn: real)
    requires Square(m) && r < c < |m|
    ensures var w := Rotated(m, r, c, cs, sn);
            forall i: nat, j: nat | i < |m| && j < |m| && i != r && i != c && j != r && j != c :: w[i][j] == m[i][j]
  {
    var w := Rotated(m, r, c, cs, sn);
    forall i: nat, j: nat | i < |m| && j < |m| && i != r && i != c && j != r && j != c ensures w[i][j] == m[i][j] {
      assert w[i][j] == Entry(w, i, j);
    }
  }

  /** Apply one rotation in place, reading the pivot columns and writing pivot rows and columns. */
  method Rotate(values: array2<real>, row: nat, col: nat, cosine: real, sine: real)
    requires values.Length0 == values.Length1 && row < col < values.Length0
    modifies values
    ensures Snapshot(values) == Rotated(old(Snapshot(values)), row, col, cosine, sine)
  {
    ghost var before := Snapshot(values);
    ghost var after := Rotated(before, row, col, cosine, sine);
    var arr, acc, arc := values[row, row], values[col, col], values[row, col];
    var newRow := cosine * cosine * arr - 2.0 * sine * cosine * arc + sine * sine * acc;
    var newCol := sine * sine * arr + 2.0 * sine * cosine * arc + cosine * cosine * acc;
    RotatedBlock(before, row, col, cosine, sine, arr, acc, arc, newRow, newCol);
    values[row, row] := newRow;
    values[col, col] := newCol;
    values[row, col] := 0.0;
    values[col, row] := 0.0;
    RotateOthers(values, row, col, cosine, sine, before, after);
    SameMatrix(Snapshot(values), after);
  }

  method RotateOthers(values: array2<real>, row: nat, col: nat, cosine: real, sine: real, ghost before: Matrix,
                      ghost after: Matrix)
    requires values.Length0 == values.Length1 == |before| && Square(before) && row < col < |before|
    requires after == Rotated(before, row, col, cosine, sine)
    requires forall i: nat, j: nat | i < |before| && j < |before| ::
               values[i, j] == if Written(row, col, 0, i, j) then after[i][j] else before[i][j]
    modifies values
    ensures forall i: nat, j: nat | i < |before| && j < |before| :: values[i, j] == after[i][j]
  {
    var size := values.Length0;
    for other := 0 to size
      invariant forall i: nat, j: nat | i < size && j < size ::
        values[i, j] == if Written(row, col, other, i, j) then after[i][j] else before[i][j]
    {
      if other != row && other != col {
        var oldRow, oldCol := values[other, row], values[other, col];
        var inRow, inCol := cosine * oldRow - sine * oldCol, sine * oldRow + cosine * oldCol;
        RotatedCells(before, row, col, cosine, sine, other, inRow, inCol);
        values[row, other] := inRow;
        values[other, row] := inRow;
        values[col, other] := inCol;
        values[other, col] := inCol;
      }
    }
    UntouchedCells(before, row, col, cosine, sine);
  }

  /** Cells already holding their new value once the first `other` indices are done. */
  ghost predicate Written(row: nat, col: nat, other: nat, i: nat, j: nat) {
    var pivotRow, pivotCol := i == row || i == col, j == row || j == col;
    (pivotRow && pivotCol) || (pivotRow && j < other) || (pivotCol && i < other)
  }

  /** w is v after one rotation about its largest off-diagonal entry. */
  ghost predicate OneRotation(v: Matrix, w: Matrix) {
    exists r: nat, c: nat, cs: real, sn: real :: RotatesInto(v, w, r, c, cs, sn)
  }

  ghost predicate RotatesInto(v: Matrix, w: Matrix, r: nat, c: nat, cs: real, sn: real) {
    && r < c < |v| && PivotDominates(v, r, c)
    && Annihilates(Entry(v, r, r), Entry(v, c, c), Entry(v, r, c), cs, sn)
    && w == Rotated(v, r, c, cs, sn)
  }

  /** One pass of the loop: either nothing off the diagonal exceeds tolerance, or one rotation. */
  method RotateLargest(values: array2<real>, rotation: Rotation, tolerance: real) returns (done: bool)
    requires values.Length0 == values.Length1 && SolvesAngle(rotation) && tolerance >= 0.0
    modifies values
    ensures done <==> OffDiagonalWithin(old(Snapshot(values)), tolerance)
    ensures done ==> Snapshot(values) == old(Snapshot(values))
    ensures !done ==> OneRotation(old(Snapshot(values)), Snapshot(values))
  {
    var largest, row, col := FindPivot(values);
    if largest <= tolerance {
      return true;
    }
    ghost var before := Snapshot(values);
    var arr, acc, arc := values[row, row], values[col, col], values[row, col];
    var cosine, sine := rotation(arr, acc, arc).0, rotation(arr, acc, arc).1;
    assert Annihilates(arr, acc, arc, cosine, sine);
    Rotate(values, row, col, cosine, sine);
    assert RotatesInto(before, Snapshot(values), row, col, cosine, sine);
    assert Abs(Entry(before, row, col)) > tolerance;
    return false;
  }

  /** s has the form bounds of a symmetric reading of m. */
  ghost predicate BoundsAReading(m: Matrix, s: Matrix) {
    exists p :: Reading(m, p) && SameBounds(p, s)
  }

  /** Every symmetric reading of v has the form bounds of a symmetric reading of m. */
  ghost predicate PullsBack(m: Matrix, v: Matrix) {
    |v| == |m| && Square(v) && forall s | Reading(v, s) :: BoundsAReading(m, s)
  }

  /** What k rotations conserve and remove when the matrix they started from is symmetric. */
  ghost predicate Conserved(m: Matrix, v: Matrix, k: nat) {
    && |v| == |m| && Square(v) && Square(m)
    && (Symmetric(m) ==>
        && Symmetric(v) && Trace(v) == Trace(m) && Energy(v) == Energy(m)
        && (|m| >= 2 ==> OffEnergy(v) <= Decayed(Shrink(|m|), k, OffEnergy(m))))
  }

  /** v is what k passes of the loop make of m. */
  ghost predicate RotatedTimes(m: Matrix, v: Matrix, k: nat)
    decreases k
  {
    if k == 0 then v == m else exists u :: RotatedTimes(m, u, k - 1) && OneRotation(u, v)
  }

  /** Whatever the number of passes: form bounds pull back to the input, and a symmetric input loses its energy. */
  lemma {:induction false} RotationsProgress(m: Matrix, v: Matrix, k: nat)
    requires Square(m) && RotatedTimes(m, v, k)
    ensures PullsBack(m, v) && Conserved(m, v, k)
    decreases k
  {
    if k == 0 {
      ProgressStarts(m);
    } else {
      var u :| RotatedTimes(m, u, k - 1) && OneRotation(u, v);
      RotationsProgress(m, u, k - 1);
      PullsBackSteps(m, u, v);
      ConservedSteps(m, u, v, k - 1);
    }
  }

  lemma ProgressStarts(m: Matrix)
    requires Square(m)
    ensures PullsBack(m, m) && Conserved(m, m, 0)
  {
    forall s | Reading(m, s) ensures BoundsAReading(m, s) {
      assert SameBounds(s, s);
    }
  }

  lemma PullsBackSteps(m: Matrix, v: Matrix, w: Matrix)
    requires PullsBack(m, v) && OneRotation(v, w)
    ensures PullsBack(m, w)
  {
    var r: nat, c: nat, cs: real, sn: real :| RotatesInto(v, w, r, c, cs, sn);
    forall s | Reading(w, s) ensures BoundsAReading(m, s) {
      var u := RotationTransfers(v, r, c, cs, sn, s);
      var p :| Reading(m, p) && SameBounds(p, u);
      assert SameBounds(p, s);
    }
  }

  lemma ConservedSteps(m: Matrix, v: Matrix, w: Matrix, k: nat)
    requires Conserved(m, v, k) && OneRotation(v, w)
    ensures Conserved(m, w, k + 1)
  {
    var r: nat, c: nat, cs: real, sn: real :| RotatesInto(v, w, r, c, cs, sn);
    if Symmetric(m) {
      RotationConserves(v, r, c, cs, sn);
      EnergyStep(v, w, Shrink(|v|), k, OffEnergy(m));
    }
  }

  lemma EnergyStep(v: Matrix, w: Matrix, rho: real, k: nat, start: real)
    requires Square(v) && Symmetric(v) && |v| >= 2 && rho == Shrink(|v|) && OneRotation(v, w)
    requires OffEnergy(v) <= Decayed(rho, k, start)
    ensures OffEnergy(w) <= Decayed(rho, k + 1, start)
  {
    var before, after := ShrinksEnergy(v, w, rho);
    DecayAgain(rho, k, start, before, after);
  }

  lemma ShrinksEnergy(v: Matrix, w: Matrix, rho: real) returns (before: real, after: real)
    requires Square(v) && Symmetric(v) && |v| >= 2 && rho == Shrink(|v|) && OneRotation(v, w)
    ensures before == OffEnergy(v) && after == OffEnergy(w) && after <= rho * before && rho >= 0.0
  {
    before, after := OffEnergy(v), OffEnergy(w);
    var r: nat, c: nat, cs: real, sn: real :| RotatesInto(v, w, r, c, cs, sn);
    DominantRotationShrinks(v, r, c, cs, sn);
  }

  lemma DecayAgain(rho: real, k: nat, start: real, before: real, after: real)
    requires rho >= 0.0 && before <= Decayed(rho, k, start) && after <= rho * before
    ensures after <= Decayed(rho, k + 1, start)
  {
    assert rho * before <= rho * Decayed(rho, k, start);
  }

  predicate AllAtLeast(s: seq<real>, floor: real) {
    forall i | 0 <= i < |s| :: s[i] >= floor
  }

  /** A floor on every listed value bounds the form of s from below, and every bound of the form is such a floor. */
  ghost predicate Brackets(s: Matrix, listed: seq<real>, residual: real) {
    && (forall floor: real :: AllAtLeast(listed, floor) ==> BoundedBelow(s, Lowered(floor, |s|, residual)))
    && (forall bound: real :: BoundedBelow(s, bound) ==> AllAtLeast(listed, bound))
  }

  ghost function Listed(s: seq<real>): nat -> real {
    (i: nat) => if i < |s| then s[i] else 0.0
  }

  /** Why what is left above the diagonal is small: the tolerance once the loop has stopped by it, else the decay of the
      energy of a symmetric matrix. */
  ghost predicate Residual(m: Matrix, iterations: nat, tolerance: real, converged: bool, residual: real) {
    && residual >= 0.0 && Square(m)
    && (converged ==> residual <= tolerance)
    && (!converged && |m| >= 2 && Symmetric(m) ==>
          2.0 * (residual * residual) <= Decayed(Shrink(|m|), iterations, OffEnergy(m)))
  }

  /**
   The diagonal after at most `iterations` rotations. Its minimum brackets the smallest Rayleigh quotient of `reading`,
   a symmetric reading of the input; converged says that the loop stopped by its tolerance.
   */
  method JacobiEigenvalues(matrix: Matrix, rotation: Rotation, tolerance: real, iterations: nat)
    returns (eigenvalues: seq<real>, ghost reading: Matrix, ghost residual: real, ghost converged: bool)
    requires Square(matrix) && SolvesAngle(rotation) && tolerance >= 0.0
    ensures |eigenvalues| == |matrix| && Residual(matrix, iterations, tolerance, converged, residual)
    ensures Reading(matrix, reading) && Brackets(reading, eigenvalues, residual)
    ensures Symmetric(matrix) ==> reading == matrix && Sum(|matrix|, Listed(eigenvalues)) == Trace(matrix)
    ensures OffDiagonalWithin(matrix, tolerance) ==> forall i | 0 <= i < |matrix| :: eigenvalues[i] == matrix[i][i]
    ensures OffDiagonalWithin(matrix, tolerance) && iterations > 0 ==> converged
  {
    var size := |matrix|;
    var values := new real[size, size]((i, j) requires 0 <= i < size && 0 <= j < size => matrix[i][j]);
    SameMatrix(Snapshot(values), matrix);
    ghost var k: nat;
    k, converged := RotateRepeatedly(matrix, values, rotation, tolerance, iterations);
    eigenvalues := seq(size, i requires 0 <= i < size reads values => values[i, i]);
    RotationsProgress(matrix, Snapshot(values), k);
    reading, residual := DiagonalJudged(matrix, Snapshot(values), k, eigenvalues, iterations, tolerance, converged);
  }

  lemma DiagonalJudged(m: Matrix, v: Matrix, k: nat, diagonal: seq<real>, iterations: nat, tolerance: real,
                       converged: bool)
    returns (reading: Matrix, residual: real)
    requires PullsBack(m, v) && Conserved(m, v, k) && tolerance >= 0.0
    requires if converged then OffDiagonalWithin(v, tolerance) else k == iterations
    requires |diagonal| == |m| && forall i: nat | i < |m| :: diagonal[i] == Entry(v, i, i)
    ensures Residual(m, iterations, tolerance, converged, residual)
    ensures Reading(m, reading) && Brackets(reading, diagonal, residual)
    ensures Symmetric(m) ==> reading == m && Sum(|m|, Listed(diagonal)) == Trace(m)
  {
    residual := FinalResidual(m, v, k, iterations, tolerance, converged);
    reading := DiagonalBrackets(m, v, diagonal, residual);
    if Symmetric(m) {
      SymmetricReadsItself(m, reading);
      SumEqual(|m|, DiagonalTerm(v), Listed(diagonal));
    }
  }

  /** One pass, as one more of the k passes made since m. */
  method Advance(values: array2<real>, rotation: Rotation, tolerance: real, ghost m: Matrix, ghost k: nat)
    returns (done: bool)
    requires values.Length0 == values.Length1 && SolvesAngle(rotation) && tolerance >= 0.0
    requires RotatedTimes(m, Snapshot(values), k)
    modifies values
    ensures done <==> OffDiagonalWithin(old(Snapshot(values)), tolerance)
    ensures if done then Snapshot(values) == old(Snapshot(values)) else RotatedTimes(m, Snapshot(values), k + 1)
  {
    ghost var before := Snapshot(values);
    done := RotateLargest(values, rotation, tolerance);
    assert !done ==> RotatedTimes(m, before, k) && OneRotation(before, Snapshot(values));
  }

  method RotateRepeatedly(matrix: Matrix, values: array2<real>, rotation: Rotation, tolerance: real, iterations: nat)
    returns (ghost k: nat, ghost converged: bool)
    requires Square(matrix) && SolvesAngle(rotation) && tolerance >= 0.0
    requires values.Length0 == values.Length1 && Snapshot(values) == matrix
    modifies values
    ensures RotatedTimes(matrix, Snapshot(values), k)
    ensures if converged then OffDiagonalWithin(Snapshot(values), tolerance) else k == iterations
    ensures OffDiagonalWithin(matrix, tolerance) ==> Snapshot(values) == matrix
    ensures OffDiagonalWithin(matrix, tolerance) && iterations > 0 ==> converged
  {
    k, converged := 0, false;
    for step := 0 to iterations
      invariant k == step && !converged && RotatedTimes(matrix, Snapshot(values), k)
      invariant step > 0 ==> !OffDiagonalWithin(matrix, tolerance)
      invariant step == 0 ==> Snapshot(values) == matrix
    {
      var done := Advance(values, rotation, tolerance, matrix, k);
      if done {
        converged := true;
        return;
      }
      k := k + 1;
    }
  }

  lemma FinalResidual(m: Matrix, v: Matrix, k: nat, iterations: nat, tolerance: real, converged: bool)
    returns (residual: real)
    requires Conserved(m, v, k) && tolerance >= 0.0
    requires if converged then OffDiagonalWithin(v, tolerance) else k == iterations
    ensures Residual(m, iterations, tolerance, converged, residual) && OffDiagonalWithin(v, residual)
  {
    if converged || |m| < 2 {
      residual := tolerance;
    } else {
      var r, c := LargestEntry(v);
      residual := Abs(Entry(v, r, c));
      if Symmetric(m) {
        ResidualBelowEnergy(v, r, c, residual, Decayed(Shrink(|m|), k, OffEnergy(m)));
      }
    }
  }

  lemma ResidualBelowEnergy(v: Matrix, r: nat, c: nat, residual: real, energy: real)
    requires Square(v) && Symmetric(v) && r < c < |v| && residual == Abs(Entry(v, r, c)) && OffEnergy(v) <= energy
    ensures 2.0 * (residual * residual) <= energy
  {
    AbsSquare(Entry(v, r, c));
    EntryBelowEnergy(v, r, c, residual * residual);
  }

  lemma LargestEntry(v: Matrix) returns (r: nat, c: nat)
    requires |v| >= 2
    ensures r < c < |v| && PivotDominates(v, r, c)
  {
    r, c := 0, 1;
    for i := 0 to |v|
      invariant r < c < |v|
      invariant forall a: nat, b: nat | a < b < |v| && a < i :: Abs(Entry(v, a, b)) <= Abs(Entry(v, r, c))
    {
      for j := i + 1 to |v|
        invariant r < c < |v|
        invariant forall a: nat, b: nat | a < b < |v| && Before(a, b, i, j) ::
                  Abs(Entry(v, a, b)) <= Abs(Entry(v, r, c))
      {
        if Abs(Entry(v, i, j)) > Abs(Entry(v, r, c)) {
          r, c := i, j;
        }
      }
    }
  }

  /** The upper triangle of the final matrix, pulled back to the input. */
  lemma DiagonalBrackets(m: Matrix, v: Matrix, diagonal: seq<real>, residual: real) returns (reading: Matrix)
    requires PullsBack(m, v) && |diagonal| == |m| && forall i: nat | i < |m| :: diagonal[i] == Entry(v, i, i)
    requires OffDiagonalWithin(v, residual)
    ensures Reading(m, reading) && Brackets(reading, diagonal, residual)
  {
    var u := UpperMirrored(v);
    assert Reading(v, u);
    reading :| Reading(m, reading) && SameBounds(reading, u);
    forall floor: real | AllAtLeast(diagonal, floor)
      ensures BoundedBelow(reading, Lowered(floor, |reading|, residual))
    {
      DiagonalFloorBoundsForm(v, floor, residual);
    }
    forall bound: real | BoundedBelow(reading, bound) ensures AllAtLeast(diagonal, bound) {
      assert BoundedBelow(u, bound);
      BoundBelowDiagonal(u, bound);
    }
  }
}
