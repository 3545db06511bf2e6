/**
 Which forms a matrix that is not quite symmetric stands for, how rotations carry their bounds, how far a form can lie
 from the diagonal, and what asymmetry costs.
 */
module FormBounds {
  import opened Basics
  import opened Sums
  import opened QuadraticForm

  // ----- The symmetrized form -----------------------------------------------

  ghost function SymmetrizedTerm(m: Matrix, x: Vector): (nat, nat) -> real {
    (i: nat, j: nat) => 0.5 * (Entry(m, i, j) + Entry(m, j, i)) * (x(i) * x(j))
  }

  /** The form only sees the average of an entry and its mirror image. */
  lemma QuadSymmetrized(m: Matrix, x: Vector)
    ensures Quad(m, x) == Sum2(|m|, |m|, SymmetrizedTerm(m, x))
  {
    var n, f := |m|, QuadTerm(m, x);
    var t: (nat, nat) -> real := (i: nat, j: nat) => f(j, i);
    Sum2Transpose(n, n, f, t);
    forall i: nat, j: nat | i < n && j < n
      ensures SymmetrizedTerm(m, x)(i, j) == 0.5 * f(i, j) + 0.5 * t(i, j)
    {
      AverageTerm(Entry(m, i, j), Entry(m, j, i), x(i), x(j));
    }
    Sum2Combine(n, n, f, t, SymmetrizedTerm(m, x), 0.5, 0.5);
  }

  lemma AverageTerm(p: real, q: real, xi: real, xj: real)
    ensures 0.5 * (p + q) * (xi * xj) == 0.5 * (xi * (p * xj)) + 0.5 * (xj * (q * xi))
  {
  }

  lemma SquareNonnegative(a: real)
    ensures a * a >= 0.0
  {
  }

  lemma ScaledProduct(gap: real, product: real, room: real, half: real)
    requires Abs(product) <= 0.5 * half && Abs(gap) <= 0.5 * room
    ensures -((0.25 * half) * room) <= gap * product <= (0.25 * half) * room
  {
    var g, p := Abs(gap), Abs(product);
    assert g * p <= (0.5 * room) * (0.5 * half) by {
      assert g * p <= g * (0.5 * half);
      assert g * (0.5 * half) <= (0.5 * room) * (0.5 * half);
    }
    assert gap * product <= g * p && -(g * p) <= gap * product;
  }

  // ----- One-sided readings -------------------------------------------------

  /** s is symmetric and takes every entry from m, at its place or mirrored. */
  ghost predicate Reading(m: Matrix, s: Matrix) {
    |s| == |m| && Square(s) &&
    forall i: nat, j: nat | i < |m| && j < |m| ::
      Entry(s, i, j) == Entry(s, j, i) && (Entry(s, i, j) == Entry(m, i, j) || Entry(s, i, j) == Entry(m, j, i))
  }

  lemma SameMatrix(a: Matrix, b: Matrix)
    requires |a| == |b| && Square(a) && Square(b)
    requires forall i: nat, j: nat | i < |a| && j < |a| :: Entry(a, i, j) == Entry(b, i, j)
    ensures a == b
  {
    forall i | 0 <= i < |a| ensures a[i] == b[i] {
      forall j | 0 <= j < |a| ensures a[i][j] == b[i][j] {
        assert Entry(a, i, j) == Entry(b, i, j);
      }
    }
  }

  /** A symmetric matrix has no reading but itself. */
  lemma SymmetricReadsItself(m: Matrix, s: Matrix)
    requires Square(m) && Symmetric(m)
    ensures Reading(m, s) <==> s == m
  {
    forall i: nat, j: nat | i < |m| && j < |m| ensures Entry(m, i, j) == Entry(m, j, i) {
      assert m[i][j] == m[j][i];
    }
    if Reading(m, s) {
      SameMatrix(s, m);
    }
  }

  ghost predicate SameBounds(a: Matrix, b: Matrix) {
    forall bound: real :: BoundedBelow(a, bound) <==> BoundedBelow(b, bound)
  }

  /** The reading of m that a reading s of the rotated matrix came from: on the pivot rows and columns what the update
      reads, elsewhere s itself. */
  function PulledEntry(m: Matrix, s: Matrix, r: nat, c: nat, i: nat, j: nat): real {
    if i == r || i == c || j == r || j == c then MirroredEntry(m, r, c, i, j) else Entry(s, i, j)
  }

  function Pulled(m: Matrix, s: Matrix, r: nat, c: nat): (p: Matrix)
    ensures |p| == |m| && Square(p)
    ensures forall i: nat, j: nat | i < |m| && j < |m| :: Entry(p, i, j) == PulledEntry(m, s, r, c, i, j)
  {
    seq(|m|, i requires 0 <= i < |m| => seq(|m|, j requires 0 <= j < |m| => PulledEntry(m, s, r, c, i, j)))
  }

  lemma PulledIsReading(m: Matrix, s: Matrix, r: nat, c: nat, cs: real, sn: real)
    requires r < c < |m| && Reading(Rotated(m, r, c, cs, sn), s)
    ensures Reading(m, Pulled(m, s, r, c))
  {
    var p, v := Pulled(m, s, r, c), Rotated(m, r, c, cs, sn);
    forall i: nat, j: nat | i < |m| && j < |m|
      ensures Entry(p, i, j) == Entry(p, j, i) && (Entry(p, i, j) == Entry(m, i, j) || Entry(p, i, j) == Entry(m, j, i))
    {
      assert Entry(s, i, j) == Entry(s, j, i) && (Entry(s, i, j) == Entry(v, i, j) || Entry(s, i, j) == Entry(v, j, i));
    }
  }

  lemma PulledIsMirrored(m: Matrix, s: Matrix, r: nat, c: nat)
    requires r < c < |m| && Reading(m, Pulled(m, s, r, c))
    ensures Mirrored(Pulled(m, s, r, c), r, c) == Pulled(m, s, r, c)
  {
    SameMatrix(Mirrored(Pulled(m, s, r, c), r, c), Pulled(m, s, r, c));
  }

  lemma PulledRotates(m: Matrix, s: Matrix, r: nat, c: nat, cs: real, sn: real)
    requires r < c < |m| && Reading(Rotated(m, r, c, cs, sn), s)
    ensures Rotated(Pulled(m, s, r, c), r, c, cs, sn) == s
  {
    var p, v := Pulled(m, s, r, c), Rotated(m, r, c, cs, sn);
    var w := Rotated(p, r, c, cs, sn);
    forall i: nat, j: nat | i < |m| && j < |m| ensures Entry(w, i, j) == Entry(s, i, j) {
      assert Entry(s, i, j) == Entry(v, i, j) || Entry(s, i, j) == Entry(v, j, i);
    }
    SameMatrix(w, s);
  }

  /** One whole step of the loop: every reading of the new matrix has the form bounds of a reading of the old one. */
  lemma RotationTransfers(m: Matrix, r: nat, c: nat, cs: real, sn: real, s: Matrix) returns (p: Matrix)
    requires r < c < |m| && Reading(Rotated(m, r, c, cs, sn), s)
    requires Annihilates(Entry(m, r, r), Entry(m, c, c), Entry(m, r, c), cs, sn)
    ensures Reading(m, p) && SameBounds(p, s)
  {
    p := Pulled(m, s, r, c);
    PulledIsReading(m, s, r, c, cs, sn);
    PulledIsMirrored(m, s, r, c);
    PulledRotates(m, s, r, c, cs, sn);
    forall bound: real ensures BoundedBelow(p, bound) <==> BoundedBelow(s, bound) {
      RotationKeepsBounds(p, r, c, cs, sn, bound);
    }
  }

  // ----- The diagonal bounds the form --------------------------------------

  function UpperEntry(m: Matrix, i: nat, j: nat): real {
    if i <= j then Entry(m, i, j) else Entry(m, j, i)
  }

  /** m with its upper triangle read for both sides, as the pivot search does. */
  function UpperMirrored(m: Matrix): (w: Matrix)
    ensures |w| == |m| && Square(w) && Symmetric(w)
    ensures forall i: nat, j: nat | i < |m| && j < |m| :: Entry(w, i, j) == UpperEntry(m, i, j)
  {
    seq(|m|, i requires 0 <= i < |m| => seq(|m|, j requires 0 <= j < |m| => UpperEntry(m, i, j)))
  }

  ghost predicate OffDiagonalWithin(m: Matrix, t: real) {
    forall i: nat, j: nat | i < j < |m| :: Abs(Entry(m, i, j)) <= t
  }

  ghost predicate DiagonalAtLeast(m: Matrix, floor: real) {
    forall i: nat | i < |m| :: Entry(m, i, i) >= floor
  }

  /** With h = -t/2 and sq the squared coordinates: what the term at (i, j) is at least. */
  ghost function GershgorinTerm(floor: real, h: real, sq: nat -> real): (nat, nat) -> real {
    (i: nat, j: nat) => if i == j then floor * sq(i) else h * sq(j) + h * sq(i)
  }

  lemma GershgorinTermBelow(p: real, t: real, h: real, xi: real, xj: real)
    requires Abs(p) <= t && h == -0.5 * t
    ensures xi * (p * xj) >= h * (xj * xj) + h * (xi * xi)
  {
    SquareNonnegative(xi + xj);
    SquareNonnegative(xi - xj);
    var product, squares := xi * xj, xi * xi + xj * xj;
    assert Abs(product) <= 0.5 * squares;
    assert xi * (p * xj) == p * product;
    ScaledProduct(p, product, 2.0 * t, squares);
    DistributeSum(h, xj * xj, xi * xi, squares);
  }

  lemma GershgorinRow(n: nat, floor: real, h: real, sq: nat -> real, i: nat)
    requires i < n
    ensures RowSums(n, GershgorinTerm(floor, h, sq))(i)
            == floor * sq(i) - 2.0 * (h * sq(i)) + h * Sum(n, sq) + n as real * (h * sq(i))
  {
    var k := Constant(h * sq(i));
    SumChange(n, RowOf(GershgorinTerm(floor, h, sq), i), Blend(sq, k, h, 1.0), i);
    SumBlend(n, sq, k, h, 1.0);
    SumConstant(n, h * sq(i));
  }

  lemma GershgorinRowArithmetic(n: real, floor: real, t: real, sq: real, h: real, a: real, c: real)
    requires h == -0.5 * t && a == floor + t - 0.5 * t * n
    ensures floor * sq - 2.0 * (h * sq) + c + n * (h * sq) == a * sq + c
  {
    calc {
      a * sq;
      floor * sq + t * sq + n * ((-0.5 * t) * sq);
    }
  }

  lemma GershgorinRowBlends(n: nat, floor: real, t: real, h: real, sq: nat -> real, i: nat, a: real, c: real)
    requires i < n && h == -0.5 * t && a == floor + t - 0.5 * t * n as real && c == h * Sum(n, sq)
    ensures RowSums(n, GershgorinTerm(floor, h, sq))(i) == Blend(sq, Constant(c), a, 1.0)(i)
  {
    GershgorinRow(n, floor, h, sq, i);
    GershgorinRowArithmetic(n as real, floor, t, sq(i), h, a, c);
  }

  lemma GershgorinRows(n: nat, floor: real, t: real, h: real, sq: nat -> real, a: real, c: real)
    requires h == -0.5 * t && a == floor + t - 0.5 * t * n as real && c == h * Sum(n, sq)
    ensures Sum2(n, n, GershgorinTerm(floor, h, sq)) == Sum(n, Blend(sq, Constant(c), a, 1.0))
  {
    forall i: nat | i < n
      ensures RowSums(n, GershgorinTerm(floor, h, sq))(i) == Blend(sq, Constant(c), a, 1.0)(i)
    {
      GershgorinRowBlends(n, floor, t, h, sq, i, a, c);
    }
    SumEqual(n, RowSums(n, GershgorinTerm(floor, h, sq)), Blend(sq, Constant(c), a, 1.0));
  }

  lemma GershgorinTotal(n: nat, floor: real, t: real, h: real, sq: nat -> real, norm: real)
    requires h == -0.5 * t && norm == Sum(n, sq)
    ensures Sum2(n, n, GershgorinTerm(floor, h, sq)) == (floor - (n as real - 1.0) * t) * norm
  {
    var a, c := floor + t - 0.5 * t * n as real, h * norm;
    GershgorinRows(n, floor, t, h, sq, a, c);
    SumBlend(n, sq, Constant(c), a, 1.0);
    SumConstant(n, c);
    GershgorinArithmetic(n as real, floor, t, norm, h, a, c, Sum2(n, n, GershgorinTerm(floor, h, sq)));
  }

  lemma GershgorinArithmetic(n: real, floor: real, t: real, norm: real, h: real, a: real, c: real, total: real)
    requires h == -0.5 * t && a == floor + t - 0.5 * t * n && c == h * norm
    requires total == a * norm + 1.0 * (n * c)
    ensures total == (floor - (n - 1.0) * t) * norm
  {
    calc {
      a * norm + n * c;
      (floor + t - 0.5 * t * n) * norm + n * ((-0.5 * t) * norm);
      (floor - (n - 1.0) * t) * norm;
    }
  }

  /** A bound on the form of an n by n matrix, lowered by what entries of size t off the diagonal can take from it. */
  function Lowered(bound: real, n: nat, t: real): real {
    bound - (n as real - 1.0) * t
  }

  lemma LoweredTwice(bound: real, n: nat, s: real, t: real)
    ensures Lowered(Lowered(bound, n, s), n, t) == Lowered(bound, n, s + t)
  {
    var k := n as real - 1.0;
    assert k * (s + t) == k * s + k * t;
  }

  lemma GershgorinTermwise(m: Matrix, floor: real, t: real, h: real, x: Vector, i: nat, j: nat)
    requires Square(m) && Symmetric(m) && DiagonalAtLeast(m, floor) && OffDiagonalWithin(m, t)
    requires h == -0.5 * t && i < |m| && j < |m|
    ensures GershgorinTerm(floor, h, SquareTerm(x))(i, j) <= QuadTerm(m, x)(i, j)
  {
    if i == j {
      var sq := x(i) * x(i);
      SquareNonnegative(x(i));
      assert QuadTerm(m, x)(i, i) == Entry(m, i, i) * sq;
      assert Entry(m, i, i) * sq >= floor * sq;
    } else {
      assert Entry(m, i, j) == Entry(m, j, i);
      GershgorinTermBelow(Entry(m, i, j), t, h, x(i), x(j));
    }
  }

  lemma Gershgorin(m: Matrix, floor: real, t: real)
    requires Square(m) && Symmetric(m) && DiagonalAtLeast(m, floor) && OffDiagonalWithin(m, t)
    ensures BoundedBelow(m, Lowered(floor, |m|, t))
  {
    var n, h := |m|, -0.5 * t;
    forall x: Vector ensures Quad(m, x) >= Lowered(floor, n, t) * NormSq(n, x) {
      forall i: nat, j: nat | i < n && j < n
        ensures GershgorinTerm(floor, h, SquareTerm(x))(i, j) <= QuadTerm(m, x)(i, j)
      {
        GershgorinTermwise(m, floor, t, h, x, i, j);
      }
      Sum2Monotone(n, n, GershgorinTerm(floor, h, SquareTerm(x)), QuadTerm(m, x));
      GershgorinTotal(n, floor, t, h, SquareTerm(x), NormSq(n, x));
    }
  }

  /** The upper triangle, which the pivot search reads, is a reading; a floor on the diagonal bounds its form. */
  lemma DiagonalFloorBoundsForm(m: Matrix, floor: real, t: real)
    requires Square(m) && DiagonalAtLeast(m, floor) && OffDiagonalWithin(m, t)
    ensures Reading(m, UpperMirrored(m)) && BoundedBelow(UpperMirrored(m), Lowered(floor, |m|, t))
  {
    Gershgorin(UpperMirrored(m), floor, t);
  }

  ghost function Axis(i: nat): Vector {
    (k: nat) => if k == i then 1.0 else 0.0
  }

  /** Conversely, no diagonal entry lies below a bound on the form. */
  lemma BoundBelowDiagonal(m: Matrix, bound: real)
    requires BoundedBelow(m, bound)
    ensures DiagonalAtLeast(m, bound)
  {
    forall i: nat | i < |m| ensures Entry(m, i, i) >= bound {
      var n, x := |m|, Axis(i);
      SumChange(n, SquareTerm(x), Zero(), i);
      SumZero(n);
      var f := QuadTerm(m, x);
      forall k: nat | k < n && k != i ensures RowSums(n, f)(k) == Zero()(k) {
        SumEqual(n, RowOf(f, k), Zero());
      }
      SumChange(n, RowSums(n, f), Zero(), i);
      SumChange(n, RowOf(f, i), Zero(), i);
      assert Quad(m, x) == Entry(m, i, i) && NormSq(n, x) == 1.0;
      assert Quad(m, x) >= bound * NormSq(n, x);
    }
  }

  // ----- What asymmetry costs -------------------------------------------------

  predicate PairsWithin(m: Matrix, tolerance: real)
    requires Square(m)
  {
    forall i, j | 0 <= i < |m| && 0 <= j < |m| :: Abs(m[i][j] - m[j][i]) <= tolerance
  }

  /** Half of what a reading leaves out of each pair, with a sign. */
  function GapEntry(m: Matrix, s: Matrix, sign: real, i: nat, j: nat): real {
    sign * (0.5 * (Entry(m, i, j) + Entry(m, j, i)) - Entry(s, i, j))
  }

  function Gap(m: Matrix, s: Matrix, sign: real): (d: Matrix)
    ensures |d| == |m| && Square(d)
    ensures forall i: nat, j: nat | i < |m| && j < |m| :: Entry(d, i, j) == GapEntry(m, s, sign, i, j)
  {
    seq(|m|, i requires 0 <= i < |m| => seq(|m|, j requires 0 <= j < |m| => GapEntry(m, s, sign, i, j)))
  }

  /** The gap is symmetric, has no diagonal, and is at most half the tolerance elsewhere. */
  lemma GapIsSmall(m: Matrix, s: Matrix, sign: real, tolerance: real)
    requires Square(m) && Reading(m, s) && PairsWithin(m, tolerance) && (sign == 1.0 || sign == -1.0)
    ensures var d := Gap(m, s, sign); Symmetric(d) && DiagonalAtLeast(d, 0.0) && OffDiagonalWithin(d, 0.5 * tolerance)
  {
    var d := Gap(m, s, sign);
    forall i, j | 0 <= i < |m| && 0 <= j < |m|
      ensures d[i][j] == d[j][i] && Abs(d[i][j]) <= 0.5 * tolerance && (i == j ==> d[i][j] == 0.0)
    {
      assert d[i][j] == Entry(d, i, j) && d[j][i] == Entry(d, j, i);
      assert Abs(m[i][j] - m[j][i]) <= tolerance && Entry(m, i, j) == m[i][j] && Entry(m, j, i) == m[j][i];
    }
  }

  lemma GapTerm(p: real, q: real, e: real, sign: real, xi: real, xj: real)
    requires sign == 1.0 || sign == -1.0
    ensures sign * (0.5 * (p + q) * (xi * xj)) == sign * (xi * (e * xj)) + xi * ((sign * (0.5 * (p + q) - e)) * xj)
  {
    assert xi * ((0.5 * (p + q) - e) * xj) == 0.5 * (p + q) * (xi * xj) - xi * (e * xj);
  }

  lemma GapTermwise(m: Matrix, s: Matrix, sign: real, x: Vector)
    requires |s| == |m| && (sign == 1.0 || sign == -1.0)
    ensures forall i: nat, j: nat | i < |m| && j < |m| ::
              QuadTerm(Gap(m, s, sign), x)(i, j) == sign * SymmetrizedTerm(m, x)(i, j) + (-sign) * QuadTerm(s, x)(i, j)
  {
    forall i: nat, j: nat | i < |m| && j < |m|
      ensures QuadTerm(Gap(m, s, sign), x)(i, j) == sign * SymmetrizedTerm(m, x)(i, j) + (-sign) * QuadTerm(s, x)(i, j)
    {
      GapTerm(Entry(m, i, j), Entry(m, j, i), Entry(s, i, j), sign, x(i), x(j));
    }
  }

  /** The form of m is that of its reading plus that of the gap. */
  lemma FormOfGap(m: Matrix, s: Matrix, sign: real, x: Vector)
    requires |s| == |m| && (sign == 1.0 || sign == -1.0)
    ensures Quad(Gap(m, s, sign), x) == sign * (Quad(m, x) - Quad(s, x))
  {
    var n := |m|;
    GapTermwise(m, s, sign, x);
    QuadSymmetrized(m, x);
    Sum2Combine(n, n, SymmetrizedTerm(m, x), QuadTerm(s, x), QuadTerm(Gap(m, s, sign), x), sign, -sign);
    SignedDifference(sign, Quad(m, x), Quad(s, x));
  }

  lemma SignedDifference(sign: real, p: real, q: real)
    ensures sign * p + (-sign) * q == sign * (p - q)
  {
  }

  /** A matrix and its readings bound each other's forms up to (n - 1) / 2 times the asymmetry of the pairs. */
  lemma ReadingCost(m: Matrix, s: Matrix, tolerance: real, bound: real)
    requires Square(m) && Reading(m, s) && PairsWithin(m, tolerance)
    ensures BoundedBelow(s, bound) ==> BoundedBelow(m, Lowered(bound, |m|, 0.5 * tolerance))
    ensures BoundedBelow(m, bound) ==> BoundedBelow(s, Lowered(bound, |m|, 0.5 * tolerance))
  {
    OneWayCost(m, s, m, s, 1.0, tolerance, bound);
    OneWayCost(m, s, s, m, -1.0, tolerance, bound);
  }

  lemma OneWayCost(m: Matrix, s: Matrix, to: Matrix, from: Matrix, sign: real, tolerance: real, bound: real)
    requires Square(m) && Reading(m, s) && PairsWithin(m, tolerance)
    requires (sign == 1.0 && to == m && from == s) || (sign == -1.0 && to == s && from == m)
    ensures BoundedBelow(from, bound) ==> BoundedBelow(to, Lowered(bound, |m|, 0.5 * tolerance))
  {
    var cost := (|m| as real - 1.0) * (0.5 * tolerance);
    GapIsBoundedBelow(m, s, sign, tolerance, cost);
    if BoundedBelow(from, bound) {
      forall x: Vector ensures Quad(to, x) >= Lowered(bound, |m|, 0.5 * tolerance) * NormSq(|to|, x) {
        CostAt(m, s, sign, x, Quad(from, x), Quad(to, x), bound, cost, NormSq(|m|, x));
      }
    }
  }

  lemma GapIsBoundedBelow(m: Matrix, s: Matrix, sign: real, tolerance: real, cost: real)
    requires Square(m) && Reading(m, s) && PairsWithin(m, tolerance) && (sign == 1.0 || sign == -1.0)
    requires cost == (|m| as real - 1.0) * (0.5 * tolerance)
    ensures BoundedBelow(Gap(m, s, sign), 0.0 - cost)
  {
    assert 0.0 - cost == Lowered(0.0, |m|, 0.5 * tolerance);
    GapIsSmall(m, s, sign, tolerance);
    Gershgorin(Gap(m, s, sign), 0.0, 0.5 * tolerance);
  }

  lemma CostAt(m: Matrix, s: Matrix, sign: real, x: Vector, from: real, to: real, bound: real, cost: real, n: real)
    requires |s| == |m| && n == NormSq(|m|, x) && BoundedBelow(Gap(m, s, sign), 0.0 - cost) && from >= bound * n
    requires (sign == 1.0 && to == Quad(m, x) && from == Quad(s, x)) ||
              (sign == -1.0 && to == Quad(s, x) && from == Quad(m, x))
    ensures to >= (bound - cost) * n
  {
    FormOfGap(m, s, sign, x);
    var gap := Quad(Gap(m, s, sign), x);
    assert gap >= (0.0 - cost) * n && gap == to - from;
    SplitBound(bound, cost, n);
  }

  lemma SplitBound(bound: real, cost: real, n: real)
    ensures (bound - cost) * n == bound * n + (0.0 - cost) * n
  {
  }
}
