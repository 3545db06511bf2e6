/**
 Square real matrices, their quadratic form, and what one Jacobi rotation does to it.
 A covariance is judged by the form x'Mx, never by the matrix entries themselves.
 */
module QuadraticForm {
  import opened Basics
  import opened Sums

  type Matrix = seq<seq<real>>
  type Vector = nat -> real

  predicate Square(m: Matrix) {
    forall i | 0 <= i < |m| :: |m[i]| == |m|
  }

  predicate Symmetric(m: Matrix)
    requires Square(m)
  {
    forall i, j | 0 <= i < |m| && 0 <= j < |m| :: m[i][j] == m[j][i]
  }

  function Entry(m: Matrix, i: nat, j: nat): real {
    if i < |m| && j < |m[i]| then m[i][j] else 0.0
  }

  ghost function RowTerm(m: Matrix, x: Vector, i: nat): nat -> real {
    (j: nat) => Entry(m, i, j) * x(j)
  }

  /** The i-th coordinate of the product of m and x. */
  ghost function RowForm(m: Matrix, x: Vector, i: nat): real {
    Sum(|m|, RowTerm(m, x, i))
  }

  ghost function QuadTerm(m: Matrix, x: Vector): (nat, nat) -> real {
    (i: nat, j: nat) => x(i) * (Entry(m, i, j) * x(j))
  }

  /** x'Mx */
  ghost function Quad(m: Matrix, x: Vector): real {
    Sum2(|m|, |m|, QuadTerm(m, x))
  }

  ghost function SquareTerm(x: Vector): nat -> real {
    (i: nat) => x(i) * x(i)
  }

  ghost function NormSq(n: nat, x: Vector): real {
    Sum(n, SquareTerm(x))
  }

  /** Every Rayleigh quotient of m is at least bound. */
  ghost predicate BoundedBelow(m: Matrix, bound: real) {
    forall x: Vector :: Quad(m, x) >= bound * NormSq(|m|, x)
  }

  ghost predicate PositiveDefinite(m: Matrix) {
    forall x: Vector :: NormSq(|m|, x) > 0.0 ==> Quad(m, x) > 0.0
  }

  ghost function RowFormWeighted(m: Matrix, x: Vector): nat -> real {
    (i: nat) => x(i) * RowForm(m, x, i)
  }

  lemma QuadByRows(m: Matrix, x: Vector)
    ensures Quad(m, x) == Sum(|m|, RowFormWeighted(m, x))
  {
    forall i: nat | i < |m| ensures RowSums(|m|, QuadTerm(m, x))(i) == RowFormWeighted(m, x)(i) {
      SumCombine(|m|, RowTerm(m, x, i), Zero(), RowOf(QuadTerm(m, x), i), x(i), 0.0);
    }
    SumEqual(|m|, RowSums(|m|, QuadTerm(m, x)), RowFormWeighted(m, x));
  }

  // ----- One rotation -----------------------------------------------------

  /** Row r and row c of m, replaced by column r and column c as the update reads them. */
  function MirroredEntry(m: Matrix, r: nat, c: nat, i: nat, j: nat): real {
    if i == c && j == r then Entry(m, r, c)
    else if (i == r || i == c) && j != r && j != c then Entry(m, j, i)
    else Entry(m, i, j)
  }

  function Mirrored(m: Matrix, r: nat, c: nat): (w: Matrix)
    ensures |w| == |m| && Square(w)
    ensures forall i: nat, j: nat | i < |m| && j < |m| :: Entry(w, i, j) == MirroredEntry(m, r, c, i, j)
  {
    seq(|m|, i requires 0 <= i < |m| => seq(|m|, j requires 0 <= j < |m| => MirroredEntry(m, r, c, i, j)))
  }

  /** The entry the update leaves at (i, j) for pivot (r, c) and rotation (cs, sn). */
  function RotatedEntry(m: Matrix, r: nat, c: nat, cs: real, sn: real, i: nat, j: nat): real {
    var arr, acc, arc := Entry(m, r, r), Entry(m, c, c), Entry(m, r, c);
    if i == r && j == r then cs * cs * arr - 2.0 * sn * cs * arc + sn * sn * acc
    else if i == c && j == c then sn * sn * arr + 2.0 * sn * cs * arc + cs * cs * acc
    else if (i == r && j == c) || (i == c && j == r) then 0.0
    else if j == r then cs * Entry(m, i, r) - sn * Entry(m, i, c)
    else if i == r then cs * Entry(m, j, r) - sn * Entry(m, j, c)
    else if j == c then sn * Entry(m, i, r) + cs * Entry(m, i, c)
    else if i == c then sn * Entry(m, j, r) + cs * Entry(m, j, c)
    else Entry(m, i, j)
  }

  function Rotated(m: Matrix, r: nat, c: nat, cs: real, sn: real): (w: Matrix)
    ensures |w| == |m| && Square(w)
    ensures forall i: nat, j: nat | i < |m| && j < |m| :: Entry(w, i, j) == RotatedEntry(m, r, c, cs, sn, i, j)
  {
    seq(|m|, i requires 0 <= i < |m| => seq(|m|, j requires 0 <= j < |m| => RotatedEntry(m, r, c, cs, sn, i, j)))
  }

  /** The angle solves tan(2 angle) = 2 arc / (acc - arr): the rotated pivot vanishes. */
  predicate Annihilates(arr: real, acc: real, arc: real, cs: real, sn: real) {
    cs * cs + sn * sn == 1.0 && sn * cs * (acc - arr) == arc * (cs * cs - sn * sn)
  }

  ghost predicate SameOffPivot(n: nat, f: nat -> real, g: nat -> real, r: nat, c: nat) {
    forall k: nat | k < n && k != r && k != c :: f(k) == g(k)
  }

  /** Coordinates of x in the rotated basis. */
  lemma TurnForward(n: nat, x: Vector, r: nat, c: nat, cs: real, sn: real) returns (y: Vector)
    requires r < c < n && cs * cs + sn * sn == 1.0
    ensures SameOffPivot(n, y, x, r, c)
    ensures x(r) == cs * y(r) + sn * y(c) && x(c) == cs * y(c) - sn * y(r)
  {
    y := (k: nat) => if k == r then cs * x(r) - sn * x(c) else if k == c then sn * x(r) + cs * x(c) else x(k);
    TurnBack(x(r), x(c), y(r), y(c), cs, sn);
  }

  lemma TurnBackward(n: nat, y: Vector, r: nat, c: nat, cs: real, sn: real) returns (x: Vector)
    requires r < c < n
    ensures SameOffPivot(n, y, x, r, c)
    ensures x(r) == cs * y(r) + sn * y(c) && x(c) == cs * y(c) - sn * y(r)
  {
    x := (k: nat) => if k == r then cs * y(r) + sn * y(c) else if k == c then cs * y(c) - sn * y(r) else y(k);
  }

  lemma TurnBack(xr: real, xc: real, yr: real, yc: real, cs: real, sn: real)
    requires cs * cs + sn * sn == 1.0
    requires yr == cs * xr - sn * xc && yc == sn * xr + cs * xc
    ensures xr == cs * yr + sn * yc && xc == cs * yc - sn * yr
  {
    calc {
      cs * yr + sn * yc;
      cs * (cs * xr - sn * xc) + sn * (sn * xr + cs * xc);
      (cs * cs + sn * sn) * xr;
      xr;
    }
    calc {
      cs * yc - sn * yr;
      cs * (sn * xr + cs * xc) - sn * (cs * xr - sn * xc);
      (cs * cs + sn * sn) * xc;
      xc;
    }
  }

  lemma TurnKeepsSquares(xr: real, xc: real, yr: real, yc: real, cs: real, sn: real)
    requires cs * cs + sn * sn == 1.0
    requires xr == cs * yr + sn * yc && xc == cs * yc - sn * yr
    ensures yr * yr + yc * yc == xr * xr + xc * xc
  {
    calc {
      xr * xr + xc * xc;
      (cs * yr + sn * yc) * (cs * yr + sn * yc) + (cs * yc - sn * yr) * (cs * yc - sn * yr);
      (cs * cs + sn * sn) * (yr * yr + yc * yc);
      yr * yr + yc * yc;
    }
  }

  lemma NormKept(n: nat, x: Vector, y: Vector, r: nat, c: nat, cs: real, sn: real)
    requires r < c < n && cs * cs + sn * sn == 1.0 && SameOffPivot(n, y, x, r, c)
    requires x(r) == cs * y(r) + sn * y(c) && x(c) == cs * y(c) - sn * y(r)
    ensures NormSq(n, y) == NormSq(n, x)
  {
    TurnKeepsSquares(x(r), x(c), y(r), y(c), cs, sn);
    NormFromPivot(n, x, y, r, c);
  }

  lemma NormFromPivot(n: nat, x: Vector, y: Vector, r: nat, c: nat)
    requires r < c < n && SameOffPivot(n, y, x, r, c)
    requires y(r) * y(r) + y(c) * y(c) == x(r) * x(r) + x(c) * x(c)
    ensures NormSq(n, y) == NormSq(n, x)
  {
    SumExchange(n, SquareTerm(y), SquareTerm(x), r, c);
  }

  /** A row off the pivot: its two changed terms still have the same total. */
  lemma OtherRowTerms(m: Matrix, x: Vector, y: Vector, r: nat, c: nat, cs: real, sn: real, i: nat)
    requires r < c < |m| && i < |m| && i != r && i != c && SameOffPivot(|m|, y, x, r, c)
    ensures var f, g := RowTerm(Rotated(m, r, c, cs, sn), y, i), RowTerm(Mirrored(m, r, c), x, i);
            var p, q := Entry(m, i, r), Entry(m, i, c);
            && SameOffPivot(|m|, f, g, r, c)
            && f(r) == (cs * p - sn * q) * y(r) && f(c) == (sn * p + cs * q) * y(c)
            && g(r) == p * x(r) && g(c) == q * x(c)
  {
  }

  lemma OtherRowKept(m: Matrix, x: Vector, y: Vector, r: nat, c: nat, cs: real, sn: real, i: nat)
    requires r < c < |m| && i < |m| && i != r && i != c && SameOffPivot(|m|, y, x, r, c)
    requires x(r) == cs * y(r) + sn * y(c) && x(c) == cs * y(c) - sn * y(r)
    ensures RowForm(Rotated(m, r, c, cs, sn), y, i) == RowForm(Mirrored(m, r, c), x, i)
  {
    var f, g := RowTerm(Rotated(m, r, c, cs, sn), y, i), RowTerm(Mirrored(m, r, c), x, i);
    assert f(r) + f(c) == g(r) + g(c) && SameOffPivot(|m|, f, g, r, c) by {
      OtherRowTerms(m, x, y, r, c, cs, sn, i);
      PairDot(Entry(m, i, r), Entry(m, i, c), x(r), x(c), y(r), y(c), cs, sn, f(r), f(c));
    }
    SumExchange(|m|, f, g, r, c);
  }

  /** Turning both factors of a two-term product keeps it. */
  lemma PairDot(p: real, q: real, xr: real, xc: real, yr: real, yc: real, cs: real, sn: real, first: real, second: real)
    requires xr == cs * yr + sn * yc && xc == cs * yc - sn * yr
    requires first == (cs * p - sn * q) * yr && second == (sn * p + cs * q) * yc
    ensures first + second == p * xr + q * xc
  {
    calc {
      (cs * p - sn * q) * yr + (sn * p + cs * q) * yc;
      p * (cs * yr + sn * yc) + q * (cs * yc - sn * yr);
      p * xr + q * xc;
    }
  }

  /** The 2 by 2 pivot block: this is where the angle matters. */
  lemma PivotBlockRow(arr: real, acc: real, arc: real, cs: real, sn: real, xr: real, xc: real, yr: real, yc: real,
                      p: real, q: real, total: real)
    requires Annihilates(arr, acc, arc, cs, sn)
    requires xr == cs * yr + sn * yc && xc == cs * yc - sn * yr
    requires p == arr * xr + arc * xc && q == arc * xr + acc * xc
    requires total == (cs * cs * arr - 2.0 * sn * cs * arc + sn * sn * acc) * yr
    ensures total == cs * p - sn * q
  {
    var off := sn * cs * (arr - acc) + arc * (cs * cs - sn * sn);
    assert off == 0.0 by {
      assert sn * cs * (arr - acc) == -(sn * cs * (acc - arr));
    }
    calc {
      cs * p - sn * q;
      cs * (arr * (cs * yr + sn * yc) + arc * (cs * yc - sn * yr)) -
          sn * (arc * (cs * yr + sn * yc) + acc * (cs * yc - sn * yr));
      (cs * cs * arr - 2.0 * sn * cs * arc + sn * sn * acc) * yr + off * yc;
    }
  }

  lemma PivotBlockColumn(arr: real, acc: real, arc: real, cs: real, sn: real, xr: real, xc: real, yr: real, yc: real,
                         p: real, q: real, total: real)
    requires Annihilates(arr, acc, arc, cs, sn)
    requires xr == cs * yr + sn * yc && xc == cs * yc - sn * yr
    requires p == arr * xr + arc * xc && q == arc * xr + acc * xc
    requires total == (sn * sn * arr + 2.0 * sn * cs * arc + cs * cs * acc) * yc
    ensures total == sn * p + cs * q
  {
    var off := sn * cs * (arr - acc) + arc * (cs * cs - sn * sn);
    assert off == 0.0 by {
      assert sn * cs * (arr - acc) == -(sn * cs * (acc - arr));
    }
    calc {
      sn * p + cs * q;
      sn * (arr * (cs * yr + sn * yc) + arc * (cs * yc - sn * yr)) +
          cs * (arc * (cs * yr + sn * yc) + acc * (cs * yc - sn * yr));
      (sn * sn * arr + 2.0 * sn * cs * arc + cs * cs * acc) * yc + off * yr;
    }
  }

  ghost function PivotTotal(m: Matrix, x: Vector, i: nat, r: nat, c: nat): real {
    RowTerm(m, x, i)(r) + RowTerm(m, x, i)(c)
  }

  lemma PivotTotals(m: Matrix, x: Vector, y: Vector, r: nat, c: nat, cs: real, sn: real)
    requires r < c < |m|
    ensures var arr, acc, arc := Entry(m, r, r), Entry(m, c, c), Entry(m, r, c);
            var w, v := Mirrored(m, r, c), Rotated(m, r, c, cs, sn);
            && PivotTotal(w, x, r, r, c) == arr * x(r) + arc * x(c)
            && PivotTotal(w, x, c, r, c) == arc * x(r) + acc * x(c)
            && PivotTotal(v, y, r, r, c) == (cs * cs * arr - 2.0 * sn * cs * arc + sn * sn * acc) * y(r)
            && PivotTotal(v, y, c, r, c) == (sn * sn * arr + 2.0 * sn * cs * arc + cs * cs * acc) * y(c)
  {
  }

  lemma PivotRowTotal(m: Matrix, x: Vector, y: Vector, r: nat, c: nat, cs: real, sn: real, p: real, q: real)
    requires r < c < |m|
    requires Annihilates(Entry(m, r, r), Entry(m, c, c), Entry(m, r, c), cs, sn)
    requires x(r) == cs * y(r) + sn * y(c) && x(c) == cs * y(c) - sn * y(r)
    requires p == PivotTotal(Mirrored(m, r, c), x, r, r, c) && q == PivotTotal(Mirrored(m, r, c), x, c, r, c)
    ensures PivotTotal(Rotated(m, r, c, cs, sn), y, r, r, c) == cs * p - sn * q
  {
    PivotTotals(m, x, y, r, c, cs, sn);
    PivotBlockRow(Entry(m, r, r), Entry(m, c, c), Entry(m, r, c), cs, sn, x(r), x(c), y(r), y(c),
                  p, q, PivotTotal(Rotated(m, r, c, cs, sn), y, r, r, c));
  }

  lemma PivotColumnTotal(m: Matrix, x: Vector, y: Vector, r: nat, c: nat, cs: real, sn: real, p: real, q: real)
    requires r < c < |m|
    requires Annihilates(Entry(m, r, r), Entry(m, c, c), Entry(m, r, c), cs, sn)
    requires x(r) == cs * y(r) + sn * y(c) && x(c) == cs * y(c) - sn * y(r)
    requires p == PivotTotal(Mirrored(m, r, c), x, r, r, c) && q == PivotTotal(Mirrored(m, r, c), x, c, r, c)
    ensures PivotTotal(Rotated(m, r, c, cs, sn), y, c, r, c) == sn * p + cs * q
  {
    PivotTotals(m, x, y, r, c, cs, sn);
    PivotBlockColumn(Entry(m, r, r), Entry(m, c, c), Entry(m, r, c), cs, sn, x(r), x(c), y(r), y(c),
                     p, q, PivotTotal(Rotated(m, r, c, cs, sn), y, c, r, c));
  }

  /** Off the pivot columns, the pivot rows of the new matrix blend the old ones. */
  lemma PivotRowsBlend(m: Matrix, x: Vector, y: Vector, r: nat, c: nat, cs: real, sn: real)
    requires r < c < |m| && SameOffPivot(|m|, y, x, r, c)
    ensures var w, v := Mirrored(m, r, c), Rotated(m, r, c, cs, sn);
            && SameOffPivot(|m|, RowTerm(v, y, r), Blend(RowTerm(w, x, r), RowTerm(w, x, c), cs, -sn), r, c)
            && SameOffPivot(|m|, RowTerm(v, y, c), Blend(RowTerm(w, x, r), RowTerm(w, x, c), sn, cs), r, c)
  {
    var w, v := Mirrored(m, r, c), Rotated(m, r, c, cs, sn);
    forall k: nat | k < |m| && k != r && k != c
      ensures RowTerm(v, y, r)(k) == Blend(RowTerm(w, x, r), RowTerm(w, x, c), cs, -sn)(k)
      ensures RowTerm(v, y, c)(k) == Blend(RowTerm(w, x, r), RowTerm(w, x, c), sn, cs)(k)
    {
      DistributeTwice(cs, -sn, Entry(m, k, r), Entry(m, k, c), x(k));
      DistributeTwice(sn, cs, Entry(m, k, r), Entry(m, k, c), x(k));
    }
  }

  /** The pivot coordinates of the product turn like the vector does. */
  lemma PivotRowsMix(m: Matrix, x: Vector, y: Vector, r: nat, c: nat, cs: real, sn: real)
    requires r < c < |m| && SameOffPivot(|m|, y, x, r, c)
    requires Annihilates(Entry(m, r, r), Entry(m, c, c), Entry(m, r, c), cs, sn)
    requires x(r) == cs * y(r) + sn * y(c) && x(c) == cs * y(c) - sn * y(r)
    ensures var w, v := Mirrored(m, r, c), Rotated(m, r, c, cs, sn);
            && RowForm(v, y, r) == cs * RowForm(w, x, r) - sn * RowForm(w, x, c)
            && RowForm(v, y, c) == sn * RowForm(w, x, r) + cs * RowForm(w, x, c)
  {
    var w, v := Mirrored(m, r, c), Rotated(m, r, c, cs, sn);
    PivotRowsBlend(m, x, y, r, c, cs, sn);
    var p, q := PivotTotal(w, x, r, r, c), PivotTotal(w, x, c, r, c);
    PivotRowTotal(m, x, y, r, c, cs, sn, p, q);
    PivotColumnTotal(m, x, y, r, c, cs, sn, p, q);
    MixedRow(w, x, RowTerm(v, y, r), cs, -sn, r, c, p, q);
    MixedRow(w, x, RowTerm(v, y, c), sn, cs, r, c, p, q);
  }

  lemma DistributeTwice(a: real, b: real, p: real, q: real, x: real)
    ensures (a * p + b * q) * x == a * (p * x) + b * (q * x)
  {
  }

  lemma BlendAtPivot(f: nat -> real, g: nat -> real, a: real, b: real, r: nat, c: nat, p: real, q: real)
    requires p == f(r) + f(c) && q == g(r) + g(c)
    ensures Blend(f, g, a, b)(r) + Blend(f, g, a, b)(c) == a * p + b * q
  {
    DistributeSum(a, f(r), f(c), p);
    DistributeSum(b, g(r), g(c), q);
  }

  lemma MixedRow(w: Matrix, x: Vector, f: nat -> real, a: real, b: real, r: nat, c: nat, p: real, q: real)
    requires r < c < |w| && p == PivotTotal(w, x, r, r, c) && q == PivotTotal(w, x, c, r, c)
    requires SameOffPivot(|w|, f, Blend(RowTerm(w, x, r), RowTerm(w, x, c), a, b), r, c)
    requires f(r) + f(c) == a * p + b * q
    ensures Sum(|w|, f) == a * RowForm(w, x, r) + b * RowForm(w, x, c)
  {
    var fr, fc := RowTerm(w, x, r), RowTerm(w, x, c);
    var h := Blend(fr, fc, a, b);
    BlendAtPivot(fr, fc, a, b, r, c, p, q);
    SumBlend(|w|, fr, fc, a, b);
    SumExchange(|w|, f, h, r, c);
  }

  /** One rotation: the form of the new matrix at y is the form of the mirrored old one at x. */
  lemma RotationKeepsForm(m: Matrix, x: Vector, y: Vector, r: nat, c: nat, cs: real, sn: real)
    requires r < c < |m| && SameOffPivot(|m|, y, x, r, c)
    requires Annihilates(Entry(m, r, r), Entry(m, c, c), Entry(m, r, c), cs, sn)
    requires x(r) == cs * y(r) + sn * y(c) && x(c) == cs * y(c) - sn * y(r)
    ensures Quad(Rotated(m, r, c, cs, sn), y) == Quad(Mirrored(m, r, c), x)
  {
    var w, v := Mirrored(m, r, c), Rotated(m, r, c, cs, sn);
    var f, g := RowFormWeighted(v, y), RowFormWeighted(w, x);
    QuadByRows(w, x);
    QuadByRows(v, y);
    forall i: nat | i < |m| && i != r && i != c ensures f(i) == g(i) {
      OtherRowKept(m, x, y, r, c, cs, sn, i);
    }
    WeightedPivotRows(m, x, y, r, c, cs, sn);
    SumExchange(|m|, f, g, r, c);
  }

  lemma WeightedPivotRows(m: Matrix, x: Vector, y: Vector, r: nat, c: nat, cs: real, sn: real)
    requires r < c < |m| && SameOffPivot(|m|, y, x, r, c)
    requires Annihilates(Entry(m, r, r), Entry(m, c, c), Entry(m, r, c), cs, sn)
    requires x(r) == cs * y(r) + sn * y(c) && x(c) == cs * y(c) - sn * y(r)
    ensures var f, g := RowFormWeighted(Rotated(m, r, c, cs, sn), y), RowFormWeighted(Mirrored(m, r, c), x);
            f(r) + f(c) == g(r) + g(c)
  {
    var w, v := Mirrored(m, r, c), Rotated(m, r, c, cs, sn);
    PivotRowsMix(m, x, y, r, c, cs, sn);
    WeightedRows(RowForm(w, x, r), RowForm(w, x, c), RowForm(v, y, r), RowForm(v, y, c),
                 x(r), x(c), y(r), y(c), cs, sn);
  }

  lemma WeightedRows(p: real, q: real, pr: real, qr: real, xr: real, xc: real, yr: real, yc: real, cs: real, sn: real)
    requires xr == cs * yr + sn * yc && xc == cs * yc - sn * yr
    requires pr == cs * p - sn * q && qr == sn * p + cs * q
    ensures yr * pr + yc * qr == xr * p + xc * q
  {
    PairDot(p, q, xr, xc, yr, yc, cs, sn, yr * pr, yc * qr);
  }

  /** A lower bound on the form survives the rotation, in both directions. */
  lemma RotationKeepsBounds(m: Matrix, r: nat, c: nat, cs: real, sn: real, bound: real)
    requires r < c < |m|
    requires Annihilates(Entry(m, r, r), Entry(m, c, c), Entry(m, r, c), cs, sn)
    ensures BoundedBelow(Rotated(m, r, c, cs, sn), bound) <==> BoundedBelow(Mirrored(m, r, c), bound)
  {
    if BoundedBelow(Rotated(m, r, c, cs, sn), bound) {
      forall x: Vector ensures Quad(Mirrored(m, r, c), x) >= bound * NormSq(|m|, x) {
        BoundAtRotated(m, r, c, cs, sn, bound, x);
      }
    }
    if BoundedBelow(Mirrored(m, r, c), bound) {
      forall y: Vector ensures Quad(Rotated(m, r, c, cs, sn), y) >= bound * NormSq(|m|, y) {
        BoundAtMirrored(m, r, c, cs, sn, bound, y);
      }
    }
  }

  lemma BoundAtRotated(m: Matrix, r: nat, c: nat, cs: real, sn: real, bound: real, x: Vector)
    requires r < c < |m| && BoundedBelow(Rotated(m, r, c, cs, sn), bound)
    requires Annihilates(Entry(m, r, r), Entry(m, c, c), Entry(m, r, c), cs, sn)
    ensures Quad(Mirrored(m, r, c), x) >= bound * NormSq(|m|, x)
  {
    var y := TurnForward(|m|, x, r, c, cs, sn);
    FormAndNormKept(m, x, y, r, c, cs, sn);
    assert Quad(Rotated(m, r, c, cs, sn), y) >= bound * NormSq(|m|, y);
  }

  lemma BoundAtMirrored(m: Matrix, r: nat, c: nat, cs: real, sn: real, bound: real, y: Vector)
    requires r < c < |m| && BoundedBelow(Mirrored(m, r, c), bound)
    requires Annihilates(Entry(m, r, r), Entry(m, c, c), Entry(m, r, c), cs, sn)
    ensures Quad(Rotated(m, r, c, cs, sn), y) >= bound * NormSq(|m|, y)
  {
    var x := TurnBackward(|m|, y, r, c, cs, sn);
    FormAndNormKept(m, x, y, r, c, cs, sn);
    assert Quad(Mirrored(m, r, c), x) >= bound * NormSq(|m|, x);
  }

  lemma FormAndNormKept(m: Matrix, x: Vector, y: Vector, r: nat, c: nat, cs: real, sn: real)
    requires r < c < |m| && SameOffPivot(|m|, y, x, r, c)
    requires Annihilates(Entry(m, r, r), Entry(m, c, c), Entry(m, r, c), cs, sn)
    requires x(r) == cs * y(r) + sn * y(c) && x(c) == cs * y(c) - sn * y(r)
    ensures Quad(Rotated(m, r, c, cs, sn), y) == Quad(Mirrored(m, r, c), x)
    ensures NormSq(|m|, y) == NormSq(|m|, x)
  {
    RotationKeepsForm(m, x, y, r, c, cs, sn);
    NormKept(|m|, x, y, r, c, cs, sn);
  }
}
