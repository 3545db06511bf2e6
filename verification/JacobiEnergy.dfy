/** What every Jacobi rotation conserves, and the off-diagonal energy it removes. */
module JacobiEnergy {
  import opened Basics
  import opened Sums
  import opened QuadraticForm

  ghost function OffTerm(m: Matrix): (nat, nat) -> real {
    (i: nat, j: nat) => if i == j then 0.0 else Entry(m, i, j) * Entry(m, i, j)
  }

  /** Sum of the squares of all off-diagonal entries. */
  ghost function OffEnergy(m: Matrix): real {
    Sum2(|m|, |m|, OffTerm(m))
  }

  ghost function DiagonalTerm(m: Matrix): nat -> real {
    (i: nat) => Entry(m, i, i)
  }

  ghost function DiagonalSquare(m: Matrix): nat -> real {
    (i: nat) => Entry(m, i, i) * Entry(m, i, i)
  }

  ghost function Trace(m: Matrix): real {
    Sum(|m|, DiagonalTerm(m))
  }

  /** Sum of the squares of all entries. */
  ghost function Energy(m: Matrix): real {
    OffEnergy(m) + Sum(|m|, DiagonalSquare(m))
  }

  ghost function Power(base: real, k: nat): real {
    if k == 0 then 1.0 else base * Power(base, k - 1)
  }

  /** What is left of an energy after k steps that each keep at most the share rho of it. */
  ghost function Decayed(rho: real, k: nat, start: real): real {
    if k == 0 then start else rho * Decayed(rho, k - 1, start)
  }

  lemma {:induction false} DecayIsPower(rho: real, k: nat, start: real)
    ensures Decayed(rho, k, start) == Power(rho, k) * start
  {
    if k > 0 {
      DecayIsPower(rho, k - 1, start);
      assert rho * (Power(rho, k - 1) * start) == (rho * Power(rho, k - 1)) * start;
    }
  }

  lemma {:induction false} PowerOfSum(base: real, j: nat, k: nat)
    ensures Power(base, j + k) == Power(base, j) * Power(base, k)
  {
    if j > 0 {
      PowerOfSum(base, j - 1, k);
      assert base * (Power(base, j - 1) * Power(base, k)) == (base * Power(base, j - 1)) * Power(base, k);
    }
  }

  lemma ShareOf(whole: real, a: real, b: real)
    requires 0.0 <= a && 0.0 <= b <= 1.0 && whole == a * b
    ensures 0.0 <= whole <= a
  {
  }

  lemma {:induction false} PowerWithinOne(base: real, k: nat)
    requires 0.0 <= base <= 1.0
    ensures 0.0 <= Power(base, k) <= 1.0
  {
    if k > 0 {
      PowerWithinOne(base, k - 1);
      ShareOf(Power(base, k), base, Power(base, k - 1));
    }
  }

  lemma PowerSquares(base: real, k: nat, most: real)
    requires 0.0 <= Power(base, k) <= most
    ensures 0.0 <= Power(base, 2 * k) <= most * most
  {
    PowerOfSum(base, k, k);
    SquareGrows(Power(base, k), most);
  }

  // ----- Conservation -------------------------------------------------------

  lemma TurnedSquares(p: real, q: real, cs: real, sn: real, first: real, second: real)
    requires cs * cs + sn * sn == 1.0
    requires first == cs * p - sn * q && second == sn * p + cs * q
    ensures first * first + second * second == p * p + q * q
  {
    calc {
      (cs * p - sn * q) * (cs * p - sn * q) + (sn * p + cs * q) * (sn * p + cs * q);
      (cs * cs + sn * sn) * (p * p + q * q);
      p * p + q * q;
    }
  }

  lemma OtherRowEnergy(m: Matrix, r: nat, c: nat, cs: real, sn: real, i: nat)
    requires r < c < |m| && i < |m| && i != r && i != c && cs * cs + sn * sn == 1.0
    ensures RowSums(|m|, OffTerm(Rotated(m, r, c, cs, sn)))(i) == RowSums(|m|, OffTerm(m))(i)
  {
    var v := Rotated(m, r, c, cs, sn);
    TurnedSquares(Entry(m, i, r), Entry(m, i, c), cs, sn, Entry(v, i, r), Entry(v, i, c));
    SumExchange(|m|, RowOf(OffTerm(v), i), RowOf(OffTerm(m), i), r, c);
  }

  ghost function PivotRowsTerm(m: Matrix, r: nat, c: nat): nat -> real {
    Blend(RowOf(OffTerm(m), r), RowOf(OffTerm(m), c), 1.0, 1.0)
  }

  lemma PivotRowsOffPivot(m: Matrix, r: nat, c: nat, cs: real, sn: real)
    requires Square(m) && Symmetric(m) && r < c < |m| && cs * cs + sn * sn == 1.0
    ensures SameOffPivot(|m|, PivotRowsTerm(Rotated(m, r, c, cs, sn), r, c), PivotRowsTerm(m, r, c), r, c)
  {
    var v := Rotated(m, r, c, cs, sn);
    forall k: nat | k < |m| && k != r && k != c
      ensures PivotRowsTerm(v, r, c)(k) == PivotRowsTerm(m, r, c)(k)
    {
      assert Entry(m, r, k) == Entry(m, k, r) && Entry(m, c, k) == Entry(m, k, c);
      TurnedSquares(Entry(m, k, r), Entry(m, k, c), cs, sn, Entry(v, r, k), Entry(v, c, k));
    }
  }

  /** The two pivot rows lose the pivot, twice. */
  lemma PivotRowsEnergy(m: Matrix, r: nat, c: nat, cs: real, sn: real)
    requires Square(m) && Symmetric(m) && r < c < |m| && cs * cs + sn * sn == 1.0
    ensures var f, g := RowSums(|m|, OffTerm(Rotated(m, r, c, cs, sn))), RowSums(|m|, OffTerm(m));
            f(r) + f(c) == g(r) + g(c) - 2.0 * (Entry(m, r, c) * Entry(m, r, c))
  {
    var n, v := |m|, Rotated(m, r, c, cs, sn);
    var f, g := PivotRowsTerm(v, r, c), PivotRowsTerm(m, r, c);
    PivotRowsOffPivot(m, r, c, cs, sn);
    assert Entry(m, c, r) == Entry(m, r, c);
    assert f(r) + f(c) - g(r) - g(c) == -2.0 * (Entry(m, r, c) * Entry(m, r, c));
    SumExchange(n, f, g, r, c);
    SumBlend(n, RowOf(OffTerm(v), r), RowOf(OffTerm(v), c), 1.0, 1.0);
    SumBlend(n, RowOf(OffTerm(m), r), RowOf(OffTerm(m), c), 1.0, 1.0);
  }

  /** A rotation removes exactly twice the squared pivot from the off-diagonal energy. */
  lemma OffEnergyDrops(m: Matrix, r: nat, c: nat, cs: real, sn: real)
    requires Square(m) && Symmetric(m) && r < c < |m| && cs * cs + sn * sn == 1.0
    ensures OffEnergy(Rotated(m, r, c, cs, sn)) == OffEnergy(m) - 2.0 * (Entry(m, r, c) * Entry(m, r, c))
  {
    var n, f, g := |m|, RowSums(|m|, OffTerm(Rotated(m, r, c, cs, sn))), RowSums(|m|, OffTerm(m));
    forall i: nat | i < n && i != r && i != c ensures f(i) == g(i) {
      OtherRowEnergy(m, r, c, cs, sn, i);
    }
    PivotRowsEnergy(m, r, c, cs, sn);
    SumExchange(n, f, g, r, c);
  }

  /** The pivot block as eigenvectors (cs, -sn) and (sn, cs) of the 2 by 2 matrix. */
  lemma PivotEigenpairs(a: real, b: real, k: real, cs: real, sn: real, first: real, second: real)
    requires Annihilates(a, b, k, cs, sn)
    requires first == cs * cs * a - 2.0 * sn * cs * k + sn * sn * b
    requires second == sn * sn * a + 2.0 * sn * cs * k + cs * cs * b
    ensures cs * a - sn * k == cs * first && cs * k - sn * b == -(sn * first)
    ensures sn * a + cs * k == sn * second && sn * k + cs * b == cs * second
  {
    var off := sn * cs * (a - b) + k * (cs * cs - sn * sn);
    assert off == 0.0 by {
      assert sn * cs * (a - b) == -(sn * cs * (b - a));
    }
    calc {
      cs * first;
      (cs * cs + sn * sn) * (cs * a - sn * k) - sn * off;
    }
    calc {
      -(sn * first);
      (cs * cs + sn * sn) * (cs * k - sn * b) - cs * off;
    }
    calc {
      sn * second;
      (cs * cs + sn * sn) * (sn * a + cs * k) - cs * off;
    }
    calc {
      cs * second;
      (cs * cs + sn * sn) * (sn * k + cs * b) + sn * off;
    }
  }

  /** Squared lengths: the block's diagonal gains what its off-diagonal loses. */
  lemma PivotSquares(a: real, b: real, k: real, cs: real, sn: real, first: real, second: real)
    requires Annihilates(a, b, k, cs, sn)
    requires first == cs * cs * a - 2.0 * sn * cs * k + sn * sn * b
    requires second == sn * sn * a + 2.0 * sn * cs * k + cs * cs * b
    ensures first + second == a + b
    ensures first * first + second * second == a * a + b * b + 2.0 * (k * k)
  {
    var p, q, u, w := cs * a - sn * k, cs * k - sn * b, sn * a + cs * k, sn * k + cs * b;
    PivotEigenpairs(a, b, k, cs, sn, first, second);
    EigenSquares(cs, sn, first, second, p, q, u, w);
    TurnedSquares(a, k, cs, sn, p, u);
    TurnedSquares(k, b, cs, sn, q, w);
    calc {
      first + second;
      (cs * cs + sn * sn) * (a + b);
    }
  }

  lemma EigenSquares(cs: real, sn: real, first: real, second: real, p: real, q: real, u: real, w: real)
    requires cs * cs + sn * sn == 1.0
    requires p == cs * first && q == -(sn * first) && u == sn * second && w == cs * second
    ensures p * p + q * q == first * first && u * u + w * w == second * second
  {
    assert p * p + q * q == (cs * cs + sn * sn) * (first * first);
    assert u * u + w * w == (cs * cs + sn * sn) * (second * second);
  }

  /** Every rotation keeps symmetry, the trace and the sum of all squared entries. */
  lemma RotationConserves(m: Matrix, r: nat, c: nat, cs: real, sn: real)
    requires Square(m) && Symmetric(m) && r < c < |m|
    requires Annihilates(Entry(m, r, r), Entry(m, c, c), Entry(m, r, c), cs, sn)
    ensures Symmetric(Rotated(m, r, c, cs, sn))
    ensures Trace(Rotated(m, r, c, cs, sn)) == Trace(m)
    ensures Energy(Rotated(m, r, c, cs, sn)) == Energy(m)
  {
    RotationKeepsSymmetry(m, r, c, cs, sn);
    RotatedDiagonal(m, r, c, cs, sn);
    SumGain(|m|, DiagonalTerm(Rotated(m, r, c, cs, sn)), DiagonalTerm(m), r, c, 0.0);
    EnergyKept(m, r, c, cs, sn);
  }

  /** f and g differ at r and c only, where together f gains. */
  ghost predicate Gains(n: nat, f: nat -> real, g: nat -> real, r: nat, c: nat, gain: real) {
    && r < c < n
    && (forall i: nat | i < n && i != r && i != c :: f(i) == g(i))
    && f(r) + f(c) == g(r) + g(c) + gain
  }

  lemma SumGain(n: nat, f: nat -> real, g: nat -> real, r: nat, c: nat, gain: real)
    requires Gains(n, f, g, r, c, gain)
    ensures Sum(n, f) == Sum(n, g) + gain
  {
    SumExchange(n, f, g, r, c);
  }

  /** On the diagonal a rotation keeps the sum, and adds twice the squared pivot to the sum of squares. */
  lemma RotatedDiagonal(m: Matrix, r: nat, c: nat, cs: real, sn: real)
    requires r < c < |m| && Annihilates(Entry(m, r, r), Entry(m, c, c), Entry(m, r, c), cs, sn)
    ensures var v := Rotated(m, r, c, cs, sn);
            && Gains(|m|, DiagonalTerm(v), DiagonalTerm(m), r, c, 0.0)
            && Gains(|m|, DiagonalSquare(v), DiagonalSquare(m), r, c, 2.0 * (Entry(m, r, c) * Entry(m, r, c)))
  {
    var v := Rotated(m, r, c, cs, sn);
    PivotSquares(Entry(m, r, r), Entry(m, c, c), Entry(m, r, c), cs, sn, Entry(v, r, r), Entry(v, c, c));
  }

  lemma EnergyKept(m: Matrix, r: nat, c: nat, cs: real, sn: real)
    requires Square(m) && Symmetric(m) && r < c < |m|
    requires Annihilates(Entry(m, r, r), Entry(m, c, c), Entry(m, r, c), cs, sn)
    ensures Energy(Rotated(m, r, c, cs, sn)) == Energy(m)
  {
    RotatedDiagonal(m, r, c, cs, sn);
    var v := Rotated(m, r, c, cs, sn);
    SumGain(|m|, DiagonalSquare(v), DiagonalSquare(m), r, c, 2.0 * (Entry(m, r, c) * Entry(m, r, c)));
    OffEnergyDrops(m, r, c, cs, sn);
  }

  lemma RotationKeepsSymmetry(m: Matrix, r: nat, c: nat, cs: real, sn: real)
    requires Square(m) && Symmetric(m) && r < c < |m|
    ensures Symmetric(Rotated(m, r, c, cs, sn))
  {
    var v := Rotated(m, r, c, cs, sn);
    forall i: nat, j: nat | i < |v| && j < |v| ensures v[i][j] == v[j][i] {
      assert v[i][j] == Entry(v, i, j) && v[j][i] == Entry(v, j, i);
      assert Entry(m, i, j) == Entry(m, j, i);
    }
  }

  // ----- Progress -----------------------------------------------------------

  ghost function OffConstant(k: real): (nat, nat) -> real {
    (i: nat, j: nat) => if i == j then 0.0 else k
  }

  lemma OffConstantTotal(n: nat, k: real)
    ensures Sum2(n, n, OffConstant(k)) == n as real * (n as real - 1.0) * k
  {
    var per := (n as real - 1.0) * k;
    forall i: nat | i < n ensures RowSums(n, OffConstant(k))(i) == Constant(per)(i) {
      SumChange(n, RowOf(OffConstant(k), i), Constant(k), i);
      SumConstant(n, k);
    }
    SumEqual(n, RowSums(n, OffConstant(k)), Constant(per));
    SumConstant(n, per);
  }

  ghost predicate PivotDominates(m: Matrix, r: nat, c: nat) {
    forall i: nat, j: nat | i < j < |m| :: Abs(Entry(m, i, j)) <= Abs(Entry(m, r, c))
  }

  lemma AbsSquare(a: real)
    ensures Abs(a) * Abs(a) == a * a
  {
    if a < 0.0 {
      assert (-a) * (-a) == a * a;
    }
  }

  lemma SquareGrows(p: real, q: real)
    requires 0.0 <= p <= q
    ensures p * p <= q * q
  {
    assert q * q - p * p == (q - p) * (q + p);
  }

  lemma SquareOrder(a: real, b: real)
    requires Abs(a) <= Abs(b)
    ensures a * a <= b * b
  {
    AbsSquare(a);
    AbsSquare(b);
    SquareGrows(Abs(a), Abs(b));
  }

  lemma PivotHoldsItsShare(m: Matrix, r: nat, c: nat, k: real)
    requires Square(m) && Symmetric(m) && r < c < |m| && PivotDominates(m, r, c) && k == Entry(m, r, c) * Entry(m, r, c)
    ensures OffEnergy(m) <= |m| as real * (|m| as real - 1.0) * k
  {
    var n := |m|;
    forall i: nat, j: nat | i < n && j < n ensures OffTerm(m)(i, j) <= OffConstant(k)(i, j) {
      if i != j {
        assert Entry(m, i, j) == Entry(m, j, i);
        SquareOrder(Entry(m, i, j), Entry(m, r, c));
      }
    }
    Sum2Monotone(n, n, OffTerm(m), OffConstant(k));
    OffConstantTotal(n, k);
  }

  /** The factor one dominant rotation leaves of the off-diagonal energy. */
  ghost function Shrink(n: nat): real
    requires n >= 2
  {
    1.0 - 2.0 / (n as real * (n as real - 1.0))
  }

  lemma Cancel(a: real, b: real, p: real)
    requires p > 0.0 && a * p <= b * p
    ensures a <= b
  {
  }

  lemma ShareOfPairs(k: real, pairs: real, share: real)
    requires k >= 2.0 && pairs == k * (k - 1.0) && share == 2.0 / pairs
    ensures share * pairs == 2.0 && 0.0 < share <= 1.0
  {
    assert pairs >= 2.0 by {
      assert k * (k - 1.0) == (k - 2.0) * (k - 2.0) + 3.0 * (k - 2.0) + 2.0;
    }
    assert share * pairs == 2.0;
    Cancel(share, 1.0, pairs);
  }

  lemma ShrinkArithmetic(n: nat, energy: real, pivot: real, rest: real)
    requires n >= 2 && energy <= n as real * (n as real - 1.0) * pivot && rest == energy - 2.0 * pivot
    ensures rest <= Shrink(n) * energy && 0.0 <= Shrink(n) < 1.0
  {
    var pairs := n as real * (n as real - 1.0);
    var share := 2.0 / pairs;
    ShareOfPairs(n as real, pairs, share);
    ShareApplied(share, pairs, energy, pivot);
  }

  lemma ShareApplied(share: real, pairs: real, energy: real, pivot: real)
    requires share * pairs == 2.0 && share > 0.0 && energy <= pairs * pivot
    ensures energy - 2.0 * pivot <= (1.0 - share) * energy
  {
    assert share * energy <= share * (pairs * pivot);
    assert share * (pairs * pivot) == (share * pairs) * pivot;
  }

  lemma DominantRotationShrinks(m: Matrix, r: nat, c: nat, cs: real, sn: real)
    requires Square(m) && Symmetric(m) && r < c < |m| && PivotDominates(m, r, c) && cs * cs + sn * sn == 1.0
    ensures OffEnergy(Rotated(m, r, c, cs, sn)) <= Shrink(|m|) * OffEnergy(m)
    ensures 0.0 <= Shrink(|m|) < 1.0
  {
    var pivot, before, after := DropAndShare(m, r, c, cs, sn);
    ShrinkArithmetic(|m|, before, pivot, after);
  }

  lemma DropAndShare(m: Matrix, r: nat, c: nat, cs: real, sn: real) returns (pivot: real, before: real, after: real)
    requires Square(m) && Symmetric(m) && r < c < |m| && PivotDominates(m, r, c) && cs * cs + sn * sn == 1.0
    ensures before == OffEnergy(m) && after == OffEnergy(Rotated(m, r, c, cs, sn))
    ensures after == before - 2.0 * pivot && before <= |m| as real * (|m| as real - 1.0) * pivot
  {
    pivot, before, after := Entry(m, r, c) * Entry(m, r, c), OffEnergy(m), OffEnergy(Rotated(m, r, c, cs, sn));
    OffEnergyDrops(m, r, c, cs, sn);
    PivotHoldsItsShare(m, r, c, pivot);
  }

  /** An off-diagonal entry of a symmetric matrix appears twice in the energy. */
  lemma EntryBelowEnergy(m: Matrix, r: nat, c: nat, square: real)
    requires Square(m) && Symmetric(m) && r < c < |m| && square == Entry(m, r, c) * Entry(m, r, c)
    ensures 2.0 * square <= OffEnergy(m)
  {
    var n, f := |m|, OffTerm(m);
    forall i: nat, j: nat | i < n && j < n ensures f(i, j) >= 0.0 {
      if i != j { SquareOrder(0.0, Entry(m, i, j)); }
    }
    forall i: nat | i < n ensures RowSums(n, f)(i) >= 0.0 {
      SumMonotone(n, Zero(), RowOf(f, i));
      SumZero(n);
    }
    var rows := RowSums(n, f);
    SumTerm(n, RowOf(f, r), c);
    SumTerm(n, RowOf(f, c), r);
    assert Entry(m, c, r) == Entry(m, r, c);
    assert rows(r) >= square && rows(c) >= square;
    SumTwoTerms(n, rows, r, c);
    assert OffEnergy(m) == Sum(n, rows);
  }
}
