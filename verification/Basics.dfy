/** Small value types and sequence orders shared by the models. */
module Basics {

  datatype Option<+T> = None | Some(value: T)

  /** Nanoseconds as seconds. */
  function Seconds(ns: int): real {
    ns as real / 1000000000.0
  }

  function AbsInt(a: int): (r: int)
    ensures r >= 0 && (r == a || r == -a)
  {
    if a < 0 then -a else a
  }

  function Abs(r: real): (a: real)
    ensures a >= 0.0 && a >= r && a >= -r
  {
    if r < 0.0 then -r else r
  }

  lemma PositiveProduct(a: real, b: real)
    requires a > 0.0 && b > 0.0
    ensures a * b > 0.0
  {
  }

  lemma LargerSquare(p: real, q: real)
    requires 0.0 <= p < q
    ensures p * p < q * q
  {
    PositiveProduct(q - p, q + p);
    assert q * q - p * p == (q - p) * (q + p);
  }

  /** A root is compared by its square. */
  lemma RootExceeds(root: real, limit: real)
    requires root >= 0.0
    ensures root > limit <==> limit < 0.0 || root * root > limit * limit
  {
    if 0.0 <= limit < root {
      LargerSquare(limit, root);
    } else if root < limit {
      LargerSquare(root, limit);
    }
  }

  /** int(float): truncation toward zero. */
  function Truncate(r: real): int {
    if r >= 0.0 then r.Floor else -((-r).Floor)
  }

  predicate Increasing(s: seq<int>) {
    forall i | 0 <= i < |s| - 1 :: s[i] < s[i + 1]
  }

  predicate NonDecreasing(s: seq<int>) {
    forall i | 0 <= i < |s| - 1 :: s[i] <= s[i + 1]
  }

  /** Adjacent order is order. */
  lemma {:induction false} IncreasingOrder(s: seq<int>, i: nat, j: nat)
    requires Increasing(s) && i < j < |s|
    ensures s[i] < s[j]
  {
    if j > i + 1 {
      IncreasingOrder(s, i, j - 1);
    }
  }

  lemma IncreasingThroughout(s: seq<int>)
    requires Increasing(s)
    ensures forall i, j | 0 <= i < j < |s| :: s[i] < s[j]
  {
    forall i, j | 0 <= i < j < |s|
      ensures s[i] < s[j]
    {
      IncreasingOrder(s, i, j);
    }
  }

  lemma {:induction false} NonDecreasingOrder(s: seq<int>, i: nat, j: nat)
    requires NonDecreasing(s) && i <= j < |s|
    ensures s[i] <= s[j]
  {
    if j > i {
      NonDecreasingOrder(s, i, j - 1);
    }
  }

  predicate Distinct(f: seq<nat>) {
    forall i, j | 0 <= i < j < |f| :: f[i] != f[j]
  }

  ghost function Range(lo: nat, hi: nat): (s: set<nat>)
    requires lo <= hi
    ensures |s| == hi - lo && forall k: nat :: k in s <==> lo <= k < hi
    decreases hi
  {
    if lo == hi then {} else Range(lo, hi - 1) + {hi - 1}
  }

  ghost function Image(f: seq<nat>, lo: nat, hi: nat): (s: set<nat>)
    requires lo <= hi <= |f|
    decreases hi
  {
    if lo == hi then {} else Image(f, lo, hi - 1) + {f[hi - 1]}
  }

  lemma {:induction false} ImageMembers(f: seq<nat>, lo: nat, hi: nat, v: nat)
    requires lo <= hi <= |f|
    ensures v in Image(f, lo, hi) <==> exists k | lo <= k < hi :: f[k] == v
    decreases hi
  {
    if lo < hi {
      ImageMembers(f, lo, hi - 1, v);
    }
  }

  lemma {:induction false} ImageSize(f: seq<nat>, lo: nat, hi: nat)
    requires lo <= hi <= |f| && Distinct(f)
    ensures |Image(f, lo, hi)| == hi - lo
    decreases hi
  {
    if lo < hi {
      ImageSize(f, lo, hi - 1);
      ImageMembers(f, lo, hi - 1, f[hi - 1]);
    }
  }

  /** Image and index range, as sets, compare like their members. */
  lemma ImageWithin(f: seq<nat>, lo: nat, hi: nat, from: nat, to: nat)
    requires lo <= hi <= |f| && from <= to && forall k | lo <= k < hi :: from <= f[k] < to
    ensures Image(f, lo, hi) <= Range(from, to)
  {
    forall v | v in Image(f, lo, hi)
      ensures v in Range(from, to)
    {
      ImageMembers(f, lo, hi, v);
    }
  }

  lemma SubsetSize<T>(a: set<T>, b: set<T>)
    requires a <= b
    ensures |a| <= |b|
    ensures |a| == |b| ==> a == b
  {
    assert b == a + (b - a);
  }

  /** Distinct indices, all below the length, contain every index. */
  lemma DistinctIndicesCover(f: seq<nat>, k: nat) returns (i: nat)
    requires k < |f| && Distinct(f) && forall i | 0 <= i < |f| :: f[i] < |f|
    ensures i < |f| && f[i] == k
  {
    ImageSize(f, 0, |f|);
    ImageWithin(f, 0, |f|, 0, |f|);
    SubsetSize(Image(f, 0, |f|), Range(0, |f|));
    assert k in Range(0, |f|);
    ImageMembers(f, 0, |f|, k);
    i :| 0 <= i < |f| && f[i] == k;
  }

  /** Distinct values in an interval are no more than the interval holds. */
  lemma DistinctFit(f: seq<nat>, lo: nat, hi: nat, from: nat, to: nat)
    requires lo <= hi <= |f| && Distinct(f) && from <= to && forall k | lo <= k < hi :: from <= f[k] < to
    ensures hi - lo <= to - from
  {
    ImageSize(f, lo, hi);
    ImageWithin(f, lo, hi, from, to);
    SubsetSize(Image(f, lo, hi), Range(from, to));
  }

  /** Among the values at 0..i, one is at least i. */
  lemma EarlyLargeValue(f: seq<nat>, i: nat) returns (j: nat)
    requires i < |f| && Distinct(f)
    ensures j <= i && f[j] >= i
  {
    if forall a | 0 <= a <= i :: f[a] < i {
      DistinctFit(f, 0, i + 1, 0, i);
      assert false;
    }
    j :| 0 <= j <= i && f[j] >= i;
  }

  /** Among the values from i on, one is at most i. */
  lemma LateSmallValue(f: seq<nat>, i: nat) returns (j: nat)
    requires i < |f| && Distinct(f) && forall a | 0 <= a < |f| :: f[a] < |f|
    ensures i <= j < |f| && f[j] <= i
  {
    if forall a | i <= a < |f| :: f[a] > i {
      DistinctFit(f, i, |f|, i + 1, |f|);
      assert false;
    }
    j :| i <= j < |f| && f[j] <= i;
  }
}
