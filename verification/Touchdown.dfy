/** The touchdown detector: a sliding-window latch that terminates the emergency descent. */
module Touchdown {
  import opened Basics

  datatype Config = Config(vert: real, gyro: real, minLand: real, confirm: int, window: real)

  /** One IMU sample as the detector sees it. */
  datatype Sample = Sample(t: real, vert: real, gyro: real, inLand: bool)

  datatype State = State(landStart: Option<real>, hits: seq<real>, fired: bool)

  const IDLE := State(None, [], false)

  /** The times not older than the window at time t. */
  function Recent(times: seq<real>, t: real, window: real): (r: seq<real>)
    ensures |r| <= |times|
  {
    if times == [] then []
    else
      var n := |times| - 1;
      var before := Recent(times[..n], t, window);
      if t - times[n] <= window then before + [times[n]] else before
  }

  predicate IsHit(c: Config, s: Sample) {
    s.vert > c.vert && s.gyro >= c.gyro
  }

  /** One update: the next state, and whether it reports a touchdown. */
  function Step(c: Config, s: State, x: Sample): (State, bool) {
    if !x.inLand then (IDLE, false)
    else
      var start := if s.landStart.Some? then s.landStart.value else x.t;
      var begun := s.(landStart := Some(start));
      if s.fired || x.t - start < c.minLand || !IsHit(c, x) then (begun, false)
      else
        var hits := Recent(s.hits + [x.t], x.t, c.window);
        if |hits| >= c.confirm then (begun.(hits := hits, fired := true), true)
        else (begun.(hits := hits), false)
  }

  method Prune(hits: seq<real>, t: real, window: real) returns (kept: seq<real>)
    ensures kept == Recent(hits, t, window)
  {
    kept := [];
    for i := 0 to |hits|
      invariant kept == Recent(hits[..i], t, window)
    {
      assert hits[..i + 1][..i] == hits[..i];
      if t - hits[i] <= window {
        kept := kept + [hits[i]];
      }
    }
    assert hits[..|hits|] == hits;
  }

  class TouchdownDetector {
    const config: Config
    var landStart: Option<real>
    var hits: seq<real>
    var fired: bool

    function Abstract(): State
      reads this
    {
      State(landStart, hits, fired)
    }

    constructor (config: Config)
      ensures this.config == config && Abstract() == IDLE
    {
      this.config := config;
      landStart, hits, fired := None, [], false;
    }

    method Update(x: Sample) returns (touchdown: bool)
      modifies this
      ensures (Abstract(), touchdown) == Step(config, old(Abstract()), x)
    {
      if !x.inLand {
        landStart, hits, fired := None, [], false;
        return false;
      }
      if landStart.None? {
        landStart := Some(x.t);
      }
      if fired || x.t - landStart.value < config.minLand {
        return false;
      }
      if IsHit(config, x) {
        hits := Prune(hits + [x.t], x.t, config.window);
        if |hits| >= config.confirm {
          fired := true;
          return true;
        }
      }
      return false;
    }
  }

  // ---------------------------------------------------------------- the reference: a filter over the whole descent

  /** The state after a history of samples, from a fresh detector. */
  function After(c: Config, history: seq<Sample>): State {
    if history == [] then IDLE else Step(c, After(c, history[..|history| - 1]), history[|history| - 1]).0
  }

  /** Whether the last sample of the history reports a touchdown. */
  predicate Reports(c: Config, history: seq<Sample>) {
    history != [] && Step(c, After(c, history[..|history| - 1]), history[|history| - 1]).1
  }

  /** The unbroken run of landing samples the history ends with. */
  function Descent(history: seq<Sample>): (run: seq<Sample>)
    ensures forall i | 0 <= i < |run| :: run[i].inLand
  {
    if history == [] || !history[|history| - 1].inLand then []
    else Descent(history[..|history| - 1]) + [history[|history| - 1]]
  }

  /** The last sample of the run is a hit late enough after the run began. */
  predicate LateHit(c: Config, run: seq<Sample>) {
    run != [] && run[|run| - 1].t - run[0].t >= c.minLand && IsHit(c, run[|run| - 1])
  }

  /** The times of all late hits of the run. */
  function LateHits(c: Config, run: seq<Sample>): seq<real> {
    if run == [] then []
    else
      var before := LateHits(c, run[..|run| - 1]);
      if LateHit(c, run) then before + [run[|run| - 1].t] else before
  }

  /** The last sample is a late hit, and enough late hits of the run lie within the window of it. */
  predicate Confirmed(c: Config, run: seq<Sample>) {
    LateHit(c, run) && |Recent(LateHits(c, run), run[|run| - 1].t, c.window)| >= c.confirm
  }

  ghost predicate EverConfirmed(c: Config, run: seq<Sample>) {
    exists k | 0 <= k <= |run| :: Confirmed(c, run[..k])
  }

  /** The first confirmed sample of its run. */
  ghost predicate FirstConfirmed(c: Config, run: seq<Sample>) {
    Confirmed(c, run) && !EverConfirmed(c, run[..|run| - 1])
  }

  predicate Ordered(run: seq<Sample>) {
    forall i | 1 <= i < |run| :: run[i - 1].t <= run[i].t
  }

  /** The filter keeps every time within the window, as often as it occurs, and no other. */
  lemma {:induction false} RecentIsWithinWindow(times: seq<real>, t: real, window: real, x: real)
    ensures multiset(Recent(times, t, window))[x] == if t - x <= window then multiset(times)[x] else 0
  {
    if times != [] {
      var n := |times| - 1;
      RecentIsWithinWindow(times[..n], t, window, x);
      assert times == times[..n] + [times[n]];
    }
  }

  /** Filtering by an earlier time first changes nothing. */
  lemma {:induction false} RecentTwice(times: seq<real>, u: real, t: real, window: real)
    requires u <= t
    ensures Recent(Recent(times, u, window), t, window) == Recent(times, t, window)
  {
    if times != [] {
      var n := |times| - 1;
      RecentTwice(times[..n], u, t, window);
      var before := Recent(times[..n], u, window);
      if u - times[n] <= window {
        assert (before + [times[n]])[..|before|] == before;
      }
    }
  }

  lemma RecentStep(times: seq<real>, x: real, t: real, window: real)
    ensures Recent(times + [x], t, window) ==
            if t - x <= window then Recent(times, t, window) + [x] else Recent(times, t, window)
  {
    assert (times + [x])[..|times|] == times;
  }

  /** From that time on, both lists hold the same recent times. */
  ghost predicate SameRecent(a: seq<real>, b: seq<real>, from: real, window: real) {
    forall t | t >= from :: Recent(a, t, window) == Recent(b, t, window)
  }

  /** The detector's state is that of the run: its pruned list stands for all late hits until it has fired. */
  ghost predicate Tracks(c: Config, run: seq<Sample>, s: State) {
    if run == [] then s == IDLE
    else
      && s.landStart == Some(run[0].t)
      && (s.fired <==> EverConfirmed(c, run))
      && (!s.fired ==> SameRecent(s.hits, LateHits(c, run), run[|run| - 1].t, c.window))
  }

  lemma ConfirmedStep(c: Config, run: seq<Sample>, x: Sample)
    ensures EverConfirmed(c, run + [x]) <==> EverConfirmed(c, run) || Confirmed(c, run + [x])
    ensures LateHits(c, run + [x]) == if LateHit(c, run + [x]) then LateHits(c, run) + [x.t] else LateHits(c, run)
  {
    var longer := run + [x];
    assert longer[..|run|] == run && longer[..|longer|] == longer;
    assert forall k | 0 <= k <= |run| :: longer[..k] == run[..k];
  }

  lemma NothingConfirmed(c: Config)
    ensures !EverConfirmed(c, [])
  {
    assert forall k | 0 <= k <= 0 :: !Confirmed(c, [][..k]);
  }

  /** A late hit of an unfired run: the detector's count is the number of late hits within the window. */
  lemma LateHitIsCounted(c: Config, run: seq<Sample>, s: State, x: Sample)
    requires SameRecent(s.hits, LateHits(c, run), if run == [] then x.t else run[|run| - 1].t, c.window)
    requires (run != [] ==> run[|run| - 1].t <= x.t) && LateHit(c, run + [x])
    ensures Recent(s.hits + [x.t], x.t, c.window) == Recent(LateHits(c, run + [x]), x.t, c.window)
    ensures SameRecent(Recent(s.hits + [x.t], x.t, c.window), LateHits(c, run + [x]), x.t, c.window)
  {
    ConfirmedStep(c, run, x);
    RecentStep(s.hits, x.t, x.t, c.window);
    RecentStep(LateHits(c, run), x.t, x.t, c.window);
    assert Recent(s.hits, x.t, c.window) == Recent(LateHits(c, run), x.t, c.window);
    var all := LateHits(c, run + [x]);
    forall t | t >= x.t
      ensures Recent(Recent(all, x.t, c.window), t, c.window) == Recent(all, t, c.window)
    {
      RecentTwice(all, x.t, t, c.window);
    }
  }

  lemma StepTracks(c: Config, run: seq<Sample>, s: State, x: Sample)
    requires Tracks(c, run, s) && x.inLand && (run != [] ==> run[|run| - 1].t <= x.t)
    ensures Tracks(c, run + [x], Step(c, s, x).0)
    ensures Step(c, s, x).1 <==> FirstConfirmed(c, run + [x])
  {
    var longer := run + [x];
    assert longer[..|longer| - 1] == run && longer[0] == if run == [] then x else run[0];
    NothingConfirmed(c);
    ConfirmedStep(c, run, x);
    if run == [] {
      assert SameRecent(s.hits, LateHits(c, run), x.t, c.window);
    }
    if LateHit(c, longer) && !s.fired {
      LateHitIsCounted(c, run, s, x);
    }
  }

  /**
   For samples in time order the detector reports exactly at the first confirmed sample of an unbroken descent,
   and its pruned list agrees with the filter over the whole descent.
   */
  lemma {:induction false} ReportsAreFirstConfirmations(c: Config, history: seq<Sample>)
    requires Ordered(Descent(history))
    ensures Tracks(c, Descent(history), After(c, history))
    ensures Reports(c, history) <==> Descent(history) != [] && FirstConfirmed(c, Descent(history))
  {
    if history != [] && history[|history| - 1].inLand {
      var before, x := history[..|history| - 1], history[|history| - 1];
      var run := Descent(before);
      assert Descent(history) == run + [x];
      OrderedPrefix(run, [x]);
      if run != [] {
        assert (run + [x])[|run| - 1].t <= (run + [x])[|run|].t;
      }
      ReportsAreFirstConfirmations(c, before);
      StepTracks(c, run, After(c, before), x);
    }
  }

  lemma {:induction false} DescentGoesOn(history: seq<Sample>, more: seq<Sample>)
    requires forall i | 0 <= i < |more| :: more[i].inLand
    ensures Descent(history + more) == Descent(history) + more
  {
    if more == [] {
      assert history + more == history;
    } else {
      var n := |more| - 1;
      DescentGoesOn(history, more[..n]);
      assert (history + more)[..|history| + n] == history + more[..n];
    }
  }

  /** After a report, the rest of that descent stays silent. */
  lemma OneReportPerDescent(c: Config, history: seq<Sample>, more: seq<Sample>)
    requires Reports(c, history) && more != [] && forall i | 0 <= i < |more| :: more[i].inLand
    requires Ordered(Descent(history + more))
    ensures !Reports(c, history + more)
  {
    var run := Descent(history);
    DescentGoesOn(history, more);
    assert Confirmed(c, run) by {
      OrderedPrefix(run, more);
      ReportsAreFirstConfirmations(c, history);
    }
    assert !FirstConfirmed(c, run + more) by {
      assert (run + more)[..|run + more| - 1][..|run|] == run;
    }
    ReportsAreFirstConfirmations(c, history + more);
  }

  lemma OrderedPrefix(run: seq<Sample>, more: seq<Sample>)
    requires Ordered(run + more)
    ensures Ordered(run)
  {
    assert forall i | 0 <= i < |run| :: run[i] == (run + more)[i];
  }

  // ---------------------------------------------------------------- the vertical feature

  datatype Quaternion = Quaternion(x: real, y: real, z: real, w: real)

  /** The feature, as computed. */
  function WorldVert(q: Quaternion, ax: real, ay: real, az: real): real {
    2.0 * (q.x * q.z + q.w * q.y) * ax + 2.0 * (q.y * q.z - q.w * q.x) * ay + (1.0 - 2.0 * (q.x * q.x + q.y * q.y)) * az
  }

  predicate Unit(q: Quaternion) {
    q.x * q.x + q.y * q.y + q.z * q.z + q.w * q.w == 1.0
  }

  function Conjugate(q: Quaternion): Quaternion {
    Quaternion(-q.x, -q.y, -q.z, q.w)
  }

  /** Hamilton's product. */
  function Product(p: Quaternion, q: Quaternion): Quaternion {
    Quaternion(
      p.w * q.x + p.x * q.w + p.y * q.z - p.z * q.y,
      p.w * q.y - p.x * q.z + p.y * q.w + p.z * q.x,
      p.w * q.z + p.x * q.y - p.y * q.x + p.z * q.w,
      p.w * q.w - p.x * q.x - p.y * q.y - p.z * q.z)
  }

  /** The up component of a vector rotated by q: the third row of the rotation matrix. */
  function Up(q: Quaternion, ax: real, ay: real, az: real): real {
    2.0 * (q.x * q.z - q.w * q.y) * ax + 2.0 * (q.y * q.z + q.w * q.x) * ay + (1.0 - 2.0 * (q.x * q.x + q.y * q.y)) * az
  }

  lemma SandwichExpanded(q: Quaternion, ax: real, ay: real, az: real)
    ensures Product(Product(q, Quaternion(ax, ay, az, 0.0)), Conjugate(q)).z ==
            2.0 * (q.x * q.z - q.w * q.y) * ax + 2.0 * (q.y * q.z + q.w * q.x) * ay +
            (q.w * q.w + q.z * q.z - q.x * q.x - q.y * q.y) * az
  {
  }

  lemma SameFactor(m: real, k: real, a: real)
    requires m == k
    ensures m * a == k * a
  {
  }

  /** That row is what the rotation by a unit quaternion does: the up component of q a q*. */
  lemma UpIsRotation(q: Quaternion, ax: real, ay: real, az: real) returns (up: real)
    requires Unit(q)
    ensures up == Product(Product(q, Quaternion(ax, ay, az, 0.0)), Conjugate(q)).z
    ensures up == Up(q, ax, ay, az)
  {
    SandwichExpanded(q, ax, ay, az);
    var k := q.w * q.w + q.z * q.z - q.x * q.x - q.y * q.y;
    up := 2.0 * (q.x * q.z - q.w * q.y) * ax + 2.0 * (q.y * q.z + q.w * q.x) * ay + k * az;
    SameFactor(k, 1.0 - 2.0 * (q.x * q.x + q.y * q.y), az);
  }

  /** The feature is the up component under the inverse rotation. */
  lemma FeatureIsInverseUp(q: Quaternion, ax: real, ay: real, az: real)
    ensures WorldVert(q, ax, ay, az) == Up(Conjugate(q), ax, ay, az)
  {
    var p := Conjugate(q);
    assert p.x * p.x == q.x * q.x && p.y * p.y == q.y * q.y && p.x * p.z == q.x * q.z && p.y * p.z == q.y * q.z;
    assert p.w * p.y == -(q.w * q.y) && p.w * p.x == -(q.w * q.x);
  }

  lemma FeatureMinusUp(p: real, r: real, s: real, t: real, k: real, ax: real, ay: real, az: real)
    ensures (2.0 * (p + r) * ax + 2.0 * (s - t) * ay + k * az) - (2.0 * (p - r) * ax + 2.0 * (s + t) * ay + k * az)
            == 4.0 * (r * ax - t * ay)
  {
    assert 2.0 * (p + r) * ax - 2.0 * (p - r) * ax == 4.0 * (r * ax);
    assert 2.0 * (s - t) * ay - 2.0 * (s + t) * ay == -4.0 * (t * ay);
  }

  lemma Factored(w: real, y: real, x: real, ax: real, ay: real)
    ensures (w * y) * ax - (w * x) * ay == w * (y * ax - x * ay)
  {
    assert w * (y * ax) == (w * y) * ax && w * (x * ay) == (w * x) * ay;
  }

  /** It is the documented up component of the rotated acceleration exactly when this term vanishes. */
  lemma FeatureIsUpWhen(q: Quaternion, ax: real, ay: real, az: real)
    ensures WorldVert(q, ax, ay, az) == Up(q, ax, ay, az) <==> q.w * (q.y * ax - q.x * ay) == 0.0
  {
    var k := 1.0 - 2.0 * (q.x * q.x + q.y * q.y);
    FeatureMinusUp(q.x * q.z, q.w * q.y, q.y * q.z, q.w * q.x, k, ax, ay, az);
    Factored(q.w, q.y, q.x, ax, ay);
  }

  /** For a tilt about the body's x axis, sideways force enters the feature with the opposite sign. */
  lemma TiltFlipsSidewaysForce(q: Quaternion, ay: real)
    requires q.y == 0.0 && q.z == 0.0
    ensures WorldVert(q, 0.0, ay, 0.0) == -Up(q, 0.0, ay, 0.0) == -2.0 * (q.w * q.x) * ay
  {
  }

  /** The coefficients of the feature form a unit vector. */
  lemma UnitCoefficients(q: Quaternion) returns (u: real, v: real, w: real)
    requires Unit(q)
    ensures u == 2.0 * (q.x * q.z + q.w * q.y) && v == 2.0 * (q.y * q.z - q.w * q.x) &&
              w == 1.0 - 2.0 * (q.x * q.x + q.y * q.y)
    ensures u * u + v * v + w * w == 1.0
  {
    u, v, w := 2.0 * (q.x * q.z + q.w * q.y), 2.0 * (q.y * q.z - q.w * q.x), 1.0 - 2.0 * (q.x * q.x + q.y * q.y);
    var tilt, rest := q.x * q.x + q.y * q.y, q.z * q.z + q.w * q.w;
    assert u * u + v * v == 4.0 * (tilt * rest);
    assert rest == 1.0 - tilt;
    assert w * w == 1.0 - 4.0 * tilt + 4.0 * (tilt * tilt);
    assert tilt * rest == tilt - tilt * tilt;
  }

  lemma Square(x: real)
    ensures x * x >= 0.0
  {
  }

  /** Cauchy-Schwarz in three dimensions. */
  lemma CauchySchwarz(u: real, v: real, w: real, a: real, b: real, c: real)
    ensures (u * a + v * b + w * c) * (u * a + v * b + w * c) <= (u * u + v * v + w * w) * (a * a + b * b + c * c)
  {
    Square(u * b - v * a);
    Square(u * c - w * a);
    Square(v * c - w * b);
    assert (u * u + v * v + w * w) * (a * a + b * b + c * c) - (u * a + v * b + w * c) * (u * a + v * b + w * c)
        == (u * b - v * a) * (u * b - v * a) + (u * c - w * a) * (u * c - w * a) + (v * c - w * b) * (v * c - w * b);
  }

  /** The feature never exceeds the size of the acceleration. */
  lemma FeatureIsBounded(q: Quaternion, ax: real, ay: real, az: real)
    requires Unit(q)
    ensures WorldVert(q, ax, ay, az) * WorldVert(q, ax, ay, az) <= ax * ax + ay * ay + az * az
  {
    var u, v, w := UnitCoefficients(q);
    CauchySchwarz(u, v, w, ax, ay, az);
  }
}
