/** The geofence reporter: the box verdict on a fresh pose, and the availability verdict without one. */
module Geofence {
  import opened Basics
  import opened Levels

  datatype Axis = X | Y | Z

  datatype Position = Position(x: real, y: real, z: real)
  {
    function On(axis: Axis): real {
      match axis
      case X => x
      case Y => y
      case Z => z
    }
  }

  datatype Bounds = Bounds(lo: real, hi: real)

  datatype Box = Box(x: Bounds, y: Bounds, z: Bounds)
  {
    function On(axis: Axis): Bounds {
      match axis
      case X => x
      case Y => y
      case Z => z
    }
  }

  datatype Config = Config(box: Box, axes: set<Axis>, margin: real, timeout: real, fallbackTimeout: real)
  {
    predicate Valid() {
      axes != {}
    }
  }

  datatype Zone = Inside | Approaching | Outside | Unknown

  /** What the callbacks have received. */
  datatype Poses = Poses(position: Position, received: Option<real>, fallbackReceived: Option<real>)

  predicate Recent(received: Option<real>, now: real, timeout: real) {
    received.Some? && now - received.value <= timeout
  }

  /** The distance to the nearer wall of one axis, negative outside. */
  function Clearance(c: Config, p: Position, axis: Axis): real {
    var low, high := p.On(axis) - c.box.On(axis).lo, c.box.On(axis).hi - p.On(axis);
    if low < high then low else high
  }

  /** m is the smallest clearance over the enabled axes. */
  ghost predicate Nearest(c: Config, p: Position, m: real) {
    (exists axis | axis in c.axes :: Clearance(c, p, axis) == m) &&
    forall axis | axis in c.axes :: m <= Clearance(c, p, axis)
  }

  ghost predicate InsideBox(c: Config, p: Position) {
    forall axis | axis in c.axes :: c.box.On(axis).lo <= p.On(axis) <= c.box.On(axis).hi
  }

  /** At least the warning margin away from every enabled wall. */
  ghost predicate ClearOfWalls(c: Config, p: Position) {
    forall axis | axis in c.axes :: c.box.On(axis).lo + c.margin <= p.On(axis) <= c.box.On(axis).hi - c.margin
  }

  lemma NegativeIsOutside(c: Config, p: Position, m: real)
    requires Nearest(c, p, m)
    ensures m < 0.0 <==> !InsideBox(c, p)
    ensures m >= c.margin <==> ClearOfWalls(c, p)
  {
    if m < 0.0 {
      var axis :| axis in c.axes && Clearance(c, p, axis) == m;
      assert !(c.box.On(axis).lo <= p.On(axis) <= c.box.On(axis).hi);
    }
    if m >= c.margin {
      assert forall axis | axis in c.axes :: Clearance(c, p, axis) >= c.margin;
    }
    if !InsideBox(c, p) {
      var axis :| axis in c.axes && !(c.box.On(axis).lo <= p.On(axis) <= c.box.On(axis).hi);
      assert m <= Clearance(c, p, axis);
    }
  }

  /** The level the reporter must give. */
  ghost function Verdict(c: Config, p: Poses, now: real): nat {
    if Recent(p.received, now, c.timeout) then
      if !InsideBox(c, p.position) then ERROR else if ClearOfWalls(c, p.position) then OK else WARN
    else if Recent(p.fallbackReceived, now, c.fallbackTimeout) then WARN
    else ERROR
  }

  class GeofenceDiag {
    const config: Config
    var poses: Poses

    constructor (config: Config)
      requires config.Valid()
      ensures this.config == config && poses.received.None? && poses.fallbackReceived.None?
    {
      this.config := config;
      poses := Poses(Position(0.0, 0.0, 0.0), None, None);
    }

    method OnPose(p: Position, now: real)
      modifies this
      ensures poses == old(poses).(position := p, received := Some(now))
    {
      poses := poses.(position := p, received := Some(now));
    }

    method OnFallbackPose(now: real)
      modifies this
      ensures poses == old(poses).(fallbackReceived := Some(now))
    {
      poses := poses.(fallbackReceived := Some(now));
    }

    method Status(now: real) returns (zone: Zone, margin: Option<real>)
      requires config.Valid()
      ensures zone == Unknown <==> !Recent(poses.received, now, config.timeout)
      ensures zone == Unknown <==> margin.None?
      ensures margin.Some? ==> Nearest(config, poses.position, margin.value)
      ensures zone == Outside <==> margin.Some? && margin.value < 0.0
      ensures zone == Approaching <==> margin.Some? && 0.0 <= margin.value < config.margin
    {
      if !Recent(poses.received, now, config.timeout) {
        return Unknown, None;
      }
      margin := None;
      var order := [X, Y, Z];
      for i := 0 to |order|
        invariant margin.None? <==> forall k | 0 <= k < i :: order[k] !in config.axes
        invariant margin.Some? ==>
                    exists k | 0 <= k < i :: order[k] in config.axes &&
                        Clearance(config, poses.position, order[k]) == margin.value
        invariant margin.Some? ==>
                    forall k | 0 <= k < i && order[k] in config.axes ::
                        margin.value <= Clearance(config, poses.position, order[k])
      {
        if order[i] in config.axes {
          var clearance := Clearance(config, poses.position, order[i]);
          margin := Some(if margin.Some? && margin.value < clearance then margin.value else clearance);
        }
      }
      EveryAxis(config.axes);
      if margin.value < 0.0 {
        return Outside, margin;
      }
      zone := if margin.value < config.margin then Approaching else Inside;
    }

    method RunDiag(now: real) returns (level: nat)
      requires config.Valid()
      ensures level == Verdict(config, poses, now)
    {
      var zone, margin := Status(now);
      if margin.Some? {
        NegativeIsOutside(config, poses.position, margin.value);
      }
      match zone
      case Outside => level := ERROR;
      case Approaching => level := WARN;
      case Inside => level := OK;
      case Unknown =>
        if Recent(poses.fallbackReceived, now, config.fallbackTimeout) {
          level := WARN;
        } else {
          level := ERROR;
        }
    }
  }

  lemma EveryAxis(axes: set<Axis>)
    ensures var order := [X, Y, Z];
            (forall axis | axis in axes :: axis in order) && (axes != {} ==> exists k | 0 <= k < 3 :: order[k] in axes)
  {
    var order := [X, Y, Z];
    assert order[0] == X && order[1] == Y && order[2] == Z;
    forall axis | axis in axes
      ensures axis in order
    {
      match axis
      case X => case Y => case Z =>
    }
    if axes != {} {
      var axis :| axis in axes;
    }
  }
}
