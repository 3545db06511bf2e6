/** The response node: callbacks and a tick, each one atomic step, that pick a lane and drive the autopilot. */
module Response {
  import opened Basics
  import opened Levels
  import Touchdown

  datatype Field = PX | PY | PZ | VX | VY | VZ | AFX | AFY | AFZ | Yaw | YawRate

  datatype Vector = Vector(x: real, y: real, z: real)

  /** A position target: its frame, the fields its mask ignores, and the values used here. */
  datatype Setpoint = Setpoint(localFrame: bool, ignored: set<Field>, position: Vector, velocity: Vector, yaw: real)

  const ZERO := Vector(0.0, 0.0, 0.0)

  /** Position and yaw hold: velocity, acceleration and yaw rate are ignored. */
  const HOLD_MASK := {VX, VY, VZ, AFX, AFY, AFZ, YawRate}

  const VELOCITY_MASK := {PX, PY, PZ, AFX, AFY, AFZ, Yaw}

  datatype Fault = Fault(level: nat, names: seq<string>)

  datatype Lane = NormalLane | LandLane | KillLane | ManualLane

  datatype Source = FromNormal | FromIdleHold | FromLand

  datatype Action =
    | Report(lane: Lane, level: nat)
    | Publish(source: Source, setpoint: Setpoint)
    | SetMode(time: real)
    | Kill

  datatype Config = Config(
    requireArmed: bool, descend: real, normalTimeout: real, idleHold: bool, killChannel: nat, killUs: real,
    allowTermination: bool, touchdown: Option<Touchdown.Config>)

  /** What a control session has received: the last Normal, the hold it latched, and admission. */
  datatype Session = Session(normal: Option<Setpoint>, stamp: real, idleHold: Option<Setpoint>, admitted: bool)

  const NO_SESSION := Session(None, 0.0, None, false)

  /** The autopilot state last reported. */
  datatype Vehicle = Vehicle(armed: bool, mode: string, received: Option<real>, connected: bool, initialized: bool)

  datatype State = State(
    fault: Fault, vehicle: Vehicle, rc: seq<int>, session: Session, killed: bool, lastManual: Option<real>,
    inLand: bool, touchdownFired: bool, detector: Touchdown.State)

  const START := State(
    Fault(OK, []), Vehicle(false, "", None, false, false), [], NO_SESSION, false, None, false, false, Touchdown.IDLE)

  datatype Event =
    | OnState(connected: bool, armed: bool, mode: string, now: real)
    | OnFault(fault: Fault)
    | OnRc(channels: seq<int>)
    | OnNormal(setpoint: Setpoint, now: real)
    | OnImu(time: real, attitude: Touchdown.Quaternion, force: Vector, gyro: real)
    | Tick(now: real)
    | RequestTermination(now: real, acknowledged: bool)

  // ---------------------------------------------------------------- what the callbacks read

  predicate Manual(v: Vehicle) {
    v.mode != "" && v.mode != "OFFBOARD"
  }

  /** The pilot's kill switch. */
  predicate KillSwitch(c: Config, rc: seq<int>) {
    c.killChannel < |rc| && rc[c.killChannel] as real > c.killUs
  }

  predicate NormalFresh(c: Config, s: Session, now: real) {
    s.normal.Some? && 0.0 <= now - s.stamp < c.normalTimeout
  }

  /** The policy table; a level it does not list reports as the normal lane. */
  function LaneOf(level: nat): Lane {
    if level == WARN then LandLane else if level == ERROR then KillLane else NormalLane
  }

  function ChooseLane(c: Config, s: State): Lane {
    if KillSwitch(c, s.rc) || s.killed then KillLane
    else if Manual(s.vehicle) then ManualLane
    else LaneOf(s.fault.level)
  }

  function HoldOf(sp: Setpoint): Setpoint {
    if Yaw in sp.ignored then Setpoint(true, HOLD_MASK + {Yaw}, sp.position, ZERO, 0.0)
    else Setpoint(true, HOLD_MASK, sp.position, ZERO, sp.yaw)
  }

  predicate CarriesPosition(sp: Setpoint) {
    PX !in sp.ignored && sp.localFrame
  }

  function LandSetpoint(c: Config): Setpoint {
    Setpoint(true, VELOCITY_MASK, ZERO, Vector(0.0, 0.0, -c.descend), 0.0)
  }

  // ---------------------------------------------------------------- the steps

  /** Whether a state message starts a new control session. */
  predicate StartsSession(v: Vehicle, armed: bool, mode: string) {
    if !v.initialized then armed
    else v.armed != armed || (v.mode == "OFFBOARD" && mode != "OFFBOARD")
  }

  function StateStep(s: State, connected: bool, armed: bool, mode: string, now: real): State {
    s.(vehicle := Vehicle(armed, mode, Some(now), connected, true),
       session := if StartsSession(s.vehicle, armed, mode) then NO_SESSION else s.session)
  }

  function NormalStep(s: Session, sp: Setpoint, now: real): Session {
    Session(Some(sp), now, if CarriesPosition(sp) then Some(HoldOf(sp)) else s.idleHold, s.admitted)
  }

  function ImuSample(s: State, time: real, attitude: Touchdown.Quaternion, force: Vector,
                     gyro: real): Touchdown.Sample {
    Touchdown.Sample(time, Touchdown.WorldVert(attitude, force.x, force.y, force.z), gyro, s.inLand)
  }

  function ImuStep(c: Config, s: State, sample: Touchdown.Sample): State {
    if c.touchdown.None? then s
    else
      var (detector, touchdown) := Touchdown.Step(c.touchdown.value, s.detector, sample);
      s.(detector := detector, touchdownFired := s.touchdownFired || touchdown)
  }

  function ToManual(s: State, now: real): (State, seq<Action>) {
    if s.lastManual.None? || now - s.lastManual.value > 1.0 then (s.(lastManual := Some(now)), [SetMode(now)])
    else (s, [])
  }

  /** The priority tail: a fresh Normal, else the position hold. */
  function Forward(c: Config, s: Session, current: bool): seq<Action> {
    if current && s.normal.Some? then [Publish(FromNormal, s.normal.value)]
    else if c.idleHold && s.idleHold.Some? then [Publish(FromIdleHold, s.idleHold.value)]
    else []
  }

  /** Entry into OFFBOARD needs a fresh Normal of this session; after it, the stream goes on. */
  function Admit(c: Config, s: State, now: real): (State, seq<Action>) {
    var current := NormalFresh(c, s.session, now);
    if !Manual(s.vehicle) && !s.session.admitted then
      if current then (s.(session := s.session.(admitted := true)), Forward(c, s.session, true)) else ToManual(s, now)
    else (s, Forward(c, s.session, current))
  }

  /** Whether this node, and not the pilot, owns an actuated vehicle. */
  predicate Owns(c: Config, s: State) {
    !s.killed && !KillSwitch(c, s.rc) && !Manual(s.vehicle) && (s.vehicle.armed || !c.requireArmed)
  }

  function Actuate(c: Config, s: State, now: real): (State, seq<Action>) {
    if s.killed || KillSwitch(c, s.rc) then (s, [])
    else if Owns(c, s) && (s.fault.level >= ERROR || s.touchdownFired) then (s.(killed := true), [Kill])
    else if Owns(c, s) && s.fault.level >= WARN then (s, [Publish(FromLand, LandSetpoint(c))])
    else Admit(c, s, now)
  }

  /** The tick decides whether the vehicle is landing before it acts; leaving the descent forgets a touchdown. */
  function Observe(c: Config, s: State): State {
    var landing := ChooseLane(c, s) == LandLane && s.vehicle.armed;
    s.(inLand := landing, touchdownFired := landing && s.touchdownFired)
  }

  function TickStep(c: Config, s: State, now: real): (State, seq<Action>) {
    var (next, actions) := Actuate(c, Observe(c, s), now);
    (next, [Report(ChooseLane(c, s), s.fault.level)] + actions)
  }

  /** This node leaves the lane to the planner: not killed, the pilot's switch off, and no fault it must act on. */
  predicate Calm(c: Config, s: State) {
    && !s.killed
    && (c.killChannel < |s.rc| ==> s.rc[c.killChannel] as real <= c.killUs)
    && (s.fault.level == OK || Manual(s.vehicle) || (c.requireArmed && !s.vehicle.armed))
  }

  /** What a calm tick does while the Normal is fresh, and what it does when it is not but the stream may go on. */
  lemma CalmTickStreams(c: Config, s: State, now: real)
    requires Calm(c, s) && (NormalFresh(c, s.session, now) || Manual(s.vehicle) || s.session.admitted)
    ensures var (next, actions) := TickStep(c, s, now);
            var report := Report(ChooseLane(c, s), s.fault.level);
            if NormalFresh(c, s.session, now)
            then next.session == s.session.(admitted := s.session.admitted || !Manual(s.vehicle)) &&
                 actions == [report, Publish(FromNormal, s.session.normal.value)]
            else next.session == s.session &&
                 actions == if c.idleHold && s.session.idleHold.Some?
                            then [report, Publish(FromIdleHold, s.session.idleHold.value)] else [report]
  {
  }

  /** What an external termination request needs. */
  predicate MayTerminate(c: Config, s: State, now: real) {
    && c.allowTermination
    && s.vehicle.received.Some? && 0.0 <= now - s.vehicle.received.value < 2.0
    && s.vehicle.connected && s.vehicle.armed && s.vehicle.mode == "OFFBOARD"
    && s.session.admitted && NormalFresh(c, s.session, now)
    && !s.killed && !KillSwitch(c, s.rc)
  }

  function TerminateStep(c: Config, s: State, now: real, acknowledged: bool): (State, seq<Action>) {
    if !MayTerminate(c, s, now) then (s, []) else (s.(killed := acknowledged), [Kill])
  }

  function Step(c: Config, s: State, e: Event): (State, seq<Action>) {
    match e
    case OnState(connected, armed, mode, now) => (StateStep(s, connected, armed, mode, now), [])
    case OnFault(fault) => (s.(fault := fault), [])
    case OnRc(channels) => (s.(rc := channels), [])
    case OnNormal(sp, now) => (s.(session := NormalStep(s.session, sp, now)), [])
    case OnImu(time, attitude, force, gyro) => (ImuStep(c, s, ImuSample(s, time, attitude, force, gyro)), [])
    case Tick(now) => TickStep(c, s, now)
    case RequestTermination(now, acknowledged) => TerminateStep(c, s, now, acknowledged)
  }

  /** The node: its callbacks update these fields and append what they do to the action list. */
  class ResponseNode {
    const config: Config
    const detector: Touchdown.TouchdownDetector
    var fault: Fault
    var vehicle: Vehicle
    var rc: seq<int>
    var session: Session
    var killed: bool
    var lastManual: Option<real>
    var inLand: bool
    var touchdownFired: bool
    var actions: seq<Action>

    function Abstract(): State
      reads this, detector
    {
      State(fault, vehicle, rc, session, killed, lastManual, inLand, touchdownFired, detector.Abstract())
    }

    predicate Valid() {
      config.touchdown.Some? ==> detector.config == config.touchdown.value
    }

    /** The step of an event happened, and its actions were appended. */
    twostate predicate Did(e: Event)
      reads this, detector
    {
      var (next, done) := Step(config, old(Abstract()), e);
      Abstract() == next && actions == old(actions) + done
    }

    constructor (config: Config)
      ensures Valid() && this.config == config && Abstract() == START && actions == [] && fresh(detector)
    {
      this.config := config;
      detector := new Touchdown.TouchdownDetector(
        if config.touchdown.Some? then config.touchdown.value else Touchdown.Config(16.0, 0.3, 0.3, 2, 0.25));
      fault, vehicle, rc := Fault(OK, []), Vehicle(false, "", None, false, false), [];
      session, killed, lastManual := NO_SESSION, false, None;
      inLand, touchdownFired, actions := false, false, [];
    }

    method HandleState(connected: bool, armed: bool, mode: string, now: real)
      modifies this
      ensures Did(OnState(connected, armed, mode, now))
    {
      var previous := vehicle;
      vehicle := Vehicle(armed, mode, Some(now), connected, true);
      if !previous.initialized {
        if armed {
          session := NO_SESSION;
        }
        return;
      }
      if armed != previous.armed {
        session := NO_SESSION;
      } else if previous.mode == "OFFBOARD" && mode != "OFFBOARD" {
        session := NO_SESSION;
      }
    }

    method HandleFault(fault: Fault)
      modifies this
      ensures Did(OnFault(fault))
    {
      this.fault := fault;
    }

    method HandleRc(channels: seq<int>)
      modifies this
      ensures Did(OnRc(channels))
    {
      rc := channels;
    }

    method HandleNormal(sp: Setpoint, now: real)
      modifies this
      ensures Did(OnNormal(sp, now))
    {
      session := session.(normal := Some(sp), stamp := now);
      if PX !in sp.ignored && sp.localFrame {
        var mask, yaw := HOLD_MASK, 0.0;
        if Yaw !in sp.ignored {
          yaw := sp.yaw;
        } else {
          mask := mask + {Yaw};
        }
        session := session.(idleHold := Some(Setpoint(true, mask, sp.position, ZERO, yaw)));
      }
    }

    method HandleImu(time: real, attitude: Touchdown.Quaternion, force: Vector, gyro: real)
      requires Valid()
      modifies this, detector
      ensures Did(OnImu(time, attitude, force, gyro))
    {
      if config.touchdown.Some? {
        var vert := Touchdown.WorldVert(attitude, force.x, force.y, force.z);
        var touchdown := detector.Update(Touchdown.Sample(time, vert, gyro, inLand));
        if touchdown && !touchdownFired {
          touchdownFired := true;
        }
      }
    }

    method RequestManual(now: real)
      modifies `actions, `lastManual
      ensures Abstract() == ToManual(old(Abstract()), now).0
      ensures actions == old(actions) + ToManual(old(Abstract()), now).1
    {
      if lastManual.None? || now - lastManual.value > 1.0 {
        actions := actions + [SetMode(now)];
        lastManual := Some(now);
      }
    }

    /** The tail of the tick: admission into the mode, then the setpoint stream. */
    method AdmitAndForward(now: real, current: bool)
      requires current == NormalFresh(config, session, now)
      modifies `actions, `lastManual, `session
      ensures Abstract() == Admit(config, old(Abstract()), now).0
      ensures actions == old(actions) + Admit(config, old(Abstract()), now).1
    {
      if !Manual(vehicle) && !session.admitted {
        if current {
          session := session.(admitted := true);
        } else {
          RequestManual(now);
          return;
        }
      }
      if current {
        actions := actions + [Publish(FromNormal, session.normal.value)];
      } else if config.idleHold && session.idleHold.Some? {
        actions := actions + [Publish(FromIdleHold, session.idleHold.value)];
      }
    }

    /** Everything the tick does after it has reported the lane. */
    method Act(now: real)
      modifies `actions, `lastManual, `session, `killed
      ensures Abstract() == Actuate(config, old(Abstract()), now).0
      ensures actions == old(actions) + Actuate(config, old(Abstract()), now).1
    {
      if killed || KillSwitch(config, rc) {
        return;
      }
      if !Manual(vehicle) && (vehicle.armed || !config.requireArmed) {
        if fault.level >= ERROR || touchdownFired {
          killed := true;
          actions := actions + [Kill];
          return;
        }
        if fault.level >= WARN {
          actions := actions + [Publish(FromLand, LandSetpoint(config))];
          return;
        }
      }
      AdmitAndForward(now, NormalFresh(config, session, now));
    }

    method DoTick(now: real)
      modifies this
      ensures Did(Tick(now))
      ensures old(Calm(config, Abstract()) && NormalFresh(config, session, now)) ==>
                && session == old(session).(admitted := old(session).admitted || !Manual(old(vehicle)))
                && actions == old(actions) +
                   [Report(ChooseLane(config, old(Abstract())), old(fault.level)),
                    Publish(FromNormal, old(session).normal.value)]
      ensures old(Calm(config, Abstract()) && !NormalFresh(config, session, now) &&
                  (Manual(vehicle) || session.admitted)) ==>
                && session == old(session)
                && actions == old(actions) +
                   if config.idleHold && old(session).idleHold.Some?
                   then [Report(ChooseLane(config, old(Abstract())), old(fault.level)),
                         Publish(FromIdleHold, old(session).idleHold.value)]
                   else [Report(ChooseLane(config, old(Abstract())), old(fault.level))]
    {
      ghost var before := Abstract();
      TickActs(now);
      if Calm(config, before) &&
         (NormalFresh(config, before.session, now) || Manual(before.vehicle) || before.session.admitted) {
        CalmTickStreams(config, before, now);
      }
    }

    method TickActs(now: real)
      modifies this
      ensures Did(Tick(now))
    {
      var kill, manual := KillSwitch(config, rc), Manual(vehicle);
      var lane := if kill || killed then KillLane else if manual then ManualLane else LaneOf(fault.level);
      inLand := lane == LandLane && vehicle.armed;
      if !inLand {
        touchdownFired := false;
      }
      actions := actions + [Report(lane, fault.level)];
      Act(now);
    }

    method HandleTermination(now: real, acknowledged: bool) returns (accepted: bool)
      modifies this
      ensures Did(RequestTermination(now, acknowledged))
      ensures accepted <==> MayTerminate(config, old(Abstract()), now) && acknowledged
    {
      var recent := vehicle.received.Some? && 0.0 <= now - vehicle.received.value < 2.0;
      if !config.allowTermination {
        return false;
      }
      if !(recent && vehicle.connected && vehicle.armed && vehicle.mode == "OFFBOARD" && !Manual(vehicle) &&
           session.admitted && NormalFresh(config, session, now)) {
        return false;
      }
      if killed || KillSwitch(config, rc) {
        return false;
      }
      actions := actions + [Kill];
      if !acknowledged {
        return false;
      }
      killed := true;
      return true;
    }
  }
}
