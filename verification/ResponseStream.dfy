/**
 What the response node does for the planner: which event each stored value goes back to, and exactly what a tick then
 sends.
 */
module ResponseStream {
  import opened Basics
  import opened Levels
  import opened Response
  import opened ResponseRuns

  // ---------------------------------------------------------------- the last message of each kind

  /** Event i is the last state message of the run. */
  ghost predicate LastStateAt(events: seq<Event>, i: nat) {
    i < |events| && events[i].OnState? && forall k | i < k < |events| :: !events[k].OnState?
  }

  predicate NoState(events: seq<Event>) {
    forall k | 0 <= k < |events| :: !events[k].OnState?
  }

  lemma VehicleStep(c: Config, s: State, e: Event)
    ensures Step(c, s, e).0.vehicle ==
            if e.OnState? then Vehicle(e.armed, e.mode, Some(e.now), e.connected, true) else s.vehicle
  {
  }

  /** The vehicle is what the last state message said. */
  lemma {:induction false} VehicleIsLastState(c: Config, events: seq<Event>, i: nat)
    requires LastStateAt(events, i)
    ensures After(c, events).vehicle ==
            Vehicle(events[i].armed, events[i].mode, Some(events[i].now), events[i].connected, true)
  {
    var n := |events| - 1;
    VehicleStep(c, After(c, events[..n]), events[n]);
    if i < n {
      VehicleIsLastState(c, events[..n], i);
    }
  }

  lemma {:induction false} VehicleIsUnknown(c: Config, events: seq<Event>)
    requires NoState(events)
    ensures After(c, events).vehicle == START.vehicle
  {
    if events != [] {
      var n := |events| - 1;
      VehicleStep(c, After(c, events[..n]), events[n]);
      VehicleIsUnknown(c, events[..n]);
    }
  }

  /** Event i is the last verdict of the monitor. */
  ghost predicate LastFaultAt(events: seq<Event>, i: nat) {
    i < |events| && events[i].OnFault? && forall k | i < k < |events| :: !events[k].OnFault?
  }

  /** Event i is the last radio message. */
  ghost predicate LastRcAt(events: seq<Event>, i: nat) {
    i < |events| && events[i].OnRc? && forall k | i < k < |events| :: !events[k].OnRc?
  }

  lemma InputStep(c: Config, s: State, e: Event)
    ensures Step(c, s, e).0.fault == if e.OnFault? then e.fault else s.fault
    ensures Step(c, s, e).0.rc == if e.OnRc? then e.channels else s.rc
  {
  }

  /** The node acts on the last verdict and the last radio channels it was sent. */
  lemma {:induction false} InputsAreLast(c: Config, events: seq<Event>, i: nat)
    ensures LastFaultAt(events, i) ==> After(c, events).fault == events[i].fault
    ensures LastRcAt(events, i) ==> After(c, events).rc == events[i].channels
  {
    if events != [] && i < |events| {
      var n := |events| - 1;
      InputStep(c, After(c, events[..n]), events[n]);
      if i < n {
        InputsAreLast(c, events[..n], i);
        assert LastFaultAt(events, i) ==> LastFaultAt(events[..n], i);
        assert LastRcAt(events, i) ==> LastRcAt(events[..n], i);
      }
    }
  }

  /** The control session ends at arm edges and at leaving OFFBOARD. */
  lemma ResetIsEdge(c: Config, events: seq<Event>, i: nat, e: Event)
    requires e.OnState? && LastStateAt(events, i)
    ensures Resets(After(c, events), e)
            <==> e.armed != events[i].armed || (events[i].mode == "OFFBOARD" && e.mode != "OFFBOARD")
    ensures After(c, events + [e]).session ==
            if Resets(After(c, events), e) then NO_SESSION else After(c, events).session
  {
    VehicleIsLastState(c, events, i);
    RunStep(c, events, e);
    SessionChanges(c, After(c, events), e);
  }

  /** The first state message starts a new session if it says armed. */
  lemma FirstStateResets(c: Config, events: seq<Event>, e: Event)
    requires e.OnState? && NoState(events)
    ensures Resets(After(c, events), e) <==> e.armed
    ensures e.armed ==> After(c, events + [e]).session == NO_SESSION
  {
    VehicleIsUnknown(c, events);
    RunStep(c, events, e);
    SessionChanges(c, After(c, events), e);
  }

  /** Event i delivered the last Normal of the session. */
  ghost predicate LastNormalAt(c: Config, events: seq<Event>, i: nat) {
    && SessionStart(c, events) <= i < |events| && events[i].OnNormal?
    && forall k | i < k < |events| :: !events[k].OnNormal?
  }

  /** Event i delivered the last Normal of the session that carries a local position. */
  ghost predicate LastHoldAt(c: Config, events: seq<Event>, i: nat) {
    && SessionStart(c, events) <= i < |events| && events[i].OnNormal? && CarriesPosition(events[i].setpoint)
    && forall k | i < k < |events| && events[k].OnNormal? :: !CarriesPosition(events[k].setpoint)
  }

  /** The stored Normal is the last one delivered in this session, under its own arrival time. */
  lemma {:induction false} StoredNormalIsLast(c: Config, events: seq<Event>, i: nat)
    requires LastNormalAt(c, events, i)
    ensures After(c, events).session.normal == Some(events[i].setpoint)
    ensures After(c, events).session.stamp == events[i].now
  {
    var n := |events| - 1;
    SessionChanges(c, After(c, events[..n]), events[n]);
    if i < n {
      StoredNormalIsLast(c, events[..n], i);
    }
  }

  lemma {:induction false} StoredHoldIsLast(c: Config, events: seq<Event>, i: nat)
    requires LastHoldAt(c, events, i)
    ensures After(c, events).session.idleHold == Some(HoldOf(events[i].setpoint))
  {
    var n := |events| - 1;
    SessionChanges(c, After(c, events[..n]), events[n]);
    if i < n {
      StoredHoldIsLast(c, events[..n], i);
    }
  }

  /** A session that was sent no Normal, or none with a position, stores none. */
  lemma {:induction false} NothingStored(c: Config, events: seq<Event>)
    ensures (forall k | SessionStart(c, events) <= k < |events| :: !events[k].OnNormal?) ==>
              After(c, events).session.normal.None?
    ensures (forall k | SessionStart(c, events) <= k < |events| && events[k].OnNormal? ::
              !CarriesPosition(events[k].setpoint)) ==>
              After(c, events).session.idleHold.None?
  {
    if events != [] {
      var n := |events| - 1;
      NothingStored(c, events[..n]);
      SessionChanges(c, After(c, events[..n]), events[n]);
    }
  }

  /** The hold commands the position, the yaw if the Normal commanded it, and nothing else. */
  lemma HoldCommands(sp: Setpoint)
    ensures var hold := HoldOf(sp);
            && hold.localFrame && hold.position == sp.position
            && (Yaw !in sp.ignored ==> hold.yaw == sp.yaw)
            && forall f: Field :: f !in hold.ignored <==> f in {PX, PY, PZ} || (f == Yaw && Yaw !in sp.ignored)
  {
  }

  /** The landing setpoint commands a velocity straight down, no yaw rate, and nothing else. */
  lemma LandCommands(c: Config)
    ensures var land := LandSetpoint(c);
            && land.localFrame && land.velocity == Vector(0.0, 0.0, -c.descend)
            && forall f: Field :: f !in land.ignored <==> f in {VX, VY, VZ, YawRate}
  {
    forall f: Field
      ensures f !in VELOCITY_MASK <==> f in {VX, VY, VZ, YawRate}
    {
      assert f.PX? || f.PY? || f.PZ? || f.VX? || f.VY? || f.VZ? || f.AFX? || f.AFY? || f.AFZ? || f.Yaw? || f.YawRate?;
    }
  }

  // ---------------------------------------------------------------- admission

  /** Some Normal of the session is between zero and the timeout old. */
  ghost predicate FreshNormalAt(c: Config, events: seq<Event>, i: nat, now: real) {
    LastNormalAt(c, events, i) && 0.0 <= now - events[i].now < c.normalTimeout
  }

  ghost predicate HasFresh(c: Config, events: seq<Event>, now: real) {
    exists i: nat :: FreshNormalAt(c, events, i, now)
  }

  lemma {:induction false} LastNormalExists(c: Config, events: seq<Event>) returns (i: nat)
    requires After(c, events).session.normal.Some?
    ensures LastNormalAt(c, events, i)
  {
    var n := |events| - 1;
    SessionChanges(c, After(c, events[..n]), events[n]);
    if events[n].OnNormal? {
      i := n;
    } else {
      i := LastNormalExists(c, events[..n]);
    }
  }

  /** The freshness test of the code is that of the last Normal delivered in the session. */
  lemma FreshIsLastNormal(c: Config, events: seq<Event>, now: real)
    ensures NormalFresh(c, After(c, events).session, now) <==> HasFresh(c, events, now)
  {
    if HasFresh(c, events, now) {
      var i: nat :| FreshNormalAt(c, events, i, now);
      StoredNormalIsLast(c, events, i);
    }
    if NormalFresh(c, After(c, events).session, now) {
      var i := LastNormalExists(c, events);
      StoredNormalIsLast(c, events, i);
      assert FreshNormalAt(c, events, i, now);
    }
  }

  /** Event i is a tick in OFFBOARD with nothing else to do, and with a fresh Normal of its session. */
  ghost predicate AdmitsAt(c: Config, events: seq<Event>, i: nat) {
    && i < |events| && events[i].Tick?
    && Calm(c, After(c, events[..i])) && !Manual(After(c, events[..i]).vehicle)
    && HasFresh(c, events[..i], events[i].now)
  }

  ghost predicate AdmittedSince(c: Config, events: seq<Event>, start: nat) {
    exists i: nat :: start <= i && AdmitsAt(c, events, i)
  }

  lemma TickAdmits(c: Config, s: State, now: real)
    ensures TickStep(c, s, now).0.session.admitted
            <==> s.session.admitted || (Calm(c, s) && !Manual(s.vehicle) && NormalFresh(c, s.session, now))
  {
  }

  lemma AdmittedStep(c: Config, events: seq<Event>, e: Event, start: nat)
    requires start <= |events|
    ensures AdmittedSince(c, events + [e], start)
            <==> AdmittedSince(c, events, start) || AdmitsAt(c, events + [e], |events|)
  {
    var longer := events + [e];
    forall i: nat | i < |events|
      ensures AdmitsAt(c, longer, i) <==> AdmitsAt(c, events, i)
    {
      assert longer[..i] == events[..i];
    }
  }

  lemma AdmissionStep(c: Config, events: seq<Event>, e: Event)
    requires After(c, events).session.admitted <==> AdmittedSince(c, events, SessionStart(c, events))
    ensures After(c, events + [e]).session.admitted
            <==> AdmittedSince(c, events + [e], SessionStart(c, events + [e]))
  {
    var s, start := After(c, events), SessionStart(c, events);
    RunStep(c, events, e);
    SessionChanges(c, s, e);
    assert (events + [e])[..|events|] == events;
    AdmittedStep(c, events, e, start);
    if e.Tick? {
      TickAdmits(c, s, e.now);
      FreshIsLastNormal(c, events, e.now);
    }
  }

  /** The session is admitted exactly when a calm OFFBOARD tick since its start saw a fresh Normal of it. */
  lemma {:induction false} AdmissionIsEarned(c: Config, events: seq<Event>)
    ensures After(c, events).session.admitted <==> AdmittedSince(c, events, SessionStart(c, events))
  {
    if events != [] {
      var n := |events| - 1;
      AdmissionIsEarned(c, events[..n]);
      AdmissionStep(c, events[..n], events[n]);
      assert events == events[..n] + [events[n]];
    }
  }

  // ---------------------------------------------------------------- what a calm tick sends

  lemma CalmTick(c: Config, s: State, now: real)
    requires Calm(c, s)
    ensures TickStep(c, s, now).1 ==
            [Report(ChooseLane(c, s), s.fault.level)] + Admit(c, Observe(c, s), now).1
    ensures s.fault.level == OK ==> ChooseLane(c, s) == if Manual(s.vehicle) then ManualLane else NormalLane
  {
  }

  /** After a force-disarm, or with the pilot's switch on, a tick reports the kill lane and does nothing else. */
  lemma OverriddenTick(c: Config, events: seq<Event>, now: real)
    requires var s := After(c, events);
             s.killed || (c.killChannel < |s.rc| && s.rc[c.killChannel] as real > c.killUs)
    ensures Done(c, events + [Tick(now)]) == [Report(KillLane, After(c, events).fault.level)]
  {
    RunStep(c, events, Tick(now));
  }

  /** The last Normal of the session is passed on while it is fresh, and admits the session in OFFBOARD. */
  lemma FreshNormalIsForwarded(c: Config, events: seq<Event>, i: nat, now: real)
    requires Calm(c, After(c, events)) && FreshNormalAt(c, events, i, now)
    ensures var s := After(c, events);
            && Done(c, events + [Tick(now)]) ==
               [Report(ChooseLane(c, s), s.fault.level), Publish(FromNormal, events[i].setpoint)]
            && (s.fault.level == OK ==> ChooseLane(c, s) == if Manual(s.vehicle) then ManualLane else NormalLane)
            && (!Manual(s.vehicle) ==> After(c, events + [Tick(now)]).session.admitted)
  {
    var s := After(c, events);
    RunStep(c, events, Tick(now));
    StoredNormalIsLast(c, events, i);
    CalmTick(c, s, now);
    TickAdmits(c, s, now);
  }

  /** Without a fresh Normal, an admitted session, or the pilot's mode, gets the hold of the last position, if any. */
  lemma StaleNormalIsHeld(c: Config, events: seq<Event>, now: real)
    requires Calm(c, After(c, events)) && !HasFresh(c, events, now)
    requires Manual(After(c, events).vehicle) || AdmittedSince(c, events, SessionStart(c, events))
    ensures var s := After(c, events);
            && (forall j: nat | c.idleHold && LastHoldAt(c, events, j) ::
                  Done(c, events + [Tick(now)]) ==
                  [Report(ChooseLane(c, s), s.fault.level), Publish(FromIdleHold, HoldOf(events[j].setpoint))])
            && (!c.idleHold || (forall j: nat :: !LastHoldAt(c, events, j)) ==>
                  Done(c, events + [Tick(now)]) == [Report(ChooseLane(c, s), s.fault.level)])
  {
    var s := After(c, events);
    RunStep(c, events, Tick(now));
    FreshIsLastNormal(c, events, now);
    AdmissionIsEarned(c, events);
    CalmTick(c, s, now);
    forall j: nat | LastHoldAt(c, events, j)
      ensures s.session.idleHold == Some(HoldOf(events[j].setpoint))
    {
      StoredHoldIsLast(c, events, j);
    }
    if s.session.idleHold.Some? {
      var j := LastHoldExists(c, events);
    }
  }

  lemma {:induction false} LastHoldExists(c: Config, events: seq<Event>) returns (i: nat)
    requires After(c, events).session.idleHold.Some?
    ensures LastHoldAt(c, events, i)
  {
    var n := |events| - 1;
    SessionChanges(c, After(c, events[..n]), events[n]);
    if events[n].OnNormal? && CarriesPosition(events[n].setpoint) {
      i := n;
    } else {
      i := LastHoldExists(c, events[..n]);
    }
  }

  /** What the requests of a run, at most one a second, leave for a tick that asks for the manual mode. */
  function Asked(last: Option<real>, now: real): seq<Action> {
    if last.Some? && now - last.value <= 1.0 then [] else [SetMode(now)]
  }

  lemma UnadmittedTick(c: Config, s: State, now: real)
    requires Calm(c, s) && !NormalFresh(c, s.session, now) && !Manual(s.vehicle) && !s.session.admitted
    ensures TickStep(c, s, now).1 == [Report(ChooseLane(c, s), s.fault.level)] + Asked(s.lastManual, now)
  {
    CalmTick(c, s, now);
  }

  /** A session not admitted, in OFFBOARD without a fresh Normal: no setpoint, and the manual mode asked for. */
  lemma UnadmittedAsksForManual(c: Config, events: seq<Event>, now: real)
    requires Calm(c, After(c, events)) && !HasFresh(c, events, now)
    requires !Manual(After(c, events).vehicle) && !AdmittedSince(c, events, SessionStart(c, events))
    ensures Done(c, events + [Tick(now)]) ==
            [Report(ChooseLane(c, After(c, events)), After(c, events).fault.level)] +
            Asked(Latest(RequestTimes(c, events)), now)
  {
    RunStep(c, events, Tick(now));
    FreshIsLastNormal(c, events, now);
    AdmissionIsEarned(c, events);
    RequestsAreRemembered(c, events);
    UnadmittedTick(c, After(c, events), now);
  }
}
