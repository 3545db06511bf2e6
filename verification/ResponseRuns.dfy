/** Safety of the response node over every interleaving of its callbacks. */
module ResponseRuns {
  import opened Basics
  import opened Levels
  import opened Response
  import Touchdown

  /** The state after a run from the start. */
  function After(c: Config, events: seq<Event>): State {
    if events == [] then START else Step(c, After(c, events[..|events| - 1]), events[|events| - 1]).0
  }

  /** What the last event of the run did. */
  function Done(c: Config, events: seq<Event>): seq<Action> {
    if events == [] then [] else Step(c, After(c, events[..|events| - 1]), events[|events| - 1]).1
  }

  lemma RunStep(c: Config, events: seq<Event>, e: Event)
    ensures After(c, events + [e]) == Step(c, After(c, events), e).0
    ensures Done(c, events + [e]) == Step(c, After(c, events), e).1
  {
    assert (events + [e])[..|events|] == events;
  }

  // ---------------------------------------------------------------- kill authority

  predicate OnlyReports(actions: seq<Action>) {
    forall i | 0 <= i < |actions| :: actions[i].Report?
  }

  lemma KilledStep(c: Config, s: State, e: Event)
    requires s.killed
    ensures Step(c, s, e).0.killed && OnlyReports(Step(c, s, e).1)
  {
  }

  /** Once latched, the force-disarm never clears, and nothing but lane reports is ever emitted again. */
  lemma {:induction false} KilledIsFinal(c: Config, events: seq<Event>, more: seq<Event>)
    requires After(c, events).killed
    ensures After(c, events + more).killed
    ensures more != [] ==> OnlyReports(Done(c, events + more))
    decreases |more|
  {
    if more == [] {
      assert events + more == events;
    } else {
      var n := |more| - 1;
      KilledIsFinal(c, events, more[..n]);
      assert events + more == (events + more[..n]) + [more[n]];
      RunStep(c, events + more[..n], more[n]);
      KilledStep(c, After(c, events + more[..n]), more[n]);
    }
  }

  /** A confirmed touchdown counts only while this very tick sees the landing lane and an armed vehicle. */
  predicate TouchdownStands(s: State) {
    s.touchdownFired && s.fault.level == WARN && s.vehicle.armed
  }

  /** A tick force-disarms exactly when this node owns the vehicle and the fault is an error or a touchdown stands. */
  lemma TickKillsIff(c: Config, s: State, now: real)
    ensures Kill in TickStep(c, s, now).1 <==> Owns(c, s) && (s.fault.level >= ERROR || TouchdownStands(s))
    ensures Kill in TickStep(c, s, now).1 ==> TickStep(c, s, now).0.killed
  {
  }

  /**
   The lane a force-disarming tick reports: the kill lane exactly for an error, the landing lane for a touchdown,
   and the normal lane for a level the policy table does not list.
   */
  lemma LaneOfKillingTick(c: Config, s: State, now: real)
    requires Kill in TickStep(c, s, now).1
    ensures TickStep(c, s, now).1 == [Report(ChooseLane(c, s), s.fault.level), Kill]
    ensures ChooseLane(c, s) == KillLane <==> s.fault.level == ERROR
    ensures ChooseLane(c, s) == LandLane <==> s.fault.level < ERROR
    ensures ChooseLane(c, s) == NormalLane <==> s.fault.level > ERROR
  {
    TickKillsIff(c, s, now);
  }

  lemma TerminationKillsIff(c: Config, s: State, now: real, acknowledged: bool)
    ensures Kill in TerminateStep(c, s, now, acknowledged).1 <==> MayTerminate(c, s, now)
    ensures TerminateStep(c, s, now, acknowledged).0.killed <==> s.killed || (MayTerminate(c, s, now) && acknowledged)
  {
  }

  /** In every run, each force-disarm is a tick with authority or an admissible request; none comes with a setpoint. */
  lemma EveryKillIsAuthorized(c: Config, events: seq<Event>, e: Event)
    requires Kill in Done(c, events + [e])
    ensures var s := After(c, events);
            && !s.killed && !KillSwitch(c, s.rc) && !Manual(s.vehicle)
            && (e.Tick? || e.RequestTermination?)
            && (e.Tick? ==> (s.vehicle.armed || !c.requireArmed) && (s.fault.level >= ERROR || TouchdownStands(s)))
            && (e.RequestTermination? ==> MayTerminate(c, s, e.now))
    ensures forall i | 0 <= i < |Done(c, events + [e])| :: !Done(c, events + [e])[i].Publish?
  {
    RunStep(c, events, e);
    if e.Tick? {
      TickKillsIff(c, After(c, events), e.now);
    } else if e.RequestTermination? {
      TerminationKillsIff(c, After(c, events), e.now, e.acknowledged);
    }
  }

  // ---------------------------------------------------------------- mode requests

  /** The time of the mode request the actions hold, if any. */
  function RequestIn(actions: seq<Action>): Option<real> {
    if actions == [] then None
    else if actions[|actions| - 1].SetMode? then Some(actions[|actions| - 1].time)
    else RequestIn(actions[..|actions| - 1])
  }

  lemma RequestBesideReport(report: Action, done: seq<Action>)
    requires report.Report? && |done| <= 1
    ensures RequestIn([report] + done) == if |done| == 1 && done[0].SetMode? then Some(done[0].time) else None
  {
    assert RequestIn([]) == None && RequestIn([report]) == None by {
      assert [report][..0] == [];
    }
    assert [report] + done == if |done| == 1 then [report, done[0]] else [report];
    assert |done| == 1 ==> [report, done[0]][..1] == [report];
  }

  lemma RequestStep(c: Config, s: State, e: Event)
    ensures var (next, done) := Step(c, s, e);
            && next.lastManual == (if RequestIn(done).Some? then RequestIn(done) else s.lastManual)
            && (RequestIn(done).Some? && s.lastManual.Some? ==> RequestIn(done).value - s.lastManual.value > 1.0)
  {
    if e.Tick? {
      var observed := Observe(c, s);
      var done := Actuate(c, observed, e.now).1;
      var report := Report(ChooseLane(c, s), s.fault.level);
      RequestBesideReport(report, done);
    }
  }

  /** For each event of the run, the time of the mode request it made, if any. */
  function RequestTimes(c: Config, events: seq<Event>): (times: seq<Option<real>>)
    ensures |times| == |events|
  {
    if events == [] then [] else RequestTimes(c, events[..|events| - 1]) + [RequestIn(Done(c, events))]
  }

  function Latest(times: seq<Option<real>>): Option<real> {
    if times == [] then None
    else if times[|times| - 1].Some? then times[|times| - 1]
    else Latest(times[..|times| - 1])
  }

  /** Each request is more than a second after the one before it. */
  ghost predicate Spaced(times: seq<Option<real>>) {
    forall k: nat | k < |times| && times[k].Some? && Latest(times[..k]).Some? ::
      times[k].value - Latest(times[..k]).value > 1.0
  }

  lemma SpacedStep(times: seq<Option<real>>, next: Option<real>)
    requires Spaced(times) && (next.Some? && Latest(times).Some? ==> next.value - Latest(times).value > 1.0)
    ensures Spaced(times + [next]) && Latest(times + [next]) == if next.Some? then next else Latest(times)
  {
    var longer := times + [next];
    assert longer[..|times|] == times;
    assert forall k: nat | k < |times| :: longer[..k] == times[..k];
  }

  lemma {:induction false} RequestsAreRemembered(c: Config, events: seq<Event>)
    ensures After(c, events).lastManual == Latest(RequestTimes(c, events))
    ensures Spaced(RequestTimes(c, events))
  {
    if events != [] {
      var n := |events| - 1;
      RequestsAreRemembered(c, events[..n]);
      RequestStep(c, After(c, events[..n]), events[n]);
      SpacedStep(RequestTimes(c, events[..n]), RequestIn(Done(c, events)));
    }
  }

  lemma {:induction false} LatestAdvances(times: seq<Option<real>>, i: nat, j: nat)
    requires Spaced(times) && i < j <= |times| && times[i].Some?
    ensures Latest(times[..j]).Some? && Latest(times[..j]).value >= times[i].value
    decreases j
  {
    assert times[..j][..j - 1] == times[..j - 1];
    if i < j - 1 {
      LatestAdvances(times, i, j - 1);
    }
  }

  /** Any two mode requests of a run are more than a second apart. */
  lemma ModeRequestsAreSpaced(c: Config, events: seq<Event>, i: nat, j: nat)
    requires i < j < |events| && RequestTimes(c, events)[i].Some? && RequestTimes(c, events)[j].Some?
    ensures RequestTimes(c, events)[j].value - RequestTimes(c, events)[i].value > 1.0
  {
    RequestsAreRemembered(c, events);
    LatestAdvances(RequestTimes(c, events), i, j);
  }

  // ---------------------------------------------------------------- control sessions

  predicate Resets(s: State, e: Event) {
    e.OnState? && StartsSession(s.vehicle, e.armed, e.mode)
  }

  /** The number of events up to and including the last session reset. */
  function SessionStart(c: Config, events: seq<Event>): (k: nat)
    ensures k <= |events|
  {
    if events == [] then 0
    else
      var n := |events| - 1;
      if Resets(After(c, events[..n]), events[n]) then |events| else SessionStart(c, events[..n])
  }

  /** Event i delivered the Normal now stored. */
  ghost predicate Delivers(events: seq<Event>, i: nat, sp: Setpoint, stamp: real) {
    i < |events| && events[i] == OnNormal(sp, stamp)
  }

  /** Event i delivered a Normal whose position hold this is. */
  ghost predicate Latches(events: seq<Event>, i: nat, hold: Setpoint) {
    i < |events| && events[i].OnNormal? && CarriesPosition(events[i].setpoint) && HoldOf(events[i].setpoint) == hold
  }

  /** Event i is a tick that saw a fresh Normal. */
  ghost predicate SawFresh(c: Config, events: seq<Event>, i: nat) {
    i < |events| && events[i].Tick? && NormalFresh(c, After(c, events[..i]).session, events[i].now)
  }

  /** Everything the session stores came from events after its start. */
  ghost predicate SessionIsOwn(c: Config, events: seq<Event>, s: Session, start: nat) {
    && (s.normal.Some? ==> exists i | start <= i < |events| :: Delivers(events, i, s.normal.value, s.stamp))
    && (s.idleHold.Some? ==> exists i | start <= i < |events| :: Latches(events, i, s.idleHold.value))
    && (s.admitted ==> exists i | start <= i < |events| :: SawFresh(c, events, i))
  }

  lemma SessionIsKept(c: Config, events: seq<Event>, e: Event, s: Session, start: nat)
    requires SessionIsOwn(c, events, s, start)
    ensures SessionIsOwn(c, events + [e], s, start)
  {
    var longer := events + [e];
    if s.normal.Some? {
      var i :| start <= i < |events| && Delivers(events, i, s.normal.value, s.stamp);
      assert Delivers(longer, i, s.normal.value, s.stamp);
    }
    if s.idleHold.Some? {
      var i :| start <= i < |events| && Latches(events, i, s.idleHold.value);
      assert Latches(longer, i, s.idleHold.value);
    }
    if s.admitted {
      var i :| start <= i < |events| && SawFresh(c, events, i);
      assert longer[..i] == events[..i];
      assert SawFresh(c, longer, i);
    }
  }

  /** Which events touch the session, and how. */
  lemma SessionChanges(c: Config, s: State, e: Event)
    ensures var next := Step(c, s, e).0.session;
            && (e.OnNormal? ==> next == NormalStep(s.session, e.setpoint, e.now))
            && (e.OnState? ==> next == if Resets(s, e) then NO_SESSION else s.session)
            && (e.Tick? ==>
                  next == s.session || (next == s.session.(admitted := true) && NormalFresh(c, s.session, e.now)))
            && (!e.OnNormal? && !e.OnState? && !e.Tick? ==> next == s.session)
  {
  }

  lemma SessionStep(c: Config, events: seq<Event>, e: Event)
    requires SessionIsOwn(c, events, After(c, events).session, SessionStart(c, events))
    ensures SessionIsOwn(c, events + [e], After(c, events + [e]).session, SessionStart(c, events + [e]))
  {
    var s, start, longer := After(c, events), SessionStart(c, events), events + [e];
    RunStep(c, events, e);
    SessionChanges(c, s, e);
    assert longer[..|events|] == events;
    SessionIsKept(c, events, e, s.session, start);
    if e.OnNormal? {
      assert Delivers(longer, |events|, e.setpoint, e.now);
      if CarriesPosition(e.setpoint) {
        assert Latches(longer, |events|, HoldOf(e.setpoint));
      }
    }
    if e.Tick? && NormalFresh(c, s.session, e.now) {
      assert SawFresh(c, longer, |events|);
    }
  }

  /** In every run, the stored Normal, its hold and the admission all come from events after the last session reset. */
  lemma {:induction false} SessionsAreSeparate(c: Config, events: seq<Event>)
    ensures SessionIsOwn(c, events, After(c, events).session, SessionStart(c, events))
  {
    if events != [] {
      var n := |events| - 1;
      SessionsAreSeparate(c, events[..n]);
      SessionStep(c, events[..n], events[n]);
      assert events == events[..n] + [events[n]];
    }
  }

  lemma TickForwards(c: Config, s: State, now: real, source: Source, sp: Setpoint)
    requires Publish(source, sp) in TickStep(c, s, now).1
    ensures source == FromNormal ==> s.session.normal == Some(sp) && NormalFresh(c, s.session, now)
    ensures source == FromIdleHold ==> s.session.idleHold == Some(sp) && (Manual(s.vehicle) || s.session.admitted)
  {
  }

  lemma StoredNormalIsOwn(c: Config, events: seq<Event>, sp: Setpoint) returns (i: nat)
    requires After(c, events).session.normal == Some(sp)
    ensures SessionStart(c, events) <= i < |events| && Delivers(events, i, sp, After(c, events).session.stamp)
  {
    SessionsAreSeparate(c, events);
    i :| SessionStart(c, events) <= i < |events| && Delivers(events, i, sp, After(c, events).session.stamp);
  }

  lemma StoredHoldIsOwn(c: Config, events: seq<Event>, sp: Setpoint) returns (i: nat)
    requires After(c, events).session.idleHold == Some(sp)
    ensures SessionStart(c, events) <= i < |events| && Latches(events, i, sp)
  {
    SessionsAreSeparate(c, events);
    i :| SessionStart(c, events) <= i < |events| && Latches(events, i, sp);
  }

  lemma AdmissionIsOwn(c: Config, events: seq<Event>) returns (i: nat)
    requires After(c, events).session.admitted
    ensures SessionStart(c, events) <= i < |events| && SawFresh(c, events, i)
  {
    SessionsAreSeparate(c, events);
    i :| SessionStart(c, events) <= i < |events| && SawFresh(c, events, i);
  }

  /** A Normal reaches the autopilot only fresh, and from the current session. */
  lemma ForwardedNormalIsOwn(c: Config, events: seq<Event>, now: real, sp: Setpoint) returns (i: nat, stamp: real)
    requires Publish(FromNormal, sp) in Done(c, events + [Tick(now)])
    ensures SessionStart(c, events) <= i < |events| && Delivers(events, i, sp, stamp)
    ensures 0.0 <= now - stamp < c.normalTimeout
  {
    RunStep(c, events, Tick(now));
    TickForwards(c, After(c, events), now, FromNormal, sp);
    i := StoredNormalIsOwn(c, events, sp);
    stamp := After(c, events).session.stamp;
  }

  /** A hold reaches the autopilot in OFFBOARD only after a tick of the same session saw a fresh Normal. */
  lemma HoldNeedsEarlierNormal(c: Config, events: seq<Event>, now: real, sp: Setpoint) returns (i: nat, j: nat)
    requires Publish(FromIdleHold, sp) in Done(c, events + [Tick(now)]) && !Manual(After(c, events).vehicle)
    ensures SessionStart(c, events) <= i < |events| && SawFresh(c, events, i)
    ensures SessionStart(c, events) <= j < |events| && Latches(events, j, sp)
  {
    RunStep(c, events, Tick(now));
    TickForwards(c, After(c, events), now, FromIdleHold, sp);
    i := AdmissionIsOwn(c, events);
    j := StoredHoldIsOwn(c, events, sp);
  }

  // ---------------------------------------------------------------- touchdown

  /** The samples the detector has been fed. */
  function ImuHistory(c: Config, events: seq<Event>): seq<Touchdown.Sample> {
    if events == [] then []
    else
      var n := |events| - 1;
      var before, e := ImuHistory(c, events[..n]), events[n];
      if e.OnImu? then before + [ImuSample(After(c, events[..n]), e.time, e.attitude, e.force, e.gyro)] else before
  }

  /** The run up to n ends with the sample that reports a touchdown, and the descent has gone on since. */
  ghost predicate TouchedDownAt(c: Config, events: seq<Event>, n: nat) {
    && c.touchdown.Some? && 1 <= n <= |events| && events[n - 1].OnImu?
    && Touchdown.Reports(c.touchdown.value, ImuHistory(c, events[..n]))
    && LandingFrom(c, events, n)
  }

  ghost predicate DetectorAgrees(c: Config, events: seq<Event>) {
    && (c.touchdown.Some? ==> After(c, events).detector == Touchdown.After(c.touchdown.value, ImuHistory(c, events)))
    && (After(c, events).touchdownFired ==> exists n :: TouchedDownAt(c, events, n))
  }

  ghost predicate LandingFrom(c: Config, events: seq<Event>, n: nat) {
    forall m | n <= m <= |events| :: After(c, events[..m]).inLand
  }

  lemma LandingGoesOn(c: Config, events: seq<Event>, e: Event, n: nat)
    requires LandingFrom(c, events, n) && After(c, events + [e]).inLand
    ensures LandingFrom(c, events + [e], n)
  {
    var longer := events + [e];
    forall m | n <= m <= |longer|
      ensures After(c, longer[..m]).inLand
    {
      assert longer[..m] == if m <= |events| then events[..m] else longer;
    }
  }

  lemma TouchdownIsKept(c: Config, events: seq<Event>, e: Event, n: nat)
    requires TouchedDownAt(c, events, n) && After(c, events + [e]).inLand
    ensures TouchedDownAt(c, events + [e], n)
  {
    assert (events + [e])[..n] == events[..n];
    LandingGoesOn(c, events, e, n);
  }

  lemma TouchdownIsReported(c: Config, events: seq<Event>)
    requires c.touchdown.Some? && After(c, events).inLand && events != [] && events[|events| - 1].OnImu?
    requires Touchdown.Reports(c.touchdown.value, ImuHistory(c, events))
    ensures TouchedDownAt(c, events, |events|)
  {
    assert events[..|events|] == events;
  }

  lemma ImuReport(c: Config, events: seq<Event>, e: Event)
    requires c.touchdown.Some? && e.OnImu? && DetectorAgrees(c, events)
    ensures var s, sample := After(c, events), ImuSample(After(c, events), e.time, e.attitude, e.force, e.gyro);
            var (detector, touchdown) := Touchdown.Step(c.touchdown.value, s.detector, sample);
            && ImuHistory(c, events + [e]) == ImuHistory(c, events) + [sample]
            && detector == Touchdown.After(c.touchdown.value, ImuHistory(c, events + [e]))
            && touchdown == Touchdown.Reports(c.touchdown.value, ImuHistory(c, events + [e]))
            && (touchdown ==> s.inLand)
  {
    assert (events + [e])[..|events|] == events;
    var history := ImuHistory(c, events);
    var sample := ImuSample(After(c, events), e.time, e.attitude, e.force, e.gyro);
    assert (history + [sample])[..|history|] == history;
  }

  lemma FiredStep(c: Config, s: State, e: Event)
    ensures var next := Step(c, s, e).0;
            && (next.touchdownFired && s.touchdownFired && s.inLand ==> next.inLand)
            && (s.touchdownFired && next.inLand ==> next.touchdownFired)
            && (!e.OnImu? ==> next.detector == s.detector && (next.touchdownFired ==> s.touchdownFired))
            && (e.OnImu? ==> next.inLand == s.inLand)
  {
  }

  lemma StillTouchedDown(c: Config, events: seq<Event>, e: Event, n: nat)
    requires TouchedDownAt(c, events, n)
    requires After(c, events).touchdownFired && After(c, events + [e]).touchdownFired
    ensures TouchedDownAt(c, events + [e], n)
  {
    assert After(c, events).inLand by {
      assert events[..|events|] == events;
    }
    assert After(c, events + [e]).inLand by {
      RunStep(c, events, e);
      FiredStep(c, After(c, events), e);
    }
    TouchdownIsKept(c, events, e, n);
  }

  lemma ImuStepAgrees(c: Config, events: seq<Event>, e: Event)
    requires DetectorAgrees(c, events) && e.OnImu? && c.touchdown.Some?
    ensures DetectorAgrees(c, events + [e])
  {
    RunStep(c, events, e);
    ImuReport(c, events, e);
    if After(c, events + [e]).touchdownFired {
      if After(c, events).touchdownFired {
        var n :| TouchedDownAt(c, events, n);
        StillTouchedDown(c, events, e, n);
      } else {
        TouchdownIsReported(c, events + [e]);
      }
    }
  }

  lemma DetectorStep(c: Config, events: seq<Event>, e: Event)
    requires DetectorAgrees(c, events)
    ensures DetectorAgrees(c, events + [e])
  {
    if e.OnImu? && c.touchdown.Some? {
      ImuStepAgrees(c, events, e);
    } else {
      RunStep(c, events, e);
      FiredStep(c, After(c, events), e);
      assert c.touchdown.Some? ==> ImuHistory(c, events + [e]) == ImuHistory(c, events) by {
        assert (events + [e])[..|events|] == events;
      }
      if After(c, events + [e]).touchdownFired {
        var n :| TouchedDownAt(c, events, n);
        StillTouchedDown(c, events, e, n);
      }
    }
  }

  lemma {:induction false} DetectorFollowsHistory(c: Config, events: seq<Event>)
    ensures DetectorAgrees(c, events)
  {
    if events != [] {
      var n := |events| - 1;
      DetectorFollowsHistory(c, events[..n]);
      DetectorStep(c, events[..n], events[n]);
      assert events == events[..n] + [events[n]];
    }
  }

  lemma ReportedIsLatched(c: Config, events: seq<Event>, e: Event)
    requires c.touchdown.Some? && e.OnImu? && DetectorAgrees(c, events)
    requires Touchdown.Reports(c.touchdown.value, ImuHistory(c, events + [e]))
    ensures After(c, events + [e]).touchdownFired
  {
    RunStep(c, events, e);
    ImuReport(c, events, e);
  }

  lemma TouchedDownBefore(c: Config, events: seq<Event>, n: nat)
    requires TouchedDownAt(c, events, n) && n < |events|
    ensures TouchedDownAt(c, events[..|events| - 1], n) && After(c, events).inLand
  {
    var before := events[..|events| - 1];
    assert before[..n] == events[..n] && before[n - 1] == events[n - 1];
    assert events[..|events|] == events;
    forall m | n <= m <= |before|
      ensures After(c, before[..m]).inLand
    {
      assert before[..m] == events[..m];
    }
  }

  /** A reported touchdown stays latched while the descent goes on. */
  lemma {:induction false} TouchdownIsLatched(c: Config, events: seq<Event>, n: nat)
    requires TouchedDownAt(c, events, n)
    ensures After(c, events).touchdownFired
  {
    var last := |events| - 1;
    var before, e := events[..last], events[last];
    assert events == before + [e];
    if n == |events| {
      assert events[..n] == events;
      DetectorFollowsHistory(c, before);
      ReportedIsLatched(c, before, e);
    } else {
      TouchedDownBefore(c, events, n);
      TouchdownIsLatched(c, before, n);
      FiredStep(c, After(c, before), e);
    }
  }

  /** The touchdown that counts is a report of the descent still going on. */
  lemma LatchedExactly(c: Config, events: seq<Event>)
    ensures After(c, events).touchdownFired <==> exists n :: TouchedDownAt(c, events, n)
  {
    DetectorFollowsHistory(c, events);
    if n :| TouchedDownAt(c, events, n) {
      TouchdownIsLatched(c, events, n);
    }
  }

  /** Below error level the owner's tick force-disarms exactly after such a report, at level WARN, armed. */
  lemma TouchdownKillsExactly(c: Config, events: seq<Event>, now: real)
    requires After(c, events).fault.level < ERROR
    ensures Kill in Done(c, events + [Tick(now)])
            <==> var s := After(c, events);
                 Owns(c, s) && s.fault.level == WARN && s.vehicle.armed && exists n :: TouchedDownAt(c, events, n)
  {
    RunStep(c, events, Tick(now));
    TickKillsIff(c, After(c, events), now);
    LatchedExactly(c, events);
  }

  /**
   A force-disarm below error level in a tick is a touchdown: some earlier sample was, for samples in time order, the
   first confirmed impact of its descent, and the vehicle has been landing ever since.
   */
  lemma TouchdownKillIsConfirmed(c: Config, events: seq<Event>, now: real) returns (n: nat)
    requires Kill in Done(c, events + [Tick(now)]) && After(c, events).fault.level < ERROR
    ensures TouchedDownAt(c, events, n)
    ensures var history := ImuHistory(c, events[..n]);
            Touchdown.Ordered(Touchdown.Descent(history)) ==>
              Touchdown.FirstConfirmed(c.touchdown.value, Touchdown.Descent(history))
  {
    RunStep(c, events, Tick(now));
    TickKillsIff(c, After(c, events), now);
    DetectorFollowsHistory(c, events);
    n :| TouchedDownAt(c, events, n);
    var history := ImuHistory(c, events[..n]);
    if Touchdown.Ordered(Touchdown.Descent(history)) {
      Touchdown.ReportsAreFirstConfirmations(c.touchdown.value, history);
    }
  }
}
