/** The three layers together: an outage of the external pose alone lands the vehicle, and no fault force-disarms it. */
module Outage {
  import opened Basics
  import opened Levels
  import Monitor
  import Geofence
  import Consistency
  import Response
  import ResponseRuns

  datatype Config = Config(sources: seq<Monitor.Source>, response: Response.Config)

  /** The first-layer reporters at the moment they publish; localLevel is the liveness verdict on the local position. */
  datatype Reporters = Reporters(
    fence: Geofence.Config, poses: Geofence.Poses, pairing: Consistency.Config, pair: Option<Consistency.Pair>,
    localLevel: nat)

  datatype Event =
    | Diagnose(reporters: Reporters, statuses: seq<Monitor.Status>, now: real)
    | PublishFault(now: real)
    | Drive(event: Response.Event)

  datatype State = State(last: map<string, Monitor.Entry>, response: Response.State)

  ghost function Verdict(c: Config, s: State, now: real): Response.Fault {
    var level := Monitor.WorstLevel(c.sources, s.last, now);
    Response.Fault(level, if level > OK then Monitor.At(c.sources, s.last, now, level) else [])
  }

  ghost function Step(c: Config, s: State, e: Event): (State, seq<Response.Action>) {
    match e
    case Diagnose(_, statuses, now) => (s.(last := Monitor.Recording(s.last, c.sources, statuses, now)), [])
    case PublishFault(now) =>
      (s.(response := Response.Step(c.response, s.response, Response.OnFault(Verdict(c, s, now))).0), [])
    case Drive(event) =>
      var (response, actions) := Response.Step(c.response, s.response, event);
      (s.(response := response), actions)
  }

  ghost function After(c: Config, start: State, events: seq<Event>): State {
    if events == [] then start
    else Step(c, After(c, start, events[..|events| - 1]), events[|events| - 1]).0
  }

  const STARTUP := State(map[], Response.START)

  // ---------------------------------------------------------------- calm flight

  /** A source whose authority goes beyond a warning. */
  predicate Uncapped(s: Monitor.Source) {
    s.maxLevel > WARN
  }

  ghost predicate SelectedByUncapped(c: Config, status: Monitor.Status) {
    exists i | 0 <= i < |c.sources| :: Uncapped(c.sources[i]) && Monitor.Contains(status.name, c.sources[i].pattern)
  }

  /** No uncapped source that ever reported has fallen silent. */
  ghost predicate ReportersAlive(c: Config, last: map<string, Monitor.Entry>, now: real) {
    forall i | 0 <= i < |c.sources| && Uncapped(c.sources[i]) && c.sources[i].pattern in last ::
      now - last[c.sources[i].pattern].time <= c.sources[i].stale
  }

  /** Nothing an uncapped source may escalate is reported above a warning; faults come from the monitor alone. */
  ghost predicate Calm(c: Config, s: State, e: Event) {
    match e
    case Diagnose(_, statuses, _) =>
      forall i | 0 <= i < |statuses| && SelectedByUncapped(c, statuses[i]) :: statuses[i].level <= WARN
    case PublishFault(now) => ReportersAlive(c, s.last, now)
    case Drive(event) => !event.OnFault?
  }

  ghost predicate CalmRun(c: Config, start: State, events: seq<Event>) {
    forall i | 0 <= i < |events| :: Calm(c, After(c, start, events[..i]), events[i])
  }

  /** Every recorded entry of an uncapped source is at most a warning. */
  ghost predicate RecordsWarn(c: Config, last: map<string, Monitor.Entry>) {
    forall i | 0 <= i < |c.sources| && Uncapped(c.sources[i]) && c.sources[i].pattern in last ::
      last[c.sources[i].pattern].level <= WARN
  }

  ghost predicate Settled(c: Config, s: State) {
    RecordsWarn(c, s.last) && s.response.fault.level <= WARN
  }

  // ---------------------------------------------------------------- the outage

  /** The external pose is stale and unpaired; the local position is alive. */
  ghost predicate ExternalPoseOnly(r: Reporters, now: real) {
    && !Geofence.Recent(r.poses.received, now, r.fence.timeout)
    && Geofence.Recent(r.poses.fallbackReceived, now, r.fence.fallbackTimeout)
    && Consistency.NoRecentPair(r.pairing, r.pair, now)
    && r.localLevel <= WARN
  }

  /** The status carries the verdict of one of the three reporters. */
  ghost predicate Carries(r: Reporters, status: Monitor.Status, now: real) {
    || status.level == Geofence.Verdict(r.fence, r.poses, now)
    || status.level == Consistency.Verdict(r.pairing, r.pair, now)
    || status.level == r.localLevel
  }

  /** What each event may be during the outage; faults reach the response node only from the monitor. */
  ghost predicate DuringOutage(c: Config, s: State, e: Event) {
    match e
    case Diagnose(r, statuses, now) =>
      ExternalPoseOnly(r, now) &&
      forall i | 0 <= i < |statuses| && SelectedByUncapped(c, statuses[i]) :: Carries(r, statuses[i], now)
    case PublishFault(now) => ReportersAlive(c, s.last, now)
    case Drive(event) => !event.OnFault?
  }

  ghost predicate OutageRun(c: Config, start: State, events: seq<Event>) {
    forall i | 0 <= i < |events| :: DuringOutage(c, After(c, start, events[..i]), events[i])
  }

  /** In the outage every reporter's verdict is at most a warning. */
  lemma OutageOnlyWarns(r: Reporters, status: Monitor.Status, now: real)
    requires ExternalPoseOnly(r, now) && Carries(r, status, now)
    ensures status.level <= WARN
  {
  }

  lemma OutageIsCalm(c: Config, start: State, events: seq<Event>)
    requires OutageRun(c, start, events)
    ensures CalmRun(c, start, events)
  {
    forall i | 0 <= i < |events| ensures Calm(c, After(c, start, events[..i]), events[i]) {
      assert DuringOutage(c, After(c, start, events[..i]), events[i]);
      if events[i].Diagnose? {
        forall k | 0 <= k < |events[i].statuses| && SelectedByUncapped(c, events[i].statuses[k])
          ensures events[i].statuses[k].level <= WARN
        {
          OutageOnlyWarns(events[i].reporters, events[i].statuses[k], events[i].now);
        }
      }
    }
  }

  lemma {:induction false} SelectedIsInArray(statuses: seq<Monitor.Status>, pattern: string)
    requires Monitor.Selected(statuses, pattern).Some?
    ensures exists i | 0 <= i < |statuses| ::
              statuses[i] == Monitor.Selected(statuses, pattern).value && Monitor.Contains(statuses[i].name, pattern)
  {
    var n := |statuses| - 1;
    if !Monitor.Contains(statuses[n].name, pattern) {
      SelectedIsInArray(statuses[..n], pattern);
      var i :| 0 <= i < n && statuses[..n][i] == Monitor.Selected(statuses[..n], pattern).value &&
        Monitor.Contains(statuses[..n][i].name, pattern);
      assert statuses[i] == statuses[..n][i];
    }
  }

  lemma DiagnoseKeepsWarnings(c: Config, s: State, r: Reporters, statuses: seq<Monitor.Status>, now: real)
    requires RecordsWarn(c, s.last) && Calm(c, s, Diagnose(r, statuses, now))
    ensures RecordsWarn(c, Monitor.Recording(s.last, c.sources, statuses, now))
  {
    var last := Monitor.Recording(s.last, c.sources, statuses, now);
    forall i | 0 <= i < |c.sources| && Uncapped(c.sources[i]) && c.sources[i].pattern in last
      ensures last[c.sources[i].pattern].level <= WARN
    {
      var pattern := c.sources[i].pattern;
      if Monitor.Selected(statuses, pattern).Some? {
        SelectedIsInArray(statuses, pattern);
        var k :| 0 <= k < |statuses| && statuses[k] == Monitor.Selected(statuses, pattern).value &&
          Monitor.Contains(statuses[k].name, pattern);
        assert SelectedByUncapped(c, statuses[k]);
      } else {
        assert Monitor.EntryOf(s.last, pattern).Some?;
      }
    }
  }

  lemma PublishedFaultWarns(c: Config, s: State, now: real)
    requires RecordsWarn(c, s.last) && ReportersAlive(c, s.last, now)
    ensures Verdict(c, s, now).level <= WARN
  {
    var level := Monitor.WorstLevel(c.sources, s.last, now);
    Monitor.WorstLevelIsWorst(c.sources, s.last, now);
    if level != OK {
      var i :| 0 <= i < |c.sources| && Monitor.LevelOf(c.sources[i], s.last, now) == level;
    }
  }

  lemma DriveKeepsFault(c: Response.Config, s: Response.State, e: Response.Event)
    requires !e.OnFault?
    ensures Response.Step(c, s, e).0.fault == s.fault
  {
  }

  lemma CalmKeepsSettled(c: Config, s: State, e: Event)
    requires Settled(c, s) && Calm(c, s, e)
    ensures Settled(c, Step(c, s, e).0)
  {
    match e
    case Diagnose(r, statuses, now) => DiagnoseKeepsWarnings(c, s, r, statuses, now);
    case PublishFault(now) => PublishedFaultWarns(c, s, now);
    case Drive(event) => DriveKeepsFault(c.response, s.response, event);
  }

  lemma RunPrefix(c: Config, start: State, events: seq<Event>, n: nat)
    requires n <= |events|
    ensures CalmRun(c, start, events) ==> CalmRun(c, start, events[..n])
    ensures OutageRun(c, start, events) ==> OutageRun(c, start, events[..n])
  {
    assert forall i | 0 <= i < n :: events[..n][i] == events[i] && events[..n][..i] == events[..i];
  }

  /** A calm flight from a settled state, as startup is, stays settled: its fault level never exceeds a warning. */
  lemma {:induction false} CalmFlightStaysSettled(c: Config, start: State, events: seq<Event>)
    requires Settled(c, start) && CalmRun(c, start, events)
    ensures Settled(c, After(c, start, events))
  {
    if events != [] {
      var n := |events| - 1;
      RunPrefix(c, start, events, n);
      CalmFlightStaysSettled(c, start, events[..n]);
      CalmKeepsSettled(c, After(c, start, events[..n]), events[n]);
    }
  }

  /** During an outage that begins in any settled state the fault level never exceeds a warning. */
  lemma OutageLevelStaysWarn(c: Config, start: State, events: seq<Event>)
    requires Settled(c, start) && OutageRun(c, start, events)
    ensures RecordsWarn(c, After(c, start, events).last) && After(c, start, events).response.fault.level <= WARN
  {
    OutageIsCalm(c, start, events);
    CalmFlightStaysSettled(c, start, events);
  }

  /** Under at most a warning only a touchdown or an admissible external request force-disarms. */
  lemma WarnedKill(c: Config, s: State, e: Event)
    requires s.response.fault.level <= WARN && Response.Kill in Step(c, s, e).1
    ensures e.Drive? && (e.event.Tick? || e.event.RequestTermination?)
    ensures e.event.Tick? ==> ResponseRuns.TouchdownStands(s.response)
    ensures e.event.RequestTermination? ==> Response.MayTerminate(c.response, s.response, e.event.now)
  {
    if e.Drive? && e.event.Tick? {
      ResponseRuns.TickKillsIff(c.response, s.response, e.event.now);
    }
  }

  /**
   In any run of such an outage, a force-disarm is either a standing touchdown of an armed, landing vehicle or an
   admissible external request: never the fault itself.
   */
  lemma OutageNeverFaultKills(c: Config, start: State, events: seq<Event>, e: Event)
    requires Settled(c, start) && OutageRun(c, start, events)
    requires Response.Kill in Step(c, After(c, start, events), e).1
    ensures e.Drive? && (e.event.Tick? || e.event.RequestTermination?)
    ensures e.event.Tick? ==> ResponseRuns.TouchdownStands(After(c, start, events).response)
    ensures e.event.RequestTermination? ==>
              Response.MayTerminate(c.response, After(c, start, events).response, e.event.now)
  {
    OutageLevelStaysWarn(c, start, events);
    WarnedKill(c, After(c, start, events), e);
  }

  /** The outage may begin at any point of a calm flight since startup. */
  lemma OutageInFlight(c: Config, flight: seq<Event>, outage: seq<Event>, e: Event)
    requires CalmRun(c, STARTUP, flight) && OutageRun(c, After(c, STARTUP, flight), outage)
    ensures var s := After(c, After(c, STARTUP, flight), outage);
            s.response.fault.level <= WARN &&
            (e.Drive? && e.event.Tick? && Response.Kill in Step(c, s, e).1 ==> ResponseRuns.TouchdownStands(s.response))
  {
    CalmFlightStaysSettled(c, STARTUP, flight);
    OutageLevelStaysWarn(c, After(c, STARTUP, flight), outage);
    if Response.Kill in Step(c, After(c, After(c, STARTUP, flight), outage), e).1 {
      OutageNeverFaultKills(c, After(c, STARTUP, flight), outage, e);
    }
  }

  // ---------------------------------------------------------------- the outage lands

  /** The array selects a status for the source, and it is the geofence's. */
  ghost predicate FenceSpeaks(source: Monitor.Source, e: Event) {
    && e.Diagnose? && Monitor.Selected(e.statuses, source.pattern).Some?
    && Monitor.Selected(e.statuses, source.pattern).value.level ==
        Geofence.Verdict(e.reporters.fence, e.reporters.poses, e.now)
  }

  /** Whatever any array selects for the source is the geofence's verdict. */
  ghost predicate FenceOnly(source: Monitor.Source, events: seq<Event>) {
    forall i | 0 <= i < |events| && events[i].Diagnose? && Monitor.Selected(events[i].statuses, source.pattern).Some? ::
      FenceSpeaks(source, events[i])
  }

  ghost predicate FenceReported(source: Monitor.Source, events: seq<Event>) {
    exists i | 0 <= i < |events| :: FenceSpeaks(source, events[i])
  }

  /** The monitor has published since the geofence first reported. */
  ghost predicate FencePublished(source: Monitor.Source, events: seq<Event>) {
    exists j | 0 <= j < |events| :: events[j].PublishFault? && FenceReported(source, events[..j])
  }

  ghost predicate WarnsOn(last: map<string, Monitor.Entry>, pattern: string) {
    pattern in last && last[pattern].level == WARN
  }

  lemma FenceWarnsOnPose(r: Reporters, now: real)
    requires ExternalPoseOnly(r, now)
    ensures Geofence.Verdict(r.fence, r.poses, now) == WARN
  {
  }

  /** A source at WARN whose cap allows it holds the published level there. */
  lemma PublishedIsWarn(c: Config, s: State, now: real, g: nat)
    requires g < |c.sources| && c.sources[g].maxLevel >= WARN && WarnsOn(s.last, c.sources[g].pattern)
    requires Settled(c, s) && ReportersAlive(c, s.last, now)
    ensures Verdict(c, s, now).level == WARN
  {
    PublishedFaultWarns(c, s, now);
    Monitor.WorstLevelIsWorst(c.sources, s.last, now);
    assert Monitor.LevelOf(c.sources[g], s.last, now) >= WARN;
  }

  lemma FenceReportedStep(source: Monitor.Source, events: seq<Event>)
    requires events != []
    ensures FenceReported(source, events)
            <==> FenceReported(source, events[..|events| - 1]) || FenceSpeaks(source, events[|events| - 1])
  {
    var n := |events| - 1;
    assert forall i | 0 <= i < n :: events[..n][i] == events[i];
  }

  lemma FencePublishedStep(source: Monitor.Source, events: seq<Event>)
    requires events != []
    ensures var n := |events| - 1;
            FencePublished(source, events)
            <==> FencePublished(source, events[..n]) || (events[n].PublishFault? && FenceReported(source, events[..n]))
  {
    var n := |events| - 1;
    assert forall i | 0 <= i < n :: events[..n][i] == events[i] && events[..n][..i] == events[..i];
  }

  lemma DiagnoseRecordsFence(c: Config, s: State, e: Event, g: nat)
    requires g < |c.sources| && DuringOutage(c, s, e) && e.Diagnose?
    requires Monitor.Selected(e.statuses, c.sources[g].pattern).Some? ==> FenceSpeaks(c.sources[g], e)
    requires FenceSpeaks(c.sources[g], e) || WarnsOn(s.last, c.sources[g].pattern)
    ensures WarnsOn(Step(c, s, e).0.last, c.sources[g].pattern)
  {
    var pattern := c.sources[g].pattern;
    FenceWarnsOnPose(e.reporters, e.now);
    assert Monitor.Watched(c.sources, pattern);
    assert Monitor.Expected(s.last, c.sources, e.statuses, pattern, e.now).Some?;
  }

  lemma FenceStep(c: Config, s: State, e: Event, g: nat, reported: bool, published: bool)
    requires g < |c.sources| && c.sources[g].maxLevel >= WARN && Settled(c, s) && DuringOutage(c, s, e)
    requires e.Diagnose? && Monitor.Selected(e.statuses, c.sources[g].pattern).Some? ==> FenceSpeaks(c.sources[g], e)
    requires reported ==> WarnsOn(s.last, c.sources[g].pattern)
    requires published ==> reported && s.response.fault.level == WARN
    ensures reported || FenceSpeaks(c.sources[g], e) ==> WarnsOn(Step(c, s, e).0.last, c.sources[g].pattern)
    ensures published || (e.PublishFault? && reported) ==> Step(c, s, e).0.response.fault.level == WARN
  {
    match e
    case Diagnose(_, _, _) =>
      if reported || FenceSpeaks(c.sources[g], e) {
        DiagnoseRecordsFence(c, s, e, g);
      }
    case PublishFault(now) =>
      if reported {
        PublishedIsWarn(c, s, now, g);
      }
    case Drive(event) => DriveKeepsFault(c.response, s.response, event);
  }

  /** Once the geofence has reported and the monitor has published, the level is exactly WARN, and stays there. */
  lemma {:induction false} OutageReachesWarn(c: Config, start: State, events: seq<Event>, g: nat)
    requires g < |c.sources| && c.sources[g].maxLevel >= WARN && FenceOnly(c.sources[g], events)
    requires Settled(c, start) && OutageRun(c, start, events)
    ensures FenceReported(c.sources[g], events) ==> WarnsOn(After(c, start, events).last, c.sources[g].pattern)
    ensures FencePublished(c.sources[g], events) ==>
              FenceReported(c.sources[g], events) && After(c, start, events).response.fault.level == WARN
  {
    if events != [] {
      var n := |events| - 1;
      RunPrefix(c, start, events, n);
      assert FenceOnly(c.sources[g], events[..n]);
      OutageReachesWarn(c, start, events[..n], g);
      OutageLevelStaysWarn(c, start, events[..n]);
      FenceReportedStep(c.sources[g], events);
      FencePublishedStep(c.sources[g], events);
      FenceStep(c, After(c, start, events[..n]), events[n], g,
                FenceReported(c.sources[g], events[..n]), FencePublished(c.sources[g], events[..n]));
    }
  }

  lemma WarnedTickLands(c: Config, s: State, now: real)
    requires Response.Owns(c.response, s.response) && s.response.vehicle.armed && !s.response.touchdownFired
    requires s.response.fault.level == WARN
    ensures Step(c, s, Drive(Response.Tick(now))).1 ==
            [Response.Report(Response.LandLane, WARN),
             Response.Publish(Response.FromLand, Response.LandSetpoint(c.response))]
  {
    assert Response.ChooseLane(c.response, s.response) == Response.LandLane;
  }

  /** From then on every tick of an armed, owned vehicle without a touchdown tells it to land and nothing else. */
  lemma OutageLands(c: Config, start: State, events: seq<Event>, g: nat, now: real)
    requires g < |c.sources| && c.sources[g].maxLevel >= WARN && FenceOnly(c.sources[g], events)
    requires Settled(c, start) && OutageRun(c, start, events) && FencePublished(c.sources[g], events)
    requires var s := After(c, start, events).response;
             Response.Owns(c.response, s) && s.vehicle.armed && !s.touchdownFired
    ensures Step(c, After(c, start, events), Drive(Response.Tick(now))).1 ==
            [Response.Report(Response.LandLane, WARN),
             Response.Publish(Response.FromLand, Response.LandSetpoint(c.response))]
  {
    OutageReachesWarn(c, start, events, g);
    WarnedTickLands(c, After(c, start, events), now);
  }
}
