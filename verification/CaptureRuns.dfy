/** What every interleaving of the capture guarantees, and what its reader may rely on. */
module CaptureRuns {
  import opened Basics
  import opened Capture
  import opened TraceParser
  import Timesync

  function StatusRemotes(log: seq<Record>): seq<int> {
    if log == [] then []
    else
      var n := |log| - 1;
      StatusRemotes(log[..n]) +
      if log[n].Sample? && log[n].message.StatusRow? then [log[n].message.remote] else []
  }

  function Remotes(r: Record, name: string): seq<int> {
    if r.Sample? && r.message.AcceptanceArray? then RemotesOf(r.message.statuses, name) else []
  }

  function AcceptanceRemotes(log: seq<Record>, name: string): seq<int> {
    if log == [] then []
    else
      var n := |log| - 1;
      AcceptanceRemotes(log[..n], name) + Remotes(log[n], name)
  }

  /** How many samples of a stream the log holds. */
  function LoggedOf(log: seq<Record>, stream: Stream): nat {
    if log == [] then 0
    else
      var n := |log| - 1;
      LoggedOf(log[..n], stream) + if log[n].Sample? && log[n].message.Stream() == stream then 1 else 0
  }

  ghost predicate Numbered(log: seq<Record>) {
    && (forall i | 0 <= i < |log| :: log[i].sequence == i)
    && (forall i | 1 <= i < |log| :: log[i].Sample?)
    && (|log| > 0 ==> log[0].Ready?)
  }

  ghost predicate CountsLogged(counts: Minimums, log: seq<Record>) {
    && counts.status <= LoggedOf(log, TimesyncStatus)
    && counts.diagnostics <= LoggedOf(log, Diagnostics)
    && counts.acceptance <= LoggedOf(log, AcceptedSequence)
  }

  ghost predicate PhaseAgrees(s: State) {
    && (s.phase.Connecting? || s.phase.Opening? ==> s.log == [] && !s.ready && !s.complete)
    && (s.phase.Polling? || s.ready || s.complete ==> s.log != [])
    && (s.phase == Exited(0) ==> s.complete)
  }

  /** What holds in every state the capture reaches. */
  ghost predicate Sound(c: Config, s: State) {
    && s.sequence == |s.log| && Numbered(s.log)
    && PhaseAgrees(s)
    && s.statusRemotes == StatusRemotes(s.log)
    && s.acceptanceRemotes == AcceptanceRemotes(s.log, c.acceptanceName)
    && CountsLogged(s.counts, s.log)
    && (s.eligibleAfter.Some? ==> MinimumsMet(s.counts, c.minimums))
    && (s.complete ==>
          !s.ready && s.eligibleAfter.Some? &&
          Paired(s.statusRemotes, s.acceptanceRemotes, c.minimums.acceptance))
  }

  lemma LoggedStep(log: seq<Record>, r: Record)
    ensures StatusRemotes(log + [r]) ==
            StatusRemotes(log) + if r.Sample? && r.message.StatusRow? then [r.message.remote] else []
    ensures forall name :: AcceptanceRemotes(log + [r], name) == AcceptanceRemotes(log, name) + Remotes(r, name)
  {
    assert (log + [r])[..|log|] == log;
  }

  lemma LoggedOfStep(log: seq<Record>, r: Record, stream: Stream)
    ensures LoggedOf(log + [r], stream) ==
            LoggedOf(log, stream) + if r.Sample? && r.message.Stream() == stream then 1 else 0
  {
    assert (log + [r])[..|log|] == log;
  }

  lemma CountStep(c: Config, s: State, r: Record)
    requires CountsLogged(s.counts, s.log)
    ensures CountsLogged(s.counts, s.log + [r])
    ensures r.Sample? ==> CountsLogged(Count(s.counts, r.message.Stream()), s.log + [r])
  {
    LoggedOfStep(s.log, r, TimesyncStatus);
    LoggedOfStep(s.log, r, Diagnostics);
    LoggedOfStep(s.log, r, AcceptedSequence);
  }

  lemma AppendKeepsSound(c: Config, s: State, message: Message, ros: int, steady: int)
    requires Sound(c, s) && s.ready
    ensures Sound(c, Append(c, s, message, ros, steady)) && Append(c, s, message, ros, steady).ready
  {
    var r := Sample(s.sequence, ros, steady, message.header.Stamp(), message);
    LoggedStep(s.log, r);
    CountStep(c, s, r);
  }

  lemma OpenKeepsSound(c: Config, s: State, connections: Connections, ros: int, steady: int, now: real)
    requires Sound(c, s) && s.phase.Opening?
    ensures Sound(c, Step(c, s, Open(connections, ros, steady, now)))
  {
    var r := Ready(s.sequence, ros, steady, connections);
    LoggedStep(s.log, r);
    CountStep(c, s, r);
    assert s.log + [r] == [r];
  }

  lemma StepKeepsSound(c: Config, s: State, e: Event)
    requires Sound(c, s)
    ensures Sound(c, Step(c, s, e))
  {
    match e
    case Arrive(message, ros, steady, now) =>
      if s.ready {
        AppendKeepsSound(c, s, message, ros, steady);
      }
    case Open(connections, ros, steady, now) =>
      if s.phase.Opening? {
        OpenKeepsSound(c, s, connections, ros, steady, now);
      }
    case Connect(_, _, _) =>
    case Poll(_, _) =>
  }

  lemma InitialIsSound(c: Config, deadline: real)
    ensures Sound(c, Initial(deadline))
  {
  }

  lemma {:induction false} RunKeepsSound(c: Config, s: State, events: seq<Event>)
    requires Sound(c, s)
    ensures Sound(c, Run(c, s, events))
    decreases |events|
  {
    if events != [] {
      StepKeepsSound(c, s, events[0]);
      RunKeepsSound(c, Step(c, s, events[0]), events[1..]);
    }
  }

  /** Once a paired suffix is frozen, no later event changes the log or the recorded remotes. */
  lemma {:induction false} CompletedLogIsFrozen(c: Config, s: State, events: seq<Event>)
    requires Sound(c, s) && s.complete
    ensures var t := Run(c, s, events);
            t.complete && t.log == s.log && t.statusRemotes == s.statusRemotes &&
                t.acceptanceRemotes == s.acceptanceRemotes
    decreases |events|
  {
    if events != [] {
      StepKeepsSound(c, s, events[0]);
      CompletedLogIsFrozen(c, Step(c, s, events[0]), events[1..]);
    }
  }

  // ---------------------------------------------------------------- the grace period

  lemma {:induction false} RunOneMore(c: Config, s: State, events: seq<Event>, e: Event)
    ensures Run(c, s, events + [e]) == Step(c, Run(c, s, events), e)
    decreases |events|
  {
    if events == [] {
      assert (events + [e])[1..] == [];
    } else {
      assert (events + [e])[1..] == events[1..] + [e];
      RunOneMore(c, Step(c, s, events[0]), events[1..], e);
    }
  }

  /** Event i is the message with which every stream first had its minimum. */
  ghost predicate FirstMeets(c: Config, start: State, events: seq<Event>, i: nat) {
    && i < |events| && events[i].Arrive?
    && !MinimumsMet(Run(c, start, events[..i]).counts, c.minimums)
    && MinimumsMet(Run(c, start, events[..i + 1]).counts, c.minimums)
  }

  /** The completion time was set by that message, and not before the minimums were met. */
  ghost predicate GraceIsSet(c: Config, start: State, events: seq<Event>) {
    var s := Run(c, start, events);
    && (MinimumsMet(s.counts, c.minimums) <==> s.eligibleAfter.Some?)
    && (s.eligibleAfter.Some? ==>
          exists i: nat :: SetBy(c, start, events, i, s.eligibleAfter))
  }

  /** A step changes the eligibility only by setting it with the message that first meets the minimums. */
  lemma EligibilityStep(c: Config, s: State, e: Event)
    requires MinimumsMet(s.counts, c.minimums) <==> s.eligibleAfter.Some?
    ensures var next := Step(c, s, e);
            && (MinimumsMet(next.counts, c.minimums) <==> next.eligibleAfter.Some?)
            && (s.eligibleAfter.Some? ==> next.eligibleAfter == s.eligibleAfter)
            && (s.eligibleAfter.None? && next.eligibleAfter.Some? ==>
                e.Arrive? && next.eligibleAfter.value == e.now + c.grace)
            && (next.complete && !s.complete ==> (e.Arrive? || e.Poll?) && Due(next, e.now))
  {
  }

  lemma FirstMeetsIsKept(c: Config, start: State, events: seq<Event>, e: Event, i: nat)
    requires FirstMeets(c, start, events, i)
    ensures FirstMeets(c, start, events + [e], i)
  {
    assert (events + [e])[..i] == events[..i] && (events + [e])[..i + 1] == events[..i + 1];
  }

  /** The message that set the completion time of a state. */
  ghost predicate SetBy(c: Config, start: State, events: seq<Event>, i: nat, time: Option<real>) {
    FirstMeets(c, start, events, i) && time == Some(events[i].now + c.grace)
  }

  lemma GraceStep(c: Config, start: State, events: seq<Event>, e: Event)
    requires GraceIsSet(c, start, events)
    ensures GraceIsSet(c, start, events + [e])
  {
    var s, longer := Run(c, start, events), events + [e];
    RunOneMore(c, start, events, e);
    EligibilityStep(c, s, e);
    if s.eligibleAfter.Some? {
      var i: nat :| SetBy(c, start, events, i, s.eligibleAfter);
      FirstMeetsIsKept(c, start, events, e, i);
      assert SetBy(c, start, longer, i, s.eligibleAfter);
    } else if Step(c, s, e).eligibleAfter.Some? {
      FirstMeetsNow(c, start, events, e);
      assert SetBy(c, start, longer, |events|, Step(c, s, e).eligibleAfter);
    }
  }

  lemma FirstMeetsNow(c: Config, start: State, events: seq<Event>, e: Event)
    requires e.Arrive? && !MinimumsMet(Run(c, start, events).counts, c.minimums)
    requires MinimumsMet(Step(c, Run(c, start, events), e).counts, c.minimums)
    ensures FirstMeets(c, start, events + [e], |events|)
  {
    var longer := events + [e];
    RunOneMore(c, start, events, e);
    assert longer[..|events|] == events && longer[..|events| + 1] == longer;
  }

  lemma {:induction false} GraceHolds(c: Config, start: State, events: seq<Event>)
    requires GraceIsSet(c, start, [])
    ensures GraceIsSet(c, start, events)
  {
    if events != [] {
      var n := |events| - 1;
      GraceHolds(c, start, events[..n]);
      GraceStep(c, start, events[..n], events[n]);
      assert events == events[..n] + [events[n]];
    }
  }

  /** The log is frozen only a full grace period after the message with which every stream first had its minimum. */
  lemma FreezeWaitsOutGrace(c: Config, deadline: real, events: seq<Event>, e: Event) returns (i: nat)
    requires c.Valid()
    requires !Run(c, Initial(deadline), events).complete && Run(c, Initial(deadline), events + [e]).complete
    ensures e.Arrive? || e.Poll?
    ensures FirstMeets(c, Initial(deadline), events + [e], i) && e.now >= (events + [e])[i].now + c.grace
  {
    var start := Initial(deadline);
    GraceHolds(c, start, events);
    GraceHolds(c, start, events + [e]);
    RunOneMore(c, start, events, e);
    EligibilityStep(c, Run(c, start, events), e);
    i := SettingMessage(c, start, events + [e]);
  }

  lemma SettingMessage(c: Config, start: State, events: seq<Event>) returns (i: nat)
    requires GraceIsSet(c, start, events) && Run(c, start, events).eligibleAfter.Some?
    ensures SetBy(c, start, events, i, Run(c, start, events).eligibleAfter)
  {
    i :| SetBy(c, start, events, i, Run(c, start, events).eligibleAfter);
  }

  // ---------------------------------------------------------------- the reader's gates

  /** The clock readings of a line, and its header if it has one, are such that the reader keeps it. */
  ghost predicate Readable(r: Record) {
    r.ros >= 1 && r.steady >= 1 && (r.Sample? ==> r.message.header.Valid())
  }

  /** The capture asks this of no message: it logs and counts whatever arrives. */
  ghost predicate ReadableLog(log: seq<Record>) {
    forall i | 0 <= i < |log| :: Readable(log[i])
  }

  /** Every sample carries the stamp of its header. */
  ghost predicate Stamped(log: seq<Record>) {
    forall i | 0 <= i < |log| && log[i].Sample? :: log[i].stamp == log[i].message.header.Stamp()
  }

  lemma {:induction false} RunKeepsStamps(c: Config, s: State, events: seq<Event>)
    requires Stamped(s.log)
    ensures Stamped(Run(c, s, events).log)
    decreases |events|
  {
    if events != [] {
      RunKeepsStamps(c, Step(c, s, events[0]), events[1..]);
    }
  }

  /** In a numbered log the reader's sequence gate says exactly that every line after the first is readable. */
  lemma SequenceGateIsReadable(log: seq<Record>)
    requires Numbered(log) && Stamped(log) && log != []
    ensures SequenceGate(log) <==> forall i | 1 <= i < |log| :: Readable(log[i])
    ensures SequenceGate(log) ==> Samples(log) == log[1..]
  {
    forall i | 1 <= i < |log| ensures Exact(log[i]) && log[i].sequence == i <==> Readable(log[i]) {
      assert log[i].Sample? && log[i].sequence == i && log[i].stamp == log[i].message.header.Stamp();
    }
  }

  lemma {:induction false} LoggedOfIsCount(log: seq<Record>, stream: Stream)
    requires Numbered(log) && log != []
    ensures LoggedOf(log, stream) == |OfStream(log[1..], stream)|
    decreases |log|
  {
    var n := |log| - 1;
    if n == 0 {
      assert LoggedOf(log[..n], stream) == 0;
    } else {
      assert Numbered(log[..n]);
      LoggedOfIsCount(log[..n], stream);
      assert log[1..][..n - 1] == log[..n][1..];
    }
  }

  /** The gates of the reader that an exit-0 log leaves open. */
  ghost predicate OpenGates(log: seq<Record>, freshness: Freshness)
    requires log != []
  {
    log[0].Ready? && log[0].connections.All() && AllFresh(Samples(log), freshness) &&
    ClocksOrdered(log[0], Samples(log)) && SpanGate(log)
  }

  /** The log holds the minimum of every stream. */
  ghost predicate MinimumsLogged(log: seq<Record>, minimums: Minimums) {
    && LoggedOf(log, TimesyncStatus) >= minimums.status && LoggedOf(log, Diagnostics) >= minimums.diagnostics
    && LoggedOf(log, AcceptedSequence) >= minimums.acceptance
  }

  /** What every run that exits 0 leaves: a numbered log with the minimums, ending in a paired suffix. */
  lemma ExitZeroLog(c: Config, deadline: real, events: seq<Event>)
    requires Run(c, Initial(deadline), events).phase == Exited(0)
    ensures var log := Run(c, Initial(deadline), events).log;
            && log != [] && Numbered(log) && Stamped(log) && MinimumsLogged(log, c.minimums)
            && Paired(StatusRemotes(log), AcceptanceRemotes(log, c.acceptanceName), c.minimums.acceptance)
  {
    InitialIsSound(c, deadline);
    RunKeepsSound(c, Initial(deadline), events);
    RunKeepsStamps(c, Initial(deadline), events);
  }

  lemma ReadableMeetsCounts(log: seq<Record>, minimums: Minimums)
    requires Numbered(log) && log != [] && Samples(log) == log[1..] && MinimumsLogged(log, minimums)
    ensures CountGate(log, minimums)
  {
    LoggedOfIsCount(log, TimesyncStatus);
    LoggedOfIsCount(log, Diagnostics);
    LoggedOfIsCount(log, AcceptedSequence);
  }

  /**
   The log of any run that exits 0: numbered, with the minimums and a paired suffix. The reader's sequence gate holds
   exactly when every line after the first is readable, the minimum gate with it, and the reader accepts the log exactly
   when every line is readable and the gates the capture does not watch hold as well.
   */
  lemma ExitZeroMeetsReader(c: Config, deadline: real, events: seq<Event>, freshness: Freshness)
    requires Run(c, Initial(deadline), events).phase == Exited(0)
    ensures var log := Run(c, Initial(deadline), events).log;
            && log != [] && Numbered(log) && MinimumsLogged(log, c.minimums)
            && Paired(StatusRemotes(log), AcceptanceRemotes(log, c.acceptanceName), c.minimums.acceptance)
            && (SequenceGate(log) <==> forall i | 1 <= i < |log| :: Readable(log[i]))
            && (SequenceGate(log) ==> CountGate(log, c.minimums))
            && (ReadyGate(log) <==> Readable(log[0]) && log[0].connections.All())
            && (ParserAccepts(log, c.minimums, freshness) <==> ReadableLog(log) && OpenGates(log, freshness))
  {
    var log := Run(c, Initial(deadline), events).log;
    ExitZeroLog(c, deadline, events);
    SequenceGateIsReadable(log);
    if SequenceGate(log) {
      ReadableMeetsCounts(log, c.minimums);
    }
  }

  /** Successive clock readings: the ROS clock never goes back, the steady clock strictly advances. */
  ghost predicate ClocksFrom(events: seq<Event>, ros: int, steady: int)
    decreases |events|
  {
    events == [] ||
    match events[0]
    case Arrive(_, r, t, _) => r >= ros && t > steady && ClocksFrom(events[1..], r, t)
    case Open(_, r, t, _) => r >= ros && t > steady && ClocksFrom(events[1..], r, t)
    case Connect(_, _, _) => ClocksFrom(events[1..], ros, steady)
    case Poll(_, _) => ClocksFrom(events[1..], ros, steady)
  }

  ghost predicate LogOrdered(log: seq<Record>) {
    && (forall i | 1 <= i < |log| :: log[i - 1].ros <= log[i].ros)
    && (forall i | 1 <= i < |log| :: log[i - 1].steady < log[i].steady)
  }

  ghost predicate EndsBy(log: seq<Record>, ros: int, steady: int) {
    log == [] || (log[|log| - 1].ros <= ros && log[|log| - 1].steady <= steady)
  }

  /** A step adds at most one line, stamped with the clock readings of its event. */
  ghost predicate AddsAtMost(before: seq<Record>, after: seq<Record>, ros: int, steady: int) {
    after == before ||
    (|after| == |before| + 1 && after[..|before|] == before &&
     after[|before|].ros == ros && after[|before|].steady == steady)
  }

  lemma StepAddsOneLine(c: Config, s: State, e: Event)
    ensures e.Arrive? || e.Open? ==> AddsAtMost(s.log, Step(c, s, e).log, e.ros, e.steady)
    ensures e.Connect? || e.Poll? ==> Step(c, s, e).log == s.log
  {
  }

  lemma LineKeepsOrder(before: seq<Record>, after: seq<Record>, ros: int, steady: int, r: int, t: int)
    requires LogOrdered(before) && EndsBy(before, ros, steady) && AddsAtMost(before, after, r, t)
    requires r >= ros && t > steady
    ensures LogOrdered(after) && EndsBy(after, r, t)
  {
    if after != before {
      assert forall i | 0 <= i < |before| :: after[i] == before[i];
    }
  }

  lemma {:induction false} RunKeepsClockOrder(c: Config, s: State, events: seq<Event>, ros: int, steady: int)
    requires ClocksFrom(events, ros, steady) && LogOrdered(s.log) && EndsBy(s.log, ros, steady)
    ensures LogOrdered(Run(c, s, events).log)
    decreases |events|
  {
    if events != [] {
      var e, t := events[0], Step(c, s, events[0]);
      StepAddsOneLine(c, s, e);
      if e.Arrive? || e.Open? {
        LineKeepsOrder(s.log, t.log, ros, steady, e.ros, e.steady);
        RunKeepsClockOrder(c, t, events[1..], e.ros, e.steady);
      } else {
        RunKeepsClockOrder(c, t, events[1..], ros, steady);
      }
    }
  }

  /** With ordered clocks, only readable lines, connections, header freshness and overlap are left to the reader. */
  lemma OrderedExitZeroMeetsReader(c: Config, deadline: real, events: seq<Event>, freshness: Freshness, ros: int,
                                   steady: int)
    requires c.Valid() && ClocksFrom(events, ros, steady) && Run(c, Initial(deadline), events).phase == Exited(0)
    ensures var log := Run(c, Initial(deadline), events).log;
            && log != [] && log[0].Ready?
            && (ParserAccepts(log, c.minimums, freshness)
                <==> ReadableLog(log) && log[0].connections.All() && AllFresh(Samples(log), freshness) && SpanGate(log))
  {
    var log := Run(c, Initial(deadline), events).log;
    ExitZeroMeetsReader(c, deadline, events, freshness);
    RunKeepsClockOrder(c, Initial(deadline), events, ros, steady);
    if ReadableLog(log) {
      ExitZeroLog(c, deadline, events);
      SequenceGateIsReadable(log);
      OrderedSamples(c, log);
    }
  }

  lemma OrderedSamples(c: Config, log: seq<Record>)
    requires c.Valid() && log != [] && log[0].Ready? && LogOrdered(log) && Samples(log) == log[1..]
    requires CountGate(log, c.minimums)
    ensures ClocksOrdered(log[0], Samples(log))
  {
    var samples := Samples(log);
    assert |samples| > 0 by {
      assert |OfStream(samples, TimesyncStatus)| >= 1;
    }
  }

  // ---------------------------------------------------------------- a log the reader refuses

  /** One of each message suffices, and nothing is waited for; d and a are the names of the watched statuses. */
  function Eager(d: string, a: string): Config {
    Config(Minimums(1, 1, 1), d, a, 1.0, 0.0)
  }

  const STAMPED := Header(1, 0)
  const CONNECTED := Connections(1, 1, 1)
  const STATUS_ROW := StatusRow(STAMPED, 5, Timesync.Absent, Timesync.Absent, 0.0)

  function Accepting(a: string): Message {
    AcceptanceArray(STAMPED, [Capture.Status(a, 0, true, None, [KeyValue(REMOTE_KEY, Digits(5, true))])])
  }

  /** A diagnostic array whose header was never filled in. */
  function Unstamped(d: string): Message {
    DiagnosticArray(Header(0, 0), [Capture.Status(d, 0, true, None, [])])
  }

  function UnstampedRun(d: string, a: string): seq<Event> {
    [Connect(CONNECTED, 0.0, false), Open(CONNECTED, 1, 1, 0.0), Arrive(STATUS_ROW, 1, 2, 0.0),
     Arrive(Accepting(a), 1, 3, 0.0), Arrive(Unstamped(d), 1, 4, 0.0), Poll(0.0, false)]
  }

  function Opened(): State {
    State(true, 1, Minimums(0, 0, 0), [], [], None, false, [Ready(0, 1, 1, CONNECTED)], Polling(1.0))
  }

  function AfterStatus(): State {
    Opened().(sequence := 2, counts := Minimums(1, 0, 0), statusRemotes := [5],
              log := Opened().log + [Sample(1, 1, 2, STAMPED.Stamp(), STATUS_ROW)])
  }

  function AfterAcceptance(a: string): State {
    AfterStatus().(sequence := 3, counts := Minimums(1, 0, 1), acceptanceRemotes := [5],
                   log := AfterStatus().log + [Sample(2, 1, 3, STAMPED.Stamp(), Accepting(a))])
  }

  /** The unstamped message completes the capture. */
  function AfterUnstamped(d: string, a: string): State {
    AfterAcceptance(a).(ready := false, sequence := 4, counts := Minimums(1, 1, 1), eligibleAfter := Some(0.0),
                        complete := true, log := AfterAcceptance(a).log + [Sample(3, 1, 4, 0, Unstamped(d))])
  }

  lemma AcceptingCarriesFive(a: string)
    ensures RemotesOf(Accepting(a).statuses, a) == [5] && Names(Accepting(a).statuses, a)
  {
    var statuses := Accepting(a).statuses;
    var values := statuses[0].values;
    assert values[..0] == [] && ValuesOf(values[..0], REMOTE_KEY) == [];
    assert RemoteValues(values) == [Digits(5, true)];
    assert statuses[..0] == [] && statuses[0].name == a;
  }

  /** A message that leaves a minimum open is logged and counted, no more. */
  lemma PlainArrival(c: Config, s: State, message: Message, ros: int, steady: int, now: real)
    requires s.ready && !MinimumsMet(Append(c, s, message, ros, steady).counts, c.minimums)
    ensures Step(c, s, Arrive(message, ros, steady, now)) == Append(c, s, message, ros, steady)
  {
  }

  lemma StatusArrives(d: string, a: string)
    ensures Step(Eager(d, a), Opened(), Arrive(STATUS_ROW, 1, 2, 0.0)) == AfterStatus()
  {
    PlainArrival(Eager(d, a), Opened(), STATUS_ROW, 1, 2, 0.0);
  }

  lemma AcceptanceArrives(d: string, a: string)
    ensures Step(Eager(d, a), AfterStatus(), Arrive(Accepting(a), 1, 3, 0.0)) == AfterAcceptance(a)
  {
    AcceptanceAppends(d, a);
    PlainArrival(Eager(d, a), AfterStatus(), Accepting(a), 1, 3, 0.0);
  }

  lemma AcceptanceAppends(d: string, a: string)
    ensures Append(Eager(d, a), AfterStatus(), Accepting(a), 1, 3) == AfterAcceptance(a)
  {
    AcceptingCarriesFive(a);
  }

  /** A diagnostic array that fills the last minimum of a paired log, with no grace to wait for. */
  lemma CompletingArrival(c: Config, s: State, message: Message, ros: int, steady: int, now: real)
    requires s.ready && message.DiagnosticArray? && c.Qualifies(message) && s.eligibleAfter.None? && c.grace == 0.0
    requires MinimumsMet(Count(s.counts, Diagnostics), c.minimums)
    requires Paired(s.statusRemotes, s.acceptanceRemotes, c.minimums.acceptance)
    ensures Step(c, s, Arrive(message, ros, steady, now)) ==
            s.(ready := false, sequence := s.sequence + 1, counts := Count(s.counts, Diagnostics),
               eligibleAfter := Some(now), complete := true,
               log := s.log + [Sample(s.sequence, ros, steady, message.header.Stamp(), message)])
  {
    assert s.statusRemotes + [] == s.statusRemotes && s.acceptanceRemotes + [] == s.acceptanceRemotes;
  }

  lemma OneIsPaired(remote: int)
    ensures Paired([remote], [remote], 1)
  {
    assert Timesync.Tail([remote], 1) == [remote];
  }

  lemma UnstampedQualifies(d: string, a: string)
    ensures Eager(d, a).Qualifies(Unstamped(d))
  {
    assert Unstamped(d).statuses[0].name == d;
  }

  lemma UnstampedArrives(d: string, a: string)
    ensures Step(Eager(d, a), AfterAcceptance(a), Arrive(Unstamped(d), 1, 4, 0.0)) == AfterUnstamped(d, a)
  {
    OneIsPaired(5);
    UnstampedQualifies(d, a);
    CompletingArrival(Eager(d, a), AfterAcceptance(a), Unstamped(d), 1, 4, 0.0);
  }

  lemma RunOfTwo(c: Config, s: State, first: Event, second: Event)
    ensures Run(c, s, [first, second]) == Step(c, Step(c, s, first), second)
  {
    assert [first, second][1..] == [second] && [second][1..] == [];
    assert Run(c, Step(c, s, first), [second]) == Run(c, Step(c, Step(c, s, first), second), []);
  }

  lemma RunOfSix(c: Config, s: State, e: seq<Event>)
    requires |e| == 6
    ensures Run(c, s, e) == Step(c, Step(c, Step(c, Step(c, Step(c, Step(c, s, e[0]), e[1]), e[2]), e[3]), e[4]), e[5])
  {
    assert e[..2] == [e[0], e[1]] && e[..4][..3] == e[..3];
    RunOfTwo(c, s, e[0], e[1]);
    RunOneMore(c, s, e[..2], e[2]);
    assert e[..2] + [e[2]] == e[..3];
    RunOneMore(c, s, e[..3], e[3]);
    assert e[..3] + [e[3]] == e[..4];
    RunOneMore(c, s, e[..4], e[4]);
    assert e[..4] + [e[4]] == e[..5];
    RunOneMore(c, s, e[..5], e[5]);
    assert e[..5] + [e[5]] == e;
  }

  lemma UnstampedRunOpens(d: string, a: string)
    ensures Step(Eager(d, a), Step(Eager(d, a), Initial(0.0), Connect(CONNECTED, 0.0, false)),
                 Open(CONNECTED, 1, 1, 0.0)) == Opened()
    ensures Step(Eager(d, a), AfterUnstamped(d, a), Poll(0.0, false)) == AfterUnstamped(d, a).(phase := Exited(0))
  {
  }

  lemma UnstampedRunEnds(d: string, a: string)
    ensures Run(Eager(d, a), Initial(0.0), UnstampedRun(d, a)) == AfterUnstamped(d, a).(phase := Exited(0))
  {
    RunOfSix(Eager(d, a), Initial(0.0), UnstampedRun(d, a));
    UnstampedRunOpens(d, a);
    StatusArrives(d, a);
    AcceptanceArrives(d, a);
    UnstampedArrives(d, a);
  }

  lemma UnstampedLineIsRefused(log: seq<Record>, last: Message)
    requires |log| == 4 && log[3] == Sample(3, 1, 4, 0, last) && log[0].Ready? && !last.header.Valid()
    requires log[1].Sample? && log[1].message.StatusRow? && log[2].Sample? && log[2].message.AcceptanceArray?
    ensures !SequenceGate(log) && forall minimums: Minimums | minimums.diagnostics >= 1 :: !CountGate(log, minimums)
  {
    assert !Exact(log[3]);
    NoDiagnostics(log, 4);
  }

  /** The capture exits 0 on a message without a stamp, and the reader refuses its sequence and its minimums. */
  lemma UnstampedRunIsRefused(d: string, a: string)
    ensures var c := Eager(d, a);
            var s := Run(c, Initial(0.0), UnstampedRun(d, a));
            s.phase == Exited(0) && !SequenceGate(s.log) && !CountGate(s.log, c.minimums)
  {
    UnstampedRunEnds(d, a);
    UnstampedLineIsRefused(AfterUnstamped(d, a).log, Unstamped(d));
  }

  /** Lines that are no exact diagnostics leave that stream empty. */
  lemma {:induction false} NoDiagnostics(log: seq<Record>, n: nat)
    requires n <= |log| && forall i | 0 <= i < n :: log[i].Sample? && log[i].message.DiagnosticArray? ==> !Exact(log[i])
    ensures OfStream(ExactUpTo(log, n), Diagnostics) == []
  {
    if n > 1 {
      NoDiagnostics(log, n - 1);
      var before := ExactUpTo(log, n - 1);
      if Exact(log[n - 1]) {
        assert (before + [log[n - 1]])[..|before|] == before;
      }
    }
  }

  // ---------------------------------------------------------------- the paired suffix

  /** Every acceptance carries a remote time the status stream also carries. */
  ghost predicate Drawn(acceptance: seq<int>, status: seq<int>) {
    forall i | 0 <= i < |acceptance| :: acceptance[i] in status
  }

  /** Two increasing sequences, one drawn from the other, that agree on the last j values agree on one more. */
  lemma NextFromTheEnd(status: seq<int>, acceptance: seq<int>, j: nat)
    requires Increasing(status) && Increasing(acceptance) && Drawn(acceptance, status)
    requires j < |status| && j <= |acceptance|
    requires j > 0 ==> acceptance[|acceptance| - j] == status[|status| - j]
    requires status[|status| - 1 - j] in acceptance
    ensures j < |acceptance| && acceptance[|acceptance| - 1 - j] == status[|status| - 1 - j]
  {
    IncreasingThroughout(status);
    IncreasingThroughout(acceptance);
    var s, a := |status| - 1 - j, |acceptance| - 1 - j;
    var i :| 0 <= i < |acceptance| && acceptance[i] == status[s];
    assert i <= a;
    var m :| 0 <= m < |status| && status[m] == acceptance[a];
    assert m <= s;
  }

  /** The last k values of both sequences are the same. */
  ghost predicate SameTail(status: seq<int>, acceptance: seq<int>, k: nat) {
    |status| >= k && |acceptance| >= k && Timesync.Tail(acceptance, k) == Timesync.Tail(status, k)
  }

  lemma LongerTail(s: seq<int>, k: nat)
    requires 0 < k <= |s|
    ensures Timesync.Tail(s, k) == [s[|s| - k]] + Timesync.Tail(s, k - 1)
  {
  }

  lemma {:induction false} PairedTailsAgree(status: seq<int>, acceptance: seq<int>, k: nat)
    requires Increasing(status) && Increasing(acceptance) && Drawn(acceptance, status)
    requires k <= |status| && forall i | |status| - k <= i < |status| :: status[i] in acceptance
    ensures SameTail(status, acceptance, k)
    decreases k
  {
    if k > 0 {
      PairedTailsAgree(status, acceptance, k - 1);
      if k > 1 {
        assert Timesync.Tail(status, k - 1)[0] == Timesync.Tail(acceptance, k - 1)[0];
      }
      NextFromTheEnd(status, acceptance, k - 1);
      LongerTail(status, k);
      LongerTail(acceptance, k);
    }
  }

  lemma TailMembers(s: seq<int>, k: nat)
    requires k <= |s|
    ensures |Timesync.Tail(s, k)| == k
    ensures forall i | |s| - k <= i < |s| :: s[i] == Timesync.Tail(s, k)[i - (|s| - k)]
    ensures forall i | 0 <= i < k :: Timesync.Tail(s, k)[i] in s
  {
    assert forall i | 0 <= i < k :: Timesync.Tail(s, k)[i] == s[|s| - k + i];
  }

  /** On increasing streams the pair gate says exactly that the two streams end in the same k remotes. */
  lemma PairedMeansSameTail(status: seq<int>, acceptance: seq<int>, k: nat)
    requires Increasing(status) && Increasing(acceptance) && Drawn(acceptance, status)
    ensures Paired(status, acceptance, k) <==> SameTail(status, acceptance, k)
  {
    if Paired(status, acceptance, k) {
      TailMembers(status, k);
      PairedTailsAgree(status, acceptance, k);
    }
    if SameTail(status, acceptance, k) {
      TailMembers(acceptance, k);
      DistinctTail(status, k);
    }
  }

  lemma DistinctTail(s: seq<int>, k: nat)
    requires Increasing(s)
    ensures DistinctInts(Timesync.Tail(s, k))
  {
    IncreasingThroughout(s);
    var base := |s| - |Timesync.Tail(s, k)|;
    assert forall i | 0 <= i < |Timesync.Tail(s, k)| :: Timesync.Tail(s, k)[i] == s[base + i];
  }

  lemma ShorterTail(status: seq<int>, acceptance: seq<int>, k: nat, required: nat)
    requires SameTail(status, acceptance, k) && required <= k
    ensures SameTail(status, acceptance, required)
  {
    var a, b := Timesync.Tail(acceptance, k), Timesync.Tail(status, k);
    assert Timesync.Tail(acceptance, required) == a[k - required..];
    assert Timesync.Tail(status, required) == b[k - required..];
  }

  lemma SameTailMeetsIndexGate(status: seq<int>, acceptance: seq<int>, required: nat)
    requires Increasing(status) && SameTail(status, acceptance, required)
    ensures Timesync.TailIndexGate(status, Timesync.Tail(acceptance, required), required)
  {
    var wanted := Timesync.Tail(acceptance, required);
    IncreasingThroughout(status);
    forall j: nat | j < required
      ensures Timesync.OnlyAt(status, |status| - required + j, wanted[j])
    {
      assert wanted[j] == status[|status| - required + j];
    }
    Timesync.TailIndexGateMeaning(status, wanted, required);
  }

  /**
   The frozen suffix is what the reader looks for: with increasing streams, the log of an exit-0 run meets the
   tail index gate of the accepted-sequence report for every tail length up to the acceptance minimum.
   */
  lemma ExitZeroMeetsIndexGate(c: Config, deadline: real, events: seq<Event>, required: nat)
    requires Run(c, Initial(deadline), events).phase == Exited(0)
    requires required <= c.minimums.acceptance
    requires var log := Run(c, Initial(deadline), events).log;
             var status, acceptance := StatusRemotes(log), AcceptanceRemotes(log, c.acceptanceName);
             Increasing(status) && Increasing(acceptance) && Drawn(acceptance, status)
    ensures var log := Run(c, Initial(deadline), events).log;
            var acceptance := AcceptanceRemotes(log, c.acceptanceName);
            Timesync.TailIndexGate(StatusRemotes(log), Timesync.Tail(acceptance, required), required)
  {
    var log := Run(c, Initial(deadline), events).log;
    var status, acceptance := StatusRemotes(log), AcceptanceRemotes(log, c.acceptanceName);
    ExitZeroLog(c, deadline, events);
    PairedMeansSameTail(status, acceptance, c.minimums.acceptance);
    ShorterTail(status, acceptance, c.minimums.acceptance, required);
    SameTailMeetsIndexGate(status, acceptance, required);
  }
}
