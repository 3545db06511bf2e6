/** What the capture never misses: every message of the open window, the moment to freeze, and its exit. */
module CaptureProgress {
  import opened Basics
  import opened Capture
  import opened CaptureRuns
  import Timesync

  /** How many logged samples of a stream count toward its minimum. */
  function QualifyingOf(c: Config, log: seq<Record>, stream: Stream): nat {
    if log == [] then 0
    else
      var n := |log| - 1;
      QualifyingOf(c, log[..n], stream) +
      if log[n].Sample? && log[n].message.Stream() == stream && c.Qualifies(log[n].message) then 1 else 0
  }

  /** The counts are exactly the qualifying lines, and the window is open from the ready record to the freeze. */
  ghost predicate Exact(c: Config, s: State) {
    && s.counts == Minimums(QualifyingOf(c, s.log, TimesyncStatus), QualifyingOf(c, s.log, Diagnostics),
                            QualifyingOf(c, s.log, AcceptedSequence))
    && (s.ready <==> s.log != [] && !s.complete)
  }

  lemma QualifyingStep(c: Config, log: seq<Record>, r: Record, stream: Stream)
    ensures QualifyingOf(c, log + [r], stream) ==
            QualifyingOf(c, log, stream) +
            if r.Sample? && r.message.Stream() == stream && c.Qualifies(r.message) then 1 else 0
  {
    assert (log + [r])[..|log|] == log;
  }

  lemma QualifyingLine(c: Config, log: seq<Record>, r: Record)
    ensures forall stream :: QualifyingOf(c, log + [r], stream) ==
              QualifyingOf(c, log, stream) +
              if r.Sample? && r.message.Stream() == stream && c.Qualifies(r.message) then 1 else 0
  {
    forall stream: Stream
      ensures QualifyingOf(c, log + [r], stream) ==
              QualifyingOf(c, log, stream) +
              if r.Sample? && r.message.Stream() == stream && c.Qualifies(r.message) then 1 else 0
    {
      QualifyingStep(c, log, r, stream);
    }
  }

  lemma AppendKeepsExact(c: Config, s: State, message: Message, ros: int, steady: int)
    requires Exact(c, s) && s.ready
    ensures Exact(c, Append(c, s, message, ros, steady))
  {
    QualifyingLine(c, s.log, Sample(s.sequence, ros, steady, message.header.Stamp(), message));
  }

  lemma AdvanceKeepsExact(c: Config, s: State, now: real)
    requires Exact(c, s)
    ensures Exact(c, Advance(c, s, now))
  {
  }

  lemma OpenKeepsExact(c: Config, s: State, connections: Connections, ros: int, steady: int, now: real)
    requires Exact(c, s) && Sound(c, s)
    ensures Exact(c, Step(c, s, Open(connections, ros, steady, now)))
  {
    QualifyingLine(c, s.log, Ready(s.sequence, ros, steady, connections));
  }

  lemma StepKeepsExact(c: Config, s: State, e: Event)
    requires Exact(c, s) && Sound(c, s)
    ensures Exact(c, Step(c, s, e))
  {
    match e
    case Arrive(message, ros, steady, now) =>
      if s.ready {
        AppendKeepsExact(c, s, message, ros, steady);
        AdvanceKeepsExact(c, Append(c, s, message, ros, steady), now);
      }
    case Open(connections, ros, steady, now) => OpenKeepsExact(c, s, connections, ros, steady, now);
    case Connect(_, _, _) =>
    case Poll(_, _) =>
  }

  lemma {:induction false} RunIsExact(c: Config, deadline: real, events: seq<Event>)
    ensures Exact(c, Run(c, Initial(deadline), events)) && Sound(c, Run(c, Initial(deadline), events))
  {
    if events == [] {
      InitialIsSound(c, deadline);
    } else {
      var n := |events| - 1;
      RunIsExact(c, deadline, events[..n]);
      RunOneMore(c, Initial(deadline), events[..n], events[n]);
      StepKeepsExact(c, Run(c, Initial(deadline), events[..n]), events[n]);
      StepKeepsSound(c, Run(c, Initial(deadline), events[..n]), events[n]);
      assert events == events[..n] + [events[n]];
    }
  }

  /** The line a message becomes. */
  function LineOf(sequence: nat, message: Message, ros: int, steady: int): Record {
    Sample(sequence, ros, steady, message.header.secs * 1000000000 + message.header.nsecs, message)
  }

  lemma ArrivalStep(c: Config, s: State, message: Message, ros: int, steady: int, now: real)
    requires s.sequence == |s.log| && (s.ready <==> s.log != [] && !s.complete)
    ensures Step(c, s, Arrive(message, ros, steady, now)).log ==
            if s.log != [] && !s.complete then s.log + [LineOf(|s.log|, message, ros, steady)] else s.log
  {
  }

  /** In every run each message of the open window becomes the next line of the log, and no other message does. */
  lemma EveryArrivalIsLogged(c: Config, deadline: real, events: seq<Event>, message: Message, ros: int, steady: int,
                             now: real)
    ensures var s := Run(c, Initial(deadline), events);
            Run(c, Initial(deadline), events + [Arrive(message, ros, steady, now)]).log ==
            if s.log != [] && !s.complete then s.log + [LineOf(|s.log|, message, ros, steady)] else s.log
  {
    RunIsExact(c, deadline, events);
    RunOneMore(c, Initial(deadline), events, Arrive(message, ros, steady, now));
    ArrivalStep(c, Run(c, Initial(deadline), events), message, ros, steady, now);
  }

  // ---------------------------------------------------------------- the freeze

  /** The log holds every stream's minimum of qualifying lines. */
  ghost predicate EnoughLogged(c: Config, log: seq<Record>) {
    forall stream :: QualifyingOf(c, log, stream) >= c.minimums.Of(stream)
  }

  /** The last k logged status remotes differ and were all logged as accepted. */
  ghost predicate PairedLog(c: Config, log: seq<Record>) {
    var rows, k := StatusRemotes(log), c.minimums.acceptance;
    && |rows| >= k
    && (forall i, j | |rows| - k <= i < j < |rows| :: rows[i] != rows[j])
    && (forall i | |rows| - k <= i < |rows| :: rows[i] in AcceptanceRemotes(log, c.acceptanceName))
  }

  lemma PairedIsLogged(c: Config, s: State)
    requires Sound(c, s)
    ensures Paired(s.statusRemotes, s.acceptanceRemotes, c.minimums.acceptance) <==> PairedLog(c, s.log)
  {
    var rows, k := s.statusRemotes, c.minimums.acceptance;
    if |rows| >= k {
      var tail, base := Timesync.Tail(rows, k), |rows| - k;
      assert forall i | 0 <= i < k :: tail[i] == rows[base + i];
      assert forall i | base <= i < |rows| :: rows[i] == tail[i - base];
    }
  }

  lemma EnoughIsLogged(c: Config, s: State)
    requires Exact(c, s)
    ensures MinimumsMet(s.counts, c.minimums) <==> EnoughLogged(c, s.log)
  {
    if EnoughLogged(c, s.log) {
      assert QualifyingOf(c, s.log, TimesyncStatus) >= c.minimums.Of(TimesyncStatus);
      assert QualifyingOf(c, s.log, Diagnostics) >= c.minimums.Of(Diagnostics);
      assert QualifyingOf(c, s.log, AcceptedSequence) >= c.minimums.Of(AcceptedSequence);
    }
  }

  /** Event i is the message with which the log first held every minimum. */
  ghost predicate FirstEnough(c: Config, deadline: real, events: seq<Event>, i: nat) {
    && i < |events| && events[i].Arrive?
    && !EnoughLogged(c, Run(c, Initial(deadline), events[..i]).log)
    && EnoughLogged(c, Run(c, Initial(deadline), events[..i + 1]).log)
  }

  /** A full grace period has passed since that message. */
  ghost predicate GraceOver(c: Config, deadline: real, events: seq<Event>, now: real) {
    exists i: nat :: FirstEnough(c, deadline, events, i) && now >= events[i].now + c.grace
  }

  lemma FirstEnoughMeets(c: Config, deadline: real, events: seq<Event>, i: nat)
    ensures FirstEnough(c, deadline, events, i) <==> FirstMeets(c, Initial(deadline), events, i)
  {
    if i < |events| {
      RunIsExact(c, deadline, events[..i]);
      RunIsExact(c, deadline, events[..i + 1]);
      EnoughIsLogged(c, Run(c, Initial(deadline), events[..i]));
      EnoughIsLogged(c, Run(c, Initial(deadline), events[..i + 1]));
    }
  }

  /** Minimums once met stay met, so the message that met them is the only one. */
  lemma {:induction false} MetStays(c: Config, deadline: real, events: seq<Event>, i: nat)
    requires i <= |events| && MinimumsMet(Run(c, Initial(deadline), events[..i]).counts, c.minimums)
    ensures MinimumsMet(Run(c, Initial(deadline), events).counts, c.minimums)
    decreases |events|
  {
    if i == |events| {
      assert events[..i] == events;
    } else {
      var n := |events| - 1;
      assert events[..n][..i] == events[..i];
      MetStays(c, deadline, events[..n], i);
      RunOneMore(c, Initial(deadline), events[..n], events[n]);
      assert events == events[..n] + [events[n]];
    }
  }

  lemma OneFirstMeets(c: Config, deadline: real, events: seq<Event>, i: nat, j: nat)
    requires FirstMeets(c, Initial(deadline), events, i) && FirstMeets(c, Initial(deadline), events, j)
    ensures i == j
  {
    if i < j {
      assert events[..j][..i + 1] == events[..i + 1];
      MetStays(c, deadline, events[..j], i + 1);
    } else if j < i {
      assert events[..i][..j + 1] == events[..j + 1];
      MetStays(c, deadline, events[..i], j + 1);
    }
  }

  lemma DueIsGraceOver(c: Config, deadline: real, events: seq<Event>, now: real)
    requires c.Valid()
    ensures Due(Run(c, Initial(deadline), events), now) <==> GraceOver(c, deadline, events, now)
  {
    var start := Initial(deadline);
    var s := Run(c, start, events);
    GraceHolds(c, start, events);
    if Due(s, now) {
      var i := SettingMessage(c, start, events);
      FirstEnoughMeets(c, deadline, events, i);
    }
    if GraceOver(c, deadline, events, now) {
      var i: nat :| FirstEnough(c, deadline, events, i) && now >= events[i].now + c.grace;
      FirstEnoughMeets(c, deadline, events, i);
      MetStays(c, deadline, events, i + 1);
      var j := SettingMessage(c, start, events);
      OneFirstMeets(c, deadline, events, i, j);
    }
  }

  lemma FreezeStep(c: Config, s: State, e: Event)
    requires s.ready && !s.complete && (MinimumsMet(s.counts, c.minimums) <==> s.eligibleAfter.Some?)
    requires e.Arrive? || (e.Poll? && s.phase.Polling? && !e.shutdown)
    ensures var next := Step(c, s, e);
            next.complete
            <==> Due(next, e.now) && Paired(next.statusRemotes, next.acceptanceRemotes, c.minimums.acceptance)
  {
  }

  /**
   In every run an open window freezes with a message, or with a poll while the process still polls, exactly when a full
   grace period has passed since the log first held every minimum and the log ends in a paired suffix.
   */
  lemma FreezesExactly(c: Config, deadline: real, events: seq<Event>, e: Event)
    requires c.Valid() && Run(c, Initial(deadline), events).log != [] && !Run(c, Initial(deadline), events).complete
    requires e.Arrive? || (e.Poll? && Run(c, Initial(deadline), events).phase.Polling? && !e.shutdown)
    ensures var next := Run(c, Initial(deadline), events + [e]);
            next.complete <==> GraceOver(c, deadline, events + [e], e.now) && PairedLog(c, next.log)
  {
    var start := Initial(deadline);
    RunIsExact(c, deadline, events);
    RunIsExact(c, deadline, events + [e]);
    GraceHolds(c, start, events);
    RunOneMore(c, start, events, e);
    FreezeStep(c, Run(c, start, events), e);
    DueIsGraceOver(c, deadline, events + [e], e.now);
    PairedIsLogged(c, Run(c, start, events + [e]));
  }

  // ---------------------------------------------------------------- the exit

  /** The window was opened by an event whose capture timeout ends then. */
  ghost predicate OpenedUntil(c: Config, events: seq<Event>, end: real) {
    exists i | 0 <= i < |events| :: OpensUntil(c, events, i, end)
  }

  ghost predicate OpensUntil(c: Config, events: seq<Event>, i: nat, end: real) {
    i < |events| && events[i].Open? && end == events[i].now + c.captureTimeout
  }

  lemma {:induction false} DeadlineIsOpened(c: Config, deadline: real, events: seq<Event>)
    ensures var s := Run(c, Initial(deadline), events);
            && (s.phase.Polling? ==> OpenedUntil(c, events, s.phase.deadline))
            && (s.phase.Connecting? ==> s.phase.deadline == deadline)
  {
    if events != [] {
      var n := |events| - 1;
      var before := Run(c, Initial(deadline), events[..n]);
      DeadlineIsOpened(c, deadline, events[..n]);
      RunOneMore(c, Initial(deadline), events[..n], events[n]);
      assert events == events[..n] + [events[n]];
      if before.phase.Polling? {
        var i :| 0 <= i < n && OpensUntil(c, events[..n], i, before.phase.deadline);
        assert OpensUntil(c, events, i, before.phase.deadline);
      } else if Run(c, Initial(deadline), events).phase.Polling? {
        assert OpensUntil(c, events, n, Run(c, Initial(deadline), events).phase.deadline);
      }
    }
  }

  /**
   How a poll ends the process: with 0 exactly when the log is frozen and nothing shut it down, with 3 exactly when it
   was shut down or the timeout of the window has passed before a freeze; otherwise it goes on polling.
   */
  lemma PollExitsExactly(c: Config, deadline: real, events: seq<Event>, now: real, shutdown: bool)
    requires Run(c, Initial(deadline), events).phase.Polling?
    ensures var s, next := Run(c, Initial(deadline), events), Run(c, Initial(deadline), events + [Poll(now, shutdown)]);
            && OpenedUntil(c, events, s.phase.deadline)
            && (next.phase == Exited(0) <==> !shutdown && next.complete)
            && (next.phase == Exited(3) <==> shutdown || (!next.complete && now >= s.phase.deadline))
            && (next.phase == Exited(0) || next.phase == Exited(3) || next.phase == s.phase)
            && next.log == s.log
  {
    RunOneMore(c, Initial(deadline), events, Poll(now, shutdown));
    DeadlineIsOpened(c, deadline, events);
  }

  /** A pass of the connection loop goes on exactly with all publishers there, and gives up exactly when late. */
  lemma ConnectExitsExactly(c: Config, deadline: real, events: seq<Event>, connections: Connections, now: real,
                            shutdown: bool)
    requires Run(c, Initial(deadline), events).phase.Connecting?
    ensures var next := Run(c, Initial(deadline), events + [Connect(connections, now, shutdown)]);
            var all := connections.status >= 1 && connections.diagnostics >= 1 && connections.acceptance >= 1;
            && (next.phase == Opening <==> !shutdown && all)
            && (next.phase == Exited(3) <==> shutdown || (!all && now >= deadline))
            && (next.phase == Opening || next.phase == Exited(3) || next.phase == Connecting(deadline))
            && next.log == []
  {
    RunOneMore(c, Initial(deadline), events, Connect(connections, now, shutdown));
    DeadlineIsOpened(c, deadline, events);
    RunIsExact(c, deadline, events);
  }
}
