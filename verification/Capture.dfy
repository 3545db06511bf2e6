/**
 The concurrent timesync capture as a step system: three subscriber callbacks and the polling main loop
 share one lock-protected state. Each lock-holding block is one atomic step.
 */
module Capture {
  import opened Basics
  import Timesync

  /** A diagnostic value: the number its text spells in digits, without leading zeros or with, or any other text. */
  datatype Text = Digits(value: nat, canonical: bool) | Other

  datatype KeyValue = KeyValue(key: string, value: Text)

  /**
   One diagnostic status. wellFormed: its own fields and its key-value entries are well-typed. fields: the typed values,
   if the keys are exactly those of an accepted-sequence record and every value but the remote time parses.
   */
  datatype Status = Status(
    name: string, level: int, wellFormed: bool, fields: Option<Timesync.Fields>, values: seq<KeyValue>)

  datatype Header = Header(secs: int, nsecs: int)
  {
    function Stamp(): int {
      secs * 1000000000 + nsecs
    }

    predicate Valid() {
      secs >= 0 && 0 <= nsecs <= 999999999 && Stamp() >= 1
    }
  }

  datatype Stream = TimesyncStatus | Diagnostics | AcceptedSequence

  datatype Message =
    | StatusRow(header: Header, remote: int, observed: Timesync.Number, estimated: Timesync.Number, rtt: real)
    | DiagnosticArray(header: Header, statuses: seq<Status>)
    | AcceptanceArray(header: Header, statuses: seq<Status>)
  {
    function Stream(): Stream {
      match this
      case StatusRow(_, _, _, _, _) => TimesyncStatus
      case DiagnosticArray(_, _) => Diagnostics
      case AcceptanceArray(_, _) => AcceptedSequence
    }
  }

  datatype Connections = Connections(status: nat, diagnostics: nat, acceptance: nat)
  {
    predicate All() {
      status >= 1 && diagnostics >= 1 && acceptance >= 1
    }
  }

  /** One line of the trace. */
  datatype Record =
    | Ready(sequence: nat, ros: int, steady: int, connections: Connections)
    | Sample(sequence: nat, ros: int, steady: int, stamp: int, message: Message)

  datatype Minimums = Minimums(status: nat, diagnostics: nat, acceptance: nat)
  {
    function Of(stream: Stream): nat {
      match stream
      case TimesyncStatus => status
      case Diagnostics => diagnostics
      case AcceptedSequence => acceptance
    }
  }

  datatype Config = Config(
    minimums: Minimums, diagnosticName: string, acceptanceName: string, captureTimeout: real, grace: real)
  {
    predicate Valid() {
      && minimums.status >= 1 && minimums.diagnostics >= 1 && minimums.acceptance >= 1
      && 0.0 <= grace < captureTimeout
    }

    /** Whether a message counts toward its stream's minimum. */
    predicate Qualifies(message: Message) {
      match message
      case StatusRow(_, _, _, _, _) => true
      case DiagnosticArray(_, statuses) => Names(statuses, diagnosticName)
      case AcceptanceArray(_, statuses) => Names(statuses, acceptanceName)
    }
  }

  predicate Names(statuses: seq<Status>, name: string) {
    exists i | 0 <= i < |statuses| :: statuses[i].name == name
  }

  const REMOTE_KEY := "remote_timestamp_ns"

  /** The values of one key, in order. */
  function ValuesOf(values: seq<KeyValue>, key: string): seq<Text> {
    if values == [] then []
    else
      var n := |values| - 1;
      var before := ValuesOf(values[..n], key);
      if values[n].key == key then before + [values[n].value] else before
  }

  function RemoteValues(values: seq<KeyValue>): seq<Text> {
    ValuesOf(values, REMOTE_KEY)
  }

  function RemoteOf(status: Status): seq<int> {
    var values := RemoteValues(status.values);
    if |values| == 1 && values[0].Digits? then [values[0].value] else []
  }

  /** The remote times the statuses of one name carry. */
  function RemotesOf(statuses: seq<Status>, name: string): seq<int> {
    if statuses == [] then []
    else
      var n := |statuses| - 1;
      RemotesOf(statuses[..n], name) + if statuses[n].name == name then RemoteOf(statuses[n]) else []
  }

  method CollectRemotes(statuses: seq<Status>, name: string) returns (remotes: seq<int>)
    ensures remotes == RemotesOf(statuses, name)
  {
    remotes := [];
    for i := 0 to |statuses|
      invariant remotes == RemotesOf(statuses[..i], name)
    {
      assert statuses[..i + 1][..i] == statuses[..i];
      if statuses[i].name != name {
        continue;
      }
      var values := RemoteValues(statuses[i].values);
      if |values| == 1 && values[0].Digits? {
        remotes := remotes + [values[0].value];
      }
    }
    assert statuses[..|statuses|] == statuses;
  }

  // ---------------------------------------------------------------- the step system

  datatype Phase = Connecting(deadline: real) | Opening | Polling(deadline: real) | Exited(code: int)

  datatype State = State(
    ready: bool, sequence: nat, counts: Minimums, statusRemotes: seq<int>, acceptanceRemotes: seq<int>,
    eligibleAfter: Option<real>, complete: bool, log: seq<Record>, phase: Phase)

  datatype Event =
    | Arrive(message: Message, ros: int, steady: int, now: real)
    | Connect(connections: Connections, now: real, shutdown: bool)
    | Open(ready: Connections, ros: int, steady: int, now: real)
    | Poll(now: real, shutdown: bool)

  predicate MinimumsMet(counts: Minimums, minimums: Minimums) {
    counts.status >= minimums.status && counts.diagnostics >= minimums.diagnostics &&
    counts.acceptance >= minimums.acceptance
  }

  predicate DistinctInts(s: seq<int>) {
    forall i, j | 0 <= i < j < |s| :: s[i] != s[j]
  }

  /** The last k status remotes exist, differ, and have all been accepted. */
  predicate Paired(status: seq<int>, acceptance: seq<int>, k: nat) {
    var tail := Timesync.Tail(status, k);
    |tail| == k && DistinctInts(tail) && forall i | 0 <= i < |tail| :: tail[i] in acceptance
  }

  function Count(counts: Minimums, stream: Stream): Minimums {
    match stream
    case TimesyncStatus => counts.(status := counts.status + 1)
    case Diagnostics => counts.(diagnostics := counts.diagnostics + 1)
    case AcceptedSequence => counts.(acceptance := counts.acceptance + 1)
  }

  function Append(c: Config, s: State, message: Message, ros: int, steady: int): State {
    var counted := if c.Qualifies(message) then Count(s.counts, message.Stream()) else s.counts;
    s.(log := s.log + [Sample(s.sequence, ros, steady, message.header.Stamp(), message)],
       sequence := s.sequence + 1,
       counts := counted,
       statusRemotes := s.statusRemotes + if message.StatusRow? then [message.remote] else [],
       acceptanceRemotes := s.acceptanceRemotes +
         if message.AcceptanceArray? then RemotesOf(message.statuses, c.acceptanceName) else [])
  }

  predicate Due(s: State, now: real) {
    s.eligibleAfter.Some? && now >= s.eligibleAfter.value
  }

  function Settle(c: Config, s: State): State {
    if Paired(s.statusRemotes, s.acceptanceRemotes, c.minimums.acceptance) then s.(ready := false, complete := true)
    else s
  }

  /** After a message has been logged: start the grace period, or end the capture. */
  function Advance(c: Config, s: State, now: real): State {
    var met := MinimumsMet(s.counts, c.minimums);
    var timed := if met && s.eligibleAfter.None? then s.(eligibleAfter := Some(now + c.grace)) else s;
    if met && Due(timed, now) then Settle(c, timed) else timed
  }

  function ArriveStep(c: Config, s: State, message: Message, ros: int, steady: int, now: real): State {
    if !s.ready then s else Advance(c, Append(c, s, message, ros, steady), now)
  }

  function PollStep(c: Config, s: State, now: real, shutdown: bool): State
    requires s.phase.Polling?
  {
    if shutdown then s.(phase := Exited(3))
    else
      var settled := if !s.complete && Due(s, now) then Settle(c, s) else s;
      if settled.complete then settled.(phase := Exited(0))
      else if now >= s.phase.deadline then settled.(phase := Exited(3))
      else settled
  }

  /** One atomic step; an event the main thread is not waiting for changes nothing. */
  function Step(c: Config, s: State, e: Event): State {
    match e
    case Arrive(message, ros, steady, now) => ArriveStep(c, s, message, ros, steady, now)
    case Connect(connections, now, shutdown) =>
      if !s.phase.Connecting? then s
      else if shutdown then s.(phase := Exited(3))
      else if connections.All() then s.(phase := Opening)
      else if now >= s.phase.deadline then s.(phase := Exited(3))
      else s
    case Open(connections, ros, steady, now) =>
      if !s.phase.Opening? then s
      else s.(log := s.log + [Ready(s.sequence, ros, steady, connections)], sequence := s.sequence + 1,
              ready := true, phase := Polling(now + c.captureTimeout))
    case Poll(now, shutdown) => if s.phase.Polling? then PollStep(c, s, now, shutdown) else s
  }

  function Initial(connectionDeadline: real): State {
    State(false, 0, Minimums(0, 0, 0), [], [], None, false, [], Connecting(connectionDeadline))
  }

  function Run(c: Config, s: State, events: seq<Event>): State
    decreases |events|
  {
    if events == [] then s else Run(c, Step(c, s, events[0]), events[1..])
  }

  /** The capture process: the callbacks and the main loop update these fields in place. */
  class TimesyncCapture {
    const config: Config
    var ready: bool
    var sequence: nat
    var counts: Minimums
    var statusRemotes: seq<int>
    var acceptanceRemotes: seq<int>
    var eligibleAfter: Option<real>
    var complete: bool
    var log: seq<Record>
    var phase: Phase

    function Abstract(): State
      reads this
    {
      State(ready, sequence, counts, statusRemotes, acceptanceRemotes, eligibleAfter, complete, log, phase)
    }

    constructor (config: Config, connectionDeadline: real)
      requires config.Valid()
      ensures this.config == config && Abstract() == Initial(connectionDeadline)
    {
      this.config := config;
      ready, sequence, counts := false, 0, Minimums(0, 0, 0);
      statusRemotes, acceptanceRemotes := [], [];
      eligibleAfter, complete, log, phase := None, false, [], Connecting(connectionDeadline);
    }

    /** Writes the envelope of one message and accounts for it. */
    method Account(message: Message, ros: int, steady: int)
      modifies this
      ensures Abstract() == Append(config, old(Abstract()), message, ros, steady)
    {
      log := log + [Sample(sequence, ros, steady, message.header.Stamp(), message)];
      sequence := sequence + 1;
      var qualifies := config.Qualifies(message);
      if qualifies {
        counts := Count(counts, message.Stream());
      }
      match message
      case StatusRow(_, remote, _, _, _) =>
        statusRemotes := statusRemotes + [remote];
      case AcceptanceArray(_, statuses) =>
        var remotes := [];
        if qualifies {
          remotes := CollectRemotes(statuses, config.acceptanceName);
        } else {
          UnnamedCarriesNone(statuses, config.acceptanceName);
        }
        acceptanceRemotes := acceptanceRemotes + remotes;
      case DiagnosticArray(_, _) =>
    }

    method Progress(now: real)
      modifies `ready, `complete, `eligibleAfter
      ensures Abstract() == Advance(config, old(Abstract()), now)
    {
      var minimumGate := MinimumsMet(counts, config.minimums);
      if minimumGate && eligibleAfter.None? {
        eligibleAfter := Some(now + config.grace);
      }
      if minimumGate && eligibleAfter.Some? && now >= eligibleAfter.value &&
         Paired(statusRemotes, acceptanceRemotes, config.minimums.acceptance) {
        ready, complete := false, true;
      }
    }

    method Observe(message: Message, ros: int, steady: int, now: real)
      modifies this
      ensures Abstract() == Step(config, old(Abstract()), Arrive(message, ros, steady, now))
    {
      if ready {
        Account(message, ros, steady);
        Progress(now);
      }
    }

    /** One pass of the connection loop. */
    method AwaitConnections(connections: Connections, now: real, shutdown: bool)
      requires phase.Connecting?
      modifies this
      ensures Abstract() == Step(config, old(Abstract()), Connect(connections, now, shutdown))
    {
      if shutdown {
        phase := Exited(3);
      } else if connections.All() {
        phase := Opening;
      } else if now >= phase.deadline {
        phase := Exited(3);
      }
    }

    method OpenBarrier(connections: Connections, ros: int, steady: int, now: real)
      requires phase.Opening?
      modifies this
      ensures Abstract() == Step(config, old(Abstract()), Open(connections, ros, steady, now))
    {
      log := log + [Ready(sequence, ros, steady, connections)];
      sequence := sequence + 1;
      ready := true;
      phase := Polling(now + config.captureTimeout);
    }

    /** One pass of the main polling loop. */
    method PollOnce(now: real, shutdown: bool)
      requires phase.Polling?
      modifies this
      ensures Abstract() == Step(config, old(Abstract()), Poll(now, shutdown))
    {
      if shutdown {
        phase := Exited(3);
        return;
      }
      if !complete && eligibleAfter.Some? && now >= eligibleAfter.value {
        if Paired(statusRemotes, acceptanceRemotes, config.minimums.acceptance) {
          ready, complete := false, true;
        }
      }
      if complete {
        phase := Exited(0);
      } else if now >= phase.deadline {
        phase := Exited(3);
      }
    }
  }

  lemma {:induction false} UnnamedCarriesNone(statuses: seq<Status>, name: string)
    requires !Names(statuses, name)
    ensures RemotesOf(statuses, name) == []
  {
    if statuses != [] {
      UnnamedCarriesNone(statuses[..|statuses| - 1], name);
    }
  }
}
