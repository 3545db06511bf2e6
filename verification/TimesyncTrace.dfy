/** From the captured trace to the timesync report: the rows and records read, and what they are in a capture run. */
module TimesyncTrace {
  import opened Basics
  import opened Capture
  import opened TraceParser
  import CaptureRuns
  import Timesync

  /** The samples of one stream, as the parser keeps them. */
  ghost predicate AllOf(samples: seq<Record>, stream: Stream) {
    forall i | 0 <= i < |samples| :: samples[i].Sample? && samples[i].message.Stream() == stream
  }

  function RowOf(r: Record): Timesync.Row
    requires r.Sample? && r.message.StatusRow?
  {
    Timesync.Row(r.stamp, r.message.remote, r.message.observed, r.message.estimated, r.message.rtt, r.steady)
  }

  /** The status stream as the report reads it. */
  function RowsOf(samples: seq<Record>): (rows: seq<Timesync.Row>)
    requires AllOf(samples, TimesyncStatus)
    ensures |rows| == |samples| && forall i | 0 <= i < |rows| :: rows[i] == RowOf(samples[i])
  {
    seq(|samples|, i requires 0 <= i < |samples| => RowOf(samples[i]))
  }

  // ---------------------------------------------------------------- diagnostic documents

  predicate DistinctKeys(values: seq<KeyValue>) {
    forall i, j | 0 <= i < j < |values| :: values[i].key != values[j].key
  }

  predicate CleanStatus(status: Status) {
    status.wellFormed && DistinctKeys(status.values)
  }

  /** Documents are the messages of a stream that carries status arrays. */
  ghost predicate Arrays(documents: seq<Record>) {
    forall i | 0 <= i < |documents| :: documents[i].Sample? && !documents[i].message.StatusRow?
  }

  /** Every document has statuses, and every status of every name is clean. */
  predicate Parsed(documents: seq<Record>)
    requires Arrays(documents)
  {
    && documents != []
    && forall i | 0 <= i < |documents| ::
         documents[i].message.statuses != [] &&
         forall j | 0 <= j < |documents[i].message.statuses| :: CleanStatus(documents[i].message.statuses[j])
  }

  /** The record of a status; of a repeated key the first value counts. */
  function RecordOf(status: Status, stamp: int, steady: int): Option<Timesync.Record> {
    var remotes := RemoteValues(status.values);
    if status.fields.Some? && |remotes| > 0 && remotes[0].Digits? && remotes[0].canonical then
      var f := status.fields.value;
      Some(Timesync.Record(stamp, steady, f.session, f.reset, f.observation, f.acceptedSequence, f.accepted,
                           f.converged, remotes[0].value, f.rtt, f.deviation, f.hashes))
    else None
  }

  const COUNTER_KEY := "Timesyncs since startup"

  /** The counter of a diagnostic status. */
  function CounterOf(status: Status): Option<nat> {
    var counters := ValuesOf(status.values, COUNTER_KEY);
    if |counters| > 0 && counters[0].Digits? && counters[0].canonical then Some(counters[0].value) else None
  }

  function MatchOf(status: Status, stamp: int, steady: int): Timesync.Matched {
    Timesync.Matched(status.level, stamp, CounterOf(status), RecordOf(status, stamp, steady))
  }

  function MatchedIn(statuses: seq<Status>, name: string, stamp: int, steady: int): seq<Timesync.Matched> {
    if statuses == [] then []
    else
      var n := |statuses| - 1;
      MatchedIn(statuses[..n], name, stamp, steady) +
      if statuses[n].name == name then [MatchOf(statuses[n], stamp, steady)] else []
  }

  /** The statuses of one name in all documents, in order. */
  function MatchedOf(documents: seq<Record>, name: string): seq<Timesync.Matched>
    requires Arrays(documents)
  {
    if documents == [] then []
    else
      var n := |documents| - 1;
      var last := documents[n];
      MatchedOf(documents[..n], name) + MatchedIn(last.message.statuses, name, last.stamp, last.steady)
  }

  method ReadStatuses(statuses: seq<Status>, name: string, stamp: int, steady: int)
    returns (matched: seq<Timesync.Matched>, clean: bool)
    ensures matched == MatchedIn(statuses, name, stamp, steady)
    ensures clean <==> forall j | 0 <= j < |statuses| :: CleanStatus(statuses[j])
  {
    matched, clean := [], true;
    for j := 0 to |statuses|
      invariant matched == MatchedIn(statuses[..j], name, stamp, steady)
      invariant clean <==> forall k | 0 <= k < j :: CleanStatus(statuses[k])
    {
      assert statuses[..j + 1][..j] == statuses[..j];
      var status := statuses[j];
      clean := clean && CleanStatus(status);
      if status.name == name {
        matched := matched + [MatchOf(status, stamp, steady)];
      }
    }
    assert statuses[..|statuses|] == statuses;
  }

  method DiagnosticRecords(documents: seq<Record>, name: string) returns (matched: seq<Timesync.Matched>, parsed: bool)
    requires Arrays(documents)
    ensures matched == MatchedOf(documents, name) && (parsed <==> Parsed(documents))
  {
    matched, parsed := [], documents != [];
    for i := 0 to |documents|
      invariant matched == MatchedOf(documents[..i], name)
      invariant parsed <==> documents != [] && forall k | 0 <= k < i ::
                  documents[k].message.statuses != [] &&
                  forall j | 0 <= j < |documents[k].message.statuses| :: CleanStatus(documents[k].message.statuses[j])
    {
      assert documents[..i + 1][..i] == documents[..i];
      var document := documents[i];
      var inDocument, clean := ReadStatuses(document.message.statuses, name, document.stamp, document.steady);
      matched := matched + inDocument;
      parsed := parsed && document.message.statuses != [] && clean;
    }
    assert documents[..|documents|] == documents;
  }

  /** What the report reads of a kept status line: its own header, remote time and arrival, and the residual to the
      estimate of the line before. */
  lemma RowsReadSamples(samples: seq<Record>, i: nat)
    requires AllOf(samples, TimesyncStatus) && i < |samples| && Exact(samples[i])
    ensures var m, row := samples[i].message, RowsOf(samples)[i];
            && row.stamp == m.header.secs * 1000000000 + m.header.nsecs && row.arrival == samples[i].steady
            && row.remote == m.remote && row.rtt == m.rtt
    ensures Timesync.Residual(RowsOf(samples), i) ==
            if i > 0 && !samples[i].message.observed.Absent? && !samples[i - 1].message.estimated.Absent?
            then Some(Abs(Timesync.Value(samples[i].message.observed) -
                          Timesync.Value(samples[i - 1].message.estimated)))
            else None
  {
  }

  /** With distinct keys, the values of a key are the one entry there is. */
  lemma {:induction false} ValueOfKey(values: seq<KeyValue>, key: string, v: Text)
    requires DistinctKeys(values)
    ensures KeyValue(key, v) in values <==> ValuesOf(values, key) == [v]
    ensures ValuesOf(values, key) != [] ==> exists i | 0 <= i < |values| :: values[i].key == key
    ensures |ValuesOf(values, key)| <= 1
  {
    if values != [] {
      var n := |values| - 1;
      ValueOfKey(values[..n], key, v);
      assert forall i | 0 <= i < n :: values[..n][i] == values[i];
      assert KeyValue(key, v) in values <==> KeyValue(key, v) in values[..n] || values[n] == KeyValue(key, v) by {
        assert values == values[..n] + [values[n]];
      }
      if values[n].key == key {
        assert ValuesOf(values[..n], key) == [] && ValuesOf(values, key) == [values[n].value];
      }
    }
  }

  /** The counter of a clean status is the number its one counter entry spells, without leading zeros. */
  lemma CounterIsEntry(status: Status, n: nat)
    requires CleanStatus(status)
    ensures CounterOf(status) == Some(n) <==> KeyValue(COUNTER_KEY, Digits(n, true)) in status.values
  {
    ValueOfKey(status.values, COUNTER_KEY, Digits(n, true));
  }

  /** A clean status has a record exactly when its typed values parse and its one remote-time entry spells a number. */
  lemma RecordIsEntry(status: Status, stamp: int, steady: int, n: nat)
    requires CleanStatus(status)
    ensures var record := RecordOf(status, stamp, steady);
            record.Some? && record.value.remote == n
            <==> status.fields.Some? && KeyValue(REMOTE_KEY, Digits(n, true)) in status.values
    ensures var record := RecordOf(status, stamp, steady);
            record.Some? ==>
              && record.value.stamp == stamp && record.value.arrival == steady
              && status.fields == Some(Timesync.Fields(
                   record.value.session, record.value.reset, record.value.observation, record.value.acceptedSequence,
                   record.value.accepted, record.value.converged, record.value.rtt, record.value.deviation,
                   record.value.hashes))
  {
    ValueOfKey(status.values, REMOTE_KEY, Digits(n, true));
  }

  // ---------------------------------------------------------------- the remote times both sides see

  function RemotesIn(documents: seq<Record>, name: string): seq<int>
    requires Arrays(documents)
  {
    if documents == [] then []
    else
      var n := |documents| - 1;
      RemotesIn(documents[..n], name) + RemotesOf(documents[n].message.statuses, name)
  }

  lemma {:induction false} DistinctHasOneRemote(values: seq<KeyValue>)
    requires DistinctKeys(values)
    ensures |RemoteValues(values)| <= 1
    ensures RemoteValues(values) != [] ==> exists i | 0 <= i < |values| :: values[i].key == REMOTE_KEY
  {
    if values != [] {
      var n := |values| - 1;
      DistinctHasOneRemote(values[..n]);
      assert forall i | 0 <= i < n :: values[..n][i] == values[i];
    }
  }

  /** The capture and the reader take the same remote time from a clean status that has a record. */
  lemma SameRemote(status: Status, stamp: int, steady: int)
    requires CleanStatus(status) && RecordOf(status, stamp, steady).Some?
    ensures RemoteOf(status) == [RecordOf(status, stamp, steady).value.remote]
  {
    DistinctHasOneRemote(status.values);
  }

  lemma {:induction false} WellFormedAppends(a: seq<Timesync.Matched>, b: seq<Timesync.Matched>)
    ensures Timesync.WellFormed(a + b) == Timesync.WellFormed(a) + Timesync.WellFormed(b)
  {
    if b == [] {
      assert a + b == a;
    } else {
      var n := |b| - 1;
      assert (a + b)[..|a| + n] == a + b[..n];
      WellFormedAppends(a, b[..n]);
    }
  }

  lemma RecordRemotesAppend(a: seq<Timesync.Record>, b: seq<Timesync.Record>)
    ensures Timesync.RecordRemotes(a + b) == Timesync.RecordRemotes(a) + Timesync.RecordRemotes(b)
  {
  }

  function TypedRemotes(matched: seq<Timesync.Matched>): seq<int> {
    Timesync.RecordRemotes(Timesync.WellFormed(matched))
  }

  lemma TypedRemotesAppend(a: seq<Timesync.Matched>, b: seq<Timesync.Matched>)
    ensures TypedRemotes(a + b) == TypedRemotes(a) + TypedRemotes(b)
  {
    WellFormedAppends(a, b);
    RecordRemotesAppend(Timesync.WellFormed(a), Timesync.WellFormed(b));
  }

  lemma OneTyped(status: Status, stamp: int, steady: int)
    requires CleanStatus(status) && RecordOf(status, stamp, steady).Some?
    ensures TypedRemotes([MatchOf(status, stamp, steady)]) == RemoteOf(status)
  {
    SameRemote(status, stamp, steady);
    var one := [MatchOf(status, stamp, steady)];
    assert one[..0] == [];
    assert Timesync.WellFormed(one) == [RecordOf(status, stamp, steady).value];
  }

  lemma {:induction false} SameRemotesIn(statuses: seq<Status>, name: string, stamp: int, steady: int)
    requires forall j | 0 <= j < |statuses| :: CleanStatus(statuses[j])
    requires Timesync.AllWellFormed(MatchedIn(statuses, name, stamp, steady))
    ensures TypedRemotes(MatchedIn(statuses, name, stamp, steady)) == RemotesOf(statuses, name)
  {
    if statuses != [] {
      var n := |statuses| - 1;
      var before, after := MatchedIn(statuses[..n], name, stamp, steady), MatchedIn(statuses, name, stamp, steady);
      assert forall k | 0 <= k < |before| :: after[k] == before[k];
      SameRemotesIn(statuses[..n], name, stamp, steady);
      if statuses[n].name == name {
        assert after[|before|] == MatchOf(statuses[n], stamp, steady);
        TypedRemotesAppend(before, [MatchOf(statuses[n], stamp, steady)]);
        OneTyped(statuses[n], stamp, steady);
      }
    }
  }

  /** On documents whose records are all well formed, reader and capture see the same remote times. */
  lemma {:induction false} SameRemotes(documents: seq<Record>, name: string)
    requires Arrays(documents) && (documents == [] || Parsed(documents))
    requires Timesync.AllWellFormed(MatchedOf(documents, name))
    ensures TypedRemotes(MatchedOf(documents, name)) == RemotesIn(documents, name)
  {
    if documents != [] {
      var n := |documents| - 1;
      var last := documents[n];
      var before := MatchedOf(documents[..n], name);
      var added := MatchedIn(last.message.statuses, name, last.stamp, last.steady);
      assert forall k | 0 <= k < |before| :: (before + added)[k] == before[k];
      assert forall k | 0 <= k < |added| :: (before + added)[|before| + k] == added[k];
      SameRemotes(documents[..n], name);
      SameRemotesIn(last.message.statuses, name, last.stamp, last.steady);
      TypedRemotesAppend(before, added);
    }
  }

  // ---------------------------------------------------------------- the log behind the streams

  ghost predicate AllSamples(s: seq<Record>) {
    forall i | 0 <= i < |s| :: s[i].Sample?
  }

  /** The ready record carries no remote times. */
  lemma {:induction false} RemotesAfterReady(log: seq<Record>, name: string)
    requires log != [] && log[0].Ready?
    ensures CaptureRuns.StatusRemotes(log) == CaptureRuns.StatusRemotes(log[1..])
    ensures CaptureRuns.AcceptanceRemotes(log, name) == CaptureRuns.AcceptanceRemotes(log[1..], name)
    decreases |log|
  {
    var n := |log| - 1;
    if n == 0 {
      assert log[..n] == [];
    } else {
      RemotesAfterReady(log[..n], name);
      assert log[1..][..n - 1] == log[..n][1..];
    }
  }

  lemma RemotesOfRows(before: seq<Record>, last: Record)
    requires AllOf(before, TimesyncStatus) && AllOf(before + [last], TimesyncStatus)
    requires last.Sample? && last.message.StatusRow?
    ensures Timesync.Remotes(RowsOf(before + [last])) == Timesync.Remotes(RowsOf(before)) + [last.message.remote]
  {
  }

  lemma {:induction false} StatusRemotesAreRows(s: seq<Record>)
    requires AllSamples(s)
    ensures CaptureRuns.StatusRemotes(s) == Timesync.Remotes(RowsOf(OfStream(s, TimesyncStatus)))
  {
    if s != [] {
      var n := |s| - 1;
      StatusRemotesAreRows(s[..n]);
      var before := OfStream(s[..n], TimesyncStatus);
      if s[n].message.StatusRow? {
        RemotesOfRows(before, s[n]);
      } else {
        assert OfStream(s, TimesyncStatus) == before;
      }
    }
  }

  lemma RemotesInStep(before: seq<Record>, last: Record, name: string)
    requires Arrays(before) && Arrays(before + [last])
    requires last.Sample? && last.message.AcceptanceArray?
    ensures RemotesIn(before + [last], name) == RemotesIn(before, name) + RemotesOf(last.message.statuses, name)
  {
    assert (before + [last])[..|before|] == before;
  }

  lemma {:induction false} AcceptanceRemotesAreDocuments(s: seq<Record>, name: string)
    requires AllSamples(s)
    ensures CaptureRuns.AcceptanceRemotes(s, name) == RemotesIn(OfStream(s, AcceptedSequence), name)
  {
    if s != [] {
      var n := |s| - 1;
      AcceptanceRemotesAreDocuments(s[..n], name);
      var before := OfStream(s[..n], AcceptedSequence);
      if s[n].message.AcceptanceArray? {
        RemotesInStep(before, s[n], name);
      } else {
        assert OfStream(s, AcceptedSequence) == before;
      }
    }
  }

  // ---------------------------------------------------------------- from the trace to the verdict

  function Rows(log: seq<Record>): seq<Timesync.Row> {
    RowsOf(OfStream(Samples(log), TimesyncStatus))
  }

  function Documents(log: seq<Record>): (documents: seq<Record>)
    ensures Arrays(documents)
  {
    OfStream(Samples(log), AcceptedSequence)
  }

  /** The names of the statuses the report watches on its two array streams. */
  datatype Watched = Watched(acceptance: string, diagnostic: string)

  function Diagnostics(log: seq<Record>, name: string): Timesync.Statuses {
    var documents := OfStream(Samples(log), Stream.Diagnostics);
    Timesync.Statuses(MatchedOf(documents, name), Parsed(documents))
  }

  /** When the timesync report on a trace passes. */
  ghost predicate TraceReportPasses(log: seq<Record>, names: Watched, reference: int, c: Timesync.Contract) {
    Timesync.ReportPasses(Rows(log), MatchedOf(Documents(log), names.acceptance), Parsed(Documents(log)),
                          Diagnostics(log, names.diagnostic), reference, c)
  }

  /** The same with the records paired to the last rows by position: no dictionary, no index gate. */
  ghost predicate PassesInOrder(log: seq<Record>, names: Watched, reference: int, c: Timesync.Contract) {
    Timesync.ReportInOrder(Rows(log), MatchedOf(Documents(log), names.acceptance), Parsed(Documents(log)),
                           Diagnostics(log, names.diagnostic), reference, c)
  }

  lemma TailOfRemotes(typed: seq<Timesync.Record>, k: nat)
    ensures Timesync.RecordRemotes(Timesync.Tail(typed, k)) == Timesync.Tail(Timesync.RecordRemotes(typed), k)
  {
  }

  /** What is asked of the producer: acceptances in increasing order, each for a status row that was sent. */
  ghost predicate ProducerInOrder(log: seq<Record>, name: string) {
    && Increasing(CaptureRuns.AcceptanceRemotes(log, name))
    && CaptureRuns.Drawn(CaptureRuns.AcceptanceRemotes(log, name), CaptureRuns.StatusRemotes(log))
  }

  /** Every line of one stream is readable; the capture does not see to it. */
  ghost predicate ReadableOn(log: seq<Record>, stream: Stream) {
    forall i | 1 <= i < |log| && log[i].Sample? && log[i].message.Stream() == stream :: CaptureRuns.Readable(log[i])
  }

  /** Every line after the first is a sample, and exact if it is of the stream. */
  ghost predicate Keeps(log: seq<Record>, stream: Stream) {
    forall i | 1 <= i < |log| :: log[i].Sample? && (log[i].message.Stream() == stream ==> Exact(log[i]))
  }

  lemma ReadableIsKept(log: seq<Record>, stream: Stream)
    requires CaptureRuns.Numbered(log) && CaptureRuns.Stamped(log) && ReadableOn(log, stream)
    ensures Keeps(log, stream)
  {
  }

  lemma KeptStep(exact: seq<Record>, all: seq<Record>, r: Record, stream: Stream, keep: bool)
    requires AllSamples(exact) && AllSamples(all) && r.Sample? && OfStream(exact, stream) == OfStream(all, stream)
    requires r.message.Stream() == stream ==> keep
    ensures AllSamples(exact + [r]) && AllSamples(all + [r])
    ensures OfStream(if keep then exact + [r] else exact, stream) == OfStream(all + [r], stream)
  {
    OfStreamStep(exact, r, stream);
    OfStreamStep(all, r, stream);
  }

  lemma OneLineMore(log: seq<Record>, n: nat)
    requires 1 < n <= |log|
    ensures log[1..n] == log[1..n - 1] + [log[n - 1]]
    ensures ExactUpTo(log, n) ==
            if Exact(log[n - 1]) then ExactUpTo(log, n - 1) + [log[n - 1]] else ExactUpTo(log, n - 1)
  {
  }

  /** Then the reader keeps all of that stream, whatever it drops of the others. */
  lemma {:induction false} KeptStream(log: seq<Record>, n: nat, stream: Stream)
    requires Keeps(log, stream) && 1 <= n <= |log|
    ensures AllSamples(log[1..n]) && OfStream(ExactUpTo(log, n), stream) == OfStream(log[1..n], stream)
    decreases n
  {
    if n > 1 {
      KeptStream(log, n - 1, stream);
      OneLineMore(log, n);
      KeptStep(ExactUpTo(log, n - 1), log[1..n - 1], log[n - 1], stream, Exact(log[n - 1]));
    }
  }

  lemma OfStreamStep(s: seq<Record>, r: Record, stream: Stream)
    requires AllSamples(s) && r.Sample?
    ensures OfStream(s + [r], stream) == if r.message.Stream() ==
              stream then OfStream(s, stream) + [r] else OfStream(s, stream)
  {
    assert (s + [r])[..|s|] == s;
  }

  lemma RunMeetsIndexGate(c: Config, deadline: real, events: seq<Event>, log: seq<Record>, tail: nat)
    requires Run(c, Initial(deadline), events).phase == Exited(0) && log == Run(c, Initial(deadline), events).log
    requires tail <= c.minimums.acceptance && ReadableOn(log, TimesyncStatus) && ReadableOn(log, AcceptedSequence)
    requires ProducerInOrder(log, c.acceptanceName) && Increasing(Timesync.Remotes(Rows(log)))
    requires Parsed(Documents(log)) && Timesync.AllWellFormed(MatchedOf(Documents(log), c.acceptanceName))
    ensures Timesync.TailIndexGate(Timesync.Remotes(Rows(log)),
                                   Timesync.Tail(TypedRemotes(MatchedOf(Documents(log), c.acceptanceName)), tail), tail)
  {
    CaptureRuns.ExitZeroLog(c, deadline, events);
    KeptRemotes(log, c.acceptanceName);
    SameRemotes(Documents(log), c.acceptanceName);
    CaptureRuns.ExitZeroMeetsIndexGate(c, deadline, events, tail);
  }

  /** The reader takes the remote times of the whole log. */
  lemma KeptRemotes(log: seq<Record>, name: string)
    requires CaptureRuns.Numbered(log) && CaptureRuns.Stamped(log) && log != []
    requires ReadableOn(log, TimesyncStatus) && ReadableOn(log, AcceptedSequence)
    ensures CaptureRuns.StatusRemotes(log) == Timesync.Remotes(Rows(log))
    ensures CaptureRuns.AcceptanceRemotes(log, name) == RemotesIn(Documents(log), name)
  {
    assert log[1..|log|] == log[1..];
    ReadableIsKept(log, TimesyncStatus);
    ReadableIsKept(log, AcceptedSequence);
    KeptStream(log, |log|, TimesyncStatus);
    KeptStream(log, |log|, AcceptedSequence);
    RemotesAfterReady(log, name);
    StatusRemotesAreRows(log[1..]);
    AcceptanceRemotesAreDocuments(log[1..], name);
  }

  lemma PassingTraceIsInOrder(log: seq<Record>, names: Watched, reference: int, c: Timesync.Contract)
    requires TraceReportPasses(log, names, reference, c)
    ensures PassesInOrder(log, names, reference, c)
  {
    Timesync.PassingIsInOrder(Rows(log), MatchedOf(Documents(log), names.acceptance), Parsed(Documents(log)),
                              Diagnostics(log, names.diagnostic), reference, c);
  }

  lemma GatedTracePasses(log: seq<Record>, names: Watched, reference: int, c: Timesync.Contract)
    requires c.Valid() && PassesInOrder(log, names, reference, c)
    requires Timesync.TailIndexGate(Timesync.Remotes(Rows(log)),
                                    Timesync.Tail(TypedRemotes(MatchedOf(Documents(log), names.acceptance)), c.tail),
                                    c.tail)
    ensures TraceReportPasses(log, names, reference, c)
  {
    TailOfRemotes(Timesync.WellFormed(MatchedOf(Documents(log), names.acceptance)), c.tail);
    Timesync.InOrderPasses(Rows(log), MatchedOf(Documents(log), names.acceptance), Parsed(Documents(log)),
                           Diagnostics(log, names.diagnostic), reference, c);
  }

  lemma InOrderIsIncreasing(log: seq<Record>, names: Watched, reference: int, c: Timesync.Contract)
    requires PassesInOrder(log, names, reference, c)
    ensures Increasing(Timesync.Remotes(Rows(log)))
    ensures Parsed(Documents(log)) && Timesync.AllWellFormed(MatchedOf(Documents(log), names.acceptance))
  {
  }

  /**
   The report on the log of any run that exits 0. Where it passes, records and last rows agree position by position. If
   the status and acceptance lines are readable, that and the other gates are enough: the index gate never refuses, for
   every tail length the capture waited for.
   */
  lemma ExitZeroLinksInOrder(c: Config, deadline: real, events: seq<Event>, names: Watched, reference: int,
                             contract: Timesync.Contract)
    requires Run(c, Initial(deadline), events).phase == Exited(0) && names.acceptance == c.acceptanceName
    requires contract.Valid() && contract.tail <= c.minimums.acceptance
    requires ProducerInOrder(Run(c, Initial(deadline), events).log, c.acceptanceName)
    ensures var log := Run(c, Initial(deadline), events).log;
            && (TraceReportPasses(log, names, reference, contract) ==> PassesInOrder(log, names, reference, contract))
            && (ReadableOn(log, TimesyncStatus) && ReadableOn(log, AcceptedSequence) &&
                PassesInOrder(log, names, reference, contract) ==>
                  TraceReportPasses(log, names, reference, contract))
  {
    var log := Run(c, Initial(deadline), events).log;
    if TraceReportPasses(log, names, reference, contract) {
      PassingTraceIsInOrder(log, names, reference, contract);
    } else if ReadableOn(log, TimesyncStatus) && ReadableOn(log, AcceptedSequence) &&
              PassesInOrder(log, names, reference, contract) {
      InOrderIsIncreasing(log, names, reference, contract);
      RunMeetsIndexGate(c, deadline, events, log, contract.tail);
      GatedTracePasses(log, names, reference, contract);
    }
  }
}
