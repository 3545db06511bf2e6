/** The audit's reader of a captured timesync trace. */
module TraceParser {
  import opened Basics
  import opened Capture
  import Timesync

  /** The identity, arrival and header schema of one sample line. */
  predicate Exact(r: Record) {
    && r.Sample?
    && r.sequence >= 1 && r.ros >= 1 && r.steady >= 1
    && r.message.header.Valid() && r.stamp == r.message.header.Stamp()
  }

  /** The exact samples among lines 1 .. n - 1. */
  function ExactUpTo(records: seq<Record>, n: nat): (s: seq<Record>)
    requires n <= |records|
    ensures forall i | 0 <= i < |s| :: Exact(s[i])
    ensures n >= 1 ==> |s| <= n - 1
    ensures n >= 1 ==> (|s| == n - 1 <==> forall i | 1 <= i < n :: Exact(records[i]))
    ensures n >= 1 && |s| == n - 1 ==> s == records[1..n]
  {
    if n <= 1 then []
    else
      var before := ExactUpTo(records, n - 1);
      if Exact(records[n - 1]) then before + [records[n - 1]] else before
  }

  function OfStream(s: seq<Record>, stream: Stream): (r: seq<Record>)
    requires forall i | 0 <= i < |s| :: s[i].Sample?
    ensures |r| <= |s| && forall i | 0 <= i < |r| :: r[i].Sample? && r[i].message.Stream() == stream
  {
    if s == [] then []
    else
      var n := |s| - 1;
      OfStream(s[..n], stream) + if s[n].message.Stream() == stream then [s[n]] else []
  }

  function Samples(records: seq<Record>): (s: seq<Record>)
    ensures forall i | 0 <= i < |s| :: Exact(s[i])
  {
    ExactUpTo(records, |records|)
  }

  datatype Window = Window(age: int, future: int)

  datatype Freshness = Freshness(status: Window, diagnostics: Window, acceptance: Window)
  {
    function Of(stream: Stream): Window {
      match stream
      case TimesyncStatus => status
      case Diagnostics => diagnostics
      case AcceptedSequence => acceptance
    }
  }

  predicate FreshAtArrival(r: Record, freshness: Freshness)
    requires r.Sample?
  {
    var w := freshness.Of(r.message.Stream());
    -w.future <= r.ros - r.stamp <= w.age
  }

  predicate ReadyGate(records: seq<Record>) {
    && |records| > 0 && records[0].Ready?
    && records[0].sequence == 0 && records[0].ros >= 1 && records[0].steady >= 1 && records[0].connections.All()
  }

  /** Line i carries sequence i. */
  predicate SequenceGate(records: seq<Record>) {
    |records| > 0 && forall i | 1 <= i < |records| :: Exact(records[i]) && records[i].sequence == i
  }

  predicate ClocksOrdered(first: Record, samples: seq<Record>) {
    && |samples| > 0
    && first.ros <= samples[0].ros && first.steady <= samples[0].steady
    && (forall i | 1 <= i < |samples| :: samples[i - 1].ros <= samples[i].ros)
    && (forall i | 1 <= i < |samples| :: samples[i - 1].steady < samples[i].steady)
  }

  predicate CountGate(records: seq<Record>, minimums: Minimums) {
    var samples := Samples(records);
    && |OfStream(samples, TimesyncStatus)| >= minimums.status
    && |OfStream(samples, Diagnostics)| >= minimums.diagnostics
    && |OfStream(samples, AcceptedSequence)| >= minimums.acceptance
  }

  /** The instant lies between the first and the last arrival of a stream. */
  predicate Spans(samples: seq<Record>, instant: int) {
    |samples| > 0 && samples[0].steady <= instant <= samples[|samples| - 1].steady
  }

  /** One steady instant lies inside the window of every stream. */
  ghost predicate SpanGate(records: seq<Record>) {
    exists instant :: Concurrent(Samples(records), instant)
  }

  ghost predicate Concurrent(samples: seq<Record>, instant: int)
    requires forall i | 0 <= i < |samples| :: samples[i].Sample?
  {
    forall stream :: Spans(OfStream(samples, stream), instant)
  }

  function Largest(a: int, b: int, c: int): int {
    if a >= b && a >= c then a else if b >= c then b else c
  }

  function Smallest(a: int, b: int, c: int): int {
    -Largest(-a, -b, -c)
  }

  /** The test of the code: the largest first arrival is at most the smallest last one. */
  predicate Overlap(status: seq<Record>, diagnostics: seq<Record>, acceptance: seq<Record>) {
    && |status| > 0 && |diagnostics| > 0 && |acceptance| > 0
    && Largest(status[0].steady, diagnostics[0].steady, acceptance[0].steady) <=
       Smallest(status[|status| - 1].steady, diagnostics[|diagnostics| - 1].steady,
                acceptance[|acceptance| - 1].steady)
  }

  lemma OverlapIsConcurrent(status: seq<Record>, diagnostics: seq<Record>, acceptance: seq<Record>)
    ensures Overlap(status, diagnostics, acceptance)
            <==> exists instant :: Spans(status, instant) && Spans(diagnostics, instant) && Spans(acceptance, instant)
  {
    if Overlap(status, diagnostics, acceptance) {
      var instant := Largest(status[0].steady, diagnostics[0].steady, acceptance[0].steady);
      assert Spans(status, instant) && Spans(diagnostics, instant) && Spans(acceptance, instant);
    }
  }

  lemma OverlapIsSpanGate(records: seq<Record>)
    ensures var s := Split(Samples(records)); SpanGate(records) <==> Overlap(s.status, s.diagnostics, s.acceptance)
  {
    var samples := Samples(records);
    var s := Split(samples);
    OverlapIsConcurrent(s.status, s.diagnostics, s.acceptance);
    forall instant
      ensures Concurrent(samples, instant)
              <==> Spans(s.status, instant) && Spans(s.diagnostics, instant) && Spans(s.acceptance, instant)
    {
      EveryStream(samples, instant);
    }
    if SpanGate(records) {
      var instant :| Concurrent(samples, instant);
      assert Spans(s.status, instant) && Spans(s.diagnostics, instant) && Spans(s.acceptance, instant);
    }
    if Overlap(s.status, s.diagnostics, s.acceptance) {
      var instant :| Spans(s.status, instant) && Spans(s.diagnostics, instant) && Spans(s.acceptance, instant);
      assert Concurrent(samples, instant);
    }
  }

  lemma EveryStream(samples: seq<Record>, instant: int)
    requires forall i | 0 <= i < |samples| :: samples[i].Sample?
    ensures Concurrent(samples, instant)
            <==> Spans(OfStream(samples, TimesyncStatus), instant) && Spans(OfStream(samples, Diagnostics), instant) &&
                 Spans(OfStream(samples, AcceptedSequence), instant)
  {
    if Concurrent(samples, instant) {
      assert Spans(OfStream(samples, TimesyncStatus), instant);
      assert Spans(OfStream(samples, Diagnostics), instant);
      assert Spans(OfStream(samples, AcceptedSequence), instant);
    }
  }

  predicate AllFresh(samples: seq<Record>, freshness: Freshness)
    requires forall i | 0 <= i < |samples| :: samples[i].Sample?
  {
    forall i | 0 <= i < |samples| :: FreshAtArrival(samples[i], freshness)
  }

  ghost predicate ParserAccepts(records: seq<Record>, minimums: Minimums, freshness: Freshness) {
    && ReadyGate(records)
    && SequenceGate(records)
    && AllFresh(Samples(records), freshness)
    && ClocksOrdered(records[0], Samples(records))
    && CountGate(records, minimums)
    && SpanGate(records)
  }

  /** The samples of each stream, in arrival order. */
  datatype Streams = Streams(status: seq<Record>, diagnostics: seq<Record>, acceptance: seq<Record>)
  {
    function Add(r: Record): Streams
      requires r.Sample?
    {
      match r.message.Stream()
      case TimesyncStatus => this.(status := status + [r])
      case Diagnostics => this.(diagnostics := diagnostics + [r])
      case AcceptedSequence => this.(acceptance := acceptance + [r])
    }
  }

  function Split(s: seq<Record>): Streams
    requires forall i | 0 <= i < |s| :: s[i].Sample?
  {
    Streams(OfStream(s, TimesyncStatus), OfStream(s, Diagnostics), OfStream(s, AcceptedSequence))
  }

  lemma SplitStep(s: seq<Record>, r: Record)
    requires r.Sample? && forall i | 0 <= i < |s| :: s[i].Sample?
    ensures Split(s + [r]) == Split(s).Add(r)
  {
    assert (s + [r])[..|s|] == s;
  }

  method Collect(records: seq<Record>) returns (samples: seq<Record>, streams: Streams, exact: bool)
    ensures samples == Samples(records) && streams == Split(samples)
    ensures exact <==> forall i | 1 <= i < |records| :: Exact(records[i])
  {
    samples, streams, exact := [], Streams([], [], []), true;
    if records == [] {
      return;
    }
    for i := 1 to |records|
      invariant samples == ExactUpTo(records, i) && streams == Split(samples)
      invariant exact <==> |samples| == i - 1
    {
      var record := records[i];
      assert ExactUpTo(records, i + 1) == if Exact(record) then samples + [record] else samples;
      if !Exact(record) {
        exact := false;
        continue;
      }
      SplitStep(samples, record);
      streams := streams.Add(record);
      samples := samples + [record];
    }
  }

  function Sequences(samples: seq<Record>): (s: seq<nat>)
    ensures |s| == |samples| && forall k | 0 <= k < |samples| :: s[k] == samples[k].sequence
  {
    seq(|samples|, k requires 0 <= k < |samples| => samples[k].sequence)
  }

  lemma SequencesAreLines(records: seq<Record>)
    requires |records| > 0
    ensures |Samples(records)| == |records| - 1 && Sequences(Samples(records)) == Timesync.Consecutive(1, |records|)
            <==> SequenceGate(records)
  {
    var samples := Samples(records);
    var sequences, lines := Sequences(samples), Timesync.Consecutive(1, |records|);
    if |samples| == |records| - 1 {
      assert samples == records[1..];
      assert forall i | 1 <= i < |records| :: sequences[i - 1] == records[i].sequence && lines[i - 1] == i;
      if SequenceGate(records) {
        assert forall k | 0 <= k < |lines| :: sequences[k] == records[k + 1].sequence == k + 1;
      }
    }
  }

  datatype Report = Report(
    pass: bool, ready: bool, sequence: bool, arrival: bool, count: bool, span: bool, streams: Streams)

  method Parse(records: seq<Record>, minimums: Minimums, freshness: Freshness) returns (report: Report)
    ensures report.pass <==> ParserAccepts(records, minimums, freshness)
    ensures report.ready <==> ReadyGate(records)
    ensures report.sequence <==> SequenceGate(records)
    ensures report.arrival <==> ReadyGate(records) && ClocksOrdered(records[0], Samples(records))
    ensures report.count <==> CountGate(records, minimums)
    ensures report.span <==> SpanGate(records)
    ensures report.streams == Split(Samples(records))
  {
    var ready := ReadyGate(records);
    var samples, streams, exact := Collect(records);
    var timely := AllFresh(samples, freshness);
    var sequence := |records| > 0 && |samples| == |records| - 1 &&
      Sequences(samples) == Timesync.Consecutive(1, |records|);
    if |records| > 0 {
      SequencesAreLines(records);
    }
    var arrival := ready && ClocksOrdered(records[0], samples);
    var count := |streams.status| >= minimums.status && |streams.diagnostics| >= minimums.diagnostics &&
      |streams.acceptance| >= minimums.acceptance;
    OverlapIsSpanGate(records);
    var span := Overlap(streams.status, streams.diagnostics, streams.acceptance);
    report := Report(ready && exact && timely && sequence && arrival && count && span,
      ready, sequence, arrival, count, span, streams);
  }
}
