/** The typed identity records of the corrections, and what a passing summary says of them. */
module Identity {
  import opened Basics
  import opened Linkage

  /** The values of a status that has exactly the identity keys; a number that does not parse is None. */
  datatype Values = Values(
    schema: string, session: string, blankSession: bool, reset: Option<nat>, sequence: Option<nat>, stamp: Option<nat>,
    producerExact: bool)

  datatype Config = Config(statusName: string, schema: string, minSamples: int, maxIdle: real, maxLatency: real)

  /** The typed record of a status, if its schema gate holds. */
  function ParsedOf(values: Option<Values>, clean: bool, config: Config): Option<Parsed> {
    if clean && values.Some? && values.value.schema == config.schema && !values.value.blankSession &&
       values.value.reset.Some? && values.value.sequence.Some? && values.value.stamp.Some? &&
       values.value.stamp.value > 0 && values.value.producerExact
    then
      var v := values.value;
      Some(Parsed(v.session, v.reset.value, v.stamp.value, v.sequence.value))
    else None
  }

  /** A typed record says exactly what the values of its status said, each field in its place. */
  lemma ParsedSaysItsValues(values: Option<Values>, clean: bool, config: Config, p: Parsed)
    ensures ParsedOf(values, clean, config) == Some(p)
            <==> && clean && values.Some? && p.correctionStamp > 0
                 && values.value.schema == config.schema && values.value.producerExact
                 && !values.value.blankSession && values.value.session == p.session
                 && values.value.reset == Some(p.reset) && values.value.sequence == Some(p.correctionSequence)
                 && values.value.stamp.Some? && values.value.stamp.value == p.correctionStamp
  {
  }

  function HeaderStamps(records: seq<IdentityRecord>): (s: seq<int>)
    ensures |s| == |records| && forall i | 0 <= i < |s| :: s[i] == records[i].stamp
  {
    seq(|records|, i requires 0 <= i < |records| => records[i].stamp)
  }

  function Arrivals(records: seq<IdentityRecord>): (s: seq<int>)
    ensures |s| == |records| && forall i | 0 <= i < |s| :: s[i] == records[i].arrivalWall
  {
    seq(|records|, i requires 0 <= i < |records| => records[i].arrivalWall)
  }

  function Sessions(records: seq<IdentityRecord>): set<string>
    requires AllParsed(records)
  {
    set i | 0 <= i < |records| :: records[i].parsed.value.session
  }

  function Resets(records: seq<IdentityRecord>): set<nat>
    requires AllParsed(records)
  {
    set i | 0 <= i < |records| :: records[i].parsed.value.reset
  }

  /** Every status parsed and was clean and OK, its clocks advanced, and the newest is fresh. */
  predicate StatusesHold(records: seq<IdentityRecord>, config: Config, now: int) {
    && |records| > 0 && |records| >= config.minSamples && AllParsed(records)
    && (forall i | 0 <= i < |records| :: records[i].clean && records[i].level == 0 && records[i].stamp > 0)
    && Increasing(HeaderStamps(records)) && Increasing(Arrivals(records))
    && (forall i | 0 <= i < |records| :: Abs(Seconds(records[i].arrivalRos - records[i].stamp)) <= config.maxLatency)
    && 0.0 <= Seconds(now - records[|records| - 1].arrivalWall) <= config.maxIdle
  }

  /** One session without a reset, whose corrections follow each other in sequence and in time. */
  predicate OneEpoch(records: seq<IdentityRecord>)
    requires AllParsed(records)
  {
    && |records| > 0
    && (forall i | 0 <= i < |records| ::
          && records[i].parsed.value.session == records[0].parsed.value.session
          && records[i].parsed.value.reset == records[0].parsed.value.reset
          && records[i].parsed.value.correctionSequence == records[0].parsed.value.correctionSequence + i)
    && (forall i, j | 0 <= i < j < |records| ::
          records[i].parsed.value.correctionStamp < records[j].parsed.value.correctionStamp)
  }

  predicate StepsByOne(records: seq<IdentityRecord>)
    requires AllParsed(records)
  {
    forall i | 1 <= i < |records| ::
      records[i].parsed.value.correctionSequence == records[i - 1].parsed.value.correctionSequence + 1
  }

  lemma {:induction false} SequenceFromFirst(records: seq<IdentityRecord>, i: nat)
    requires AllParsed(records) && StepsByOne(records) && i < |records|
    ensures records[i].parsed.value.correctionSequence == records[0].parsed.value.correctionSequence + i
  {
    if i > 0 {
      SequenceFromFirst(records, i - 1);
    }
  }

  /** A one-element set of values means that all are equal. */
  lemma OneSession(records: seq<IdentityRecord>)
    requires AllParsed(records) && |records| > 0
    ensures |Sessions(records)| == 1 <==>
            forall i | 0 <= i < |records| :: records[i].parsed.value.session == records[0].parsed.value.session
  {
    var first := records[0].parsed.value.session;
    assert forall i | 0 <= i < |records| :: records[i].parsed.value.session in Sessions(records);
    if |Sessions(records)| == 1 {
      Singleton(Sessions(records), first);
    }
    if forall i | 0 <= i < |records| :: records[i].parsed.value.session == first {
      assert Sessions(records) == {first};
    }
  }

  lemma OneReset(records: seq<IdentityRecord>)
    requires AllParsed(records) && |records| > 0
    ensures |Resets(records)| == 1 <==>
            forall i | 0 <= i < |records| :: records[i].parsed.value.reset == records[0].parsed.value.reset
  {
    var first := records[0].parsed.value.reset;
    assert forall i | 0 <= i < |records| :: records[i].parsed.value.reset in Resets(records);
    if |Resets(records)| == 1 {
      Singleton(Resets(records), first);
    }
    if forall i | 0 <= i < |records| :: records[i].parsed.value.reset == first {
      assert Resets(records) == {first};
    }
  }

  lemma Singleton<T>(s: set<T>, x: T)
    requires |s| == 1 && x in s
    ensures s == {x}
  {
    assert |s - {x}| == 0;
  }

  /** The gates on the typed records say that they are one epoch. */
  lemma GatesAreOneEpoch(records: seq<IdentityRecord>)
    requires AllParsed(records) && |records| > 0
    ensures OneEpoch(records) <==>
            |Sessions(records)| == 1 && |Resets(records)| == 1 && StepsByOne(records) &&
            Increasing(RecordStamps(records))
  {
    OneSession(records);
    OneReset(records);
    if StepsByOne(records) {
      forall i: nat | i < |records|
        ensures records[i].parsed.value.correctionSequence == records[0].parsed.value.correctionSequence + i
      {
        SequenceFromFirst(records, i);
      }
    }
    if Increasing(RecordStamps(records)) {
      IncreasingThroughout(RecordStamps(records));
    }
    if OneEpoch(records) {
      assert forall i | 0 <= i < |records| - 1 :: RecordStamps(records)[i] < RecordStamps(records)[i + 1];
    }
  }

  class IdentityAccumulator {
    const config: Config
    var records: seq<IdentityRecord>

    constructor (config: Config)
      ensures this.config == config && records == []
    {
      this.config, records := config, [];
    }

    /** A status of another name is ignored; any other adds one record. */
    method ObserveJoin(name: string, level: int, values: Option<Values>, clean: bool, stamp: int, arrivalWall: int,
                       arrivalRos: int)
      modifies this
      ensures records == if name != config.statusName then old(records)
              else old(records) +
                   [IdentityRecord(ParsedOf(values, clean, config), level, clean, stamp, arrivalWall, arrivalRos)]
    {
      if name != config.statusName {
        return;
      }
      var parsed: Option<Parsed> := None;
      if clean && values.Some? {
        var v := values.value;
        if v.schema == config.schema && !v.blankSession && v.reset.Some? && v.sequence.Some? && v.stamp.Some? &&
           v.stamp.value > 0 && v.producerExact {
          parsed := Some(Parsed(v.session, v.reset.value, v.stamp.value, v.sequence.value));
        }
      }
      records := records + [IdentityRecord(parsed, level, clean, stamp, arrivalWall, arrivalRos)];
    }

    /** A PASS: every status holds, and the typed records are one epoch. */
    method Summarize(now: int) returns (pass: bool)
      ensures pass <==> StatusesHold(records, config, now) && OneEpoch(records)
    {
      pass := StatusesHold(records, config, now);
      if pass {
        GatesAreOneEpoch(records);
        pass := |Sessions(records)| == 1 && |Resets(records)| == 1 && StepsByOne(records) &&
          Increasing(RecordStamps(records));
      }
    }
  }
}
