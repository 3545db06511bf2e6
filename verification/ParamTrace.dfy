/** Whether the raw parameter messages of a force pull are exactly the dumped parameter set. */
module ParamTrace {
  import opened Basics

  const UINT16_MAX := 65535
  const MAV_AUTOPILOT_PX4 := 12
  const HASH_PARAM := "_HASH_CHECK"

  /** One message's fields; a missing or ill-typed name, index, count or stamp reads as "", -1, 0 or 0. */
  datatype Document = Document(
    name: string, index: int, count: int, integer: Option<int>, decimal: Option<real>, stamp: int)

  datatype Record = Record(name: string, index: int, value: real, count: int)

  function ParamValue(d: Document): Option<real> {
    if d.integer.None? || d.decimal.None? then None
    else if d.integer.value != 0 then Some(d.integer.value as real)
    else d.decimal
  }

  /** A message carries its value in one of two fields and leaves the other at zero: the value is their sum. */
  lemma ParamValueIsEither(d: Document)
    ensures ParamValue(d).None? <==> d.integer.None? || d.decimal.None?
    ensures ParamValue(d).Some? && (d.integer.value == 0 || d.decimal.value == 0.0) ==>
              ParamValue(d).value == d.integer.value as real + d.decimal.value
    ensures ParamValue(d).Some? && d.integer.value != 0 ==> ParamValue(d).value == d.integer.value as real
  {
  }

  predicate WellFormed(d: Document) {
    d.name != "" && 0 <= d.index <= UINT16_MAX && 1 <= d.count <= UINT16_MAX && ParamValue(d).Some? && d.stamp > 0
  }

  predicate Real(d: Document) {
    WellFormed(d) && d.index != UINT16_MAX
  }

  predicate Pseudo(d: Document) {
    WellFormed(d) && d.index == UINT16_MAX
  }

  function RecordOf(d: Document): Record
    requires WellFormed(d)
  {
    Record(d.name, d.index, ParamValue(d).value, d.count)
  }

  function PseudoRecords(docs: seq<Document>): seq<Record> {
    if docs == [] then []
    else
      var n := |docs| - 1;
      PseudoRecords(docs[..n]) + if Pseudo(docs[n]) then [RecordOf(docs[n])] else []
  }

  function RealRecords(docs: seq<Document>): seq<Record> {
    if docs == [] then []
    else
      var n := |docs| - 1;
      RealRecords(docs[..n]) + if Real(docs[n]) then [RecordOf(docs[n])] else []
  }

  function Stamps(docs: seq<Document>): seq<int> {
    if docs == [] then []
    else
      var n := |docs| - 1;
      Stamps(docs[..n]) + if WellFormed(docs[n]) then [docs[n].stamp] else []
  }

  function Indices(records: seq<Record>): set<int> {
    set r | r in records :: r.index
  }

  function Names(records: seq<Record>): set<string> {
    set r | r in records :: r.name
  }

  function Counts(records: seq<Record>): set<int> {
    set r | r in records :: r.count
  }

  /** The indices 0 .. n - 1. */
  function Below(n: int): (s: set<int>)
    ensures forall k :: k in s <==> 0 <= k < n
    ensures n >= 0 ==> |s| == n
  {
    if n <= 0 then {} else Below(n - 1) + {n - 1}
  }

  /** What the trace is judged against. */
  datatype Dump = Dump(values: map<string, real>, reported: int, autopilot: int, minimum: int)

  // ---------------------------------------------------------------- the declarative verdict

  ghost predicate AllWellFormed(docs: seq<Document>) {
    forall d | d in docs :: WellFormed(d)
  }

  /** No index and no name is ever reused for another record. */
  ghost predicate Consistent(records: seq<Record>) {
    forall r, q | r in records && q in records && (r.index == q.index || r.name == q.name) :: r == q
  }

  predicate PseudoAllowed(pseudo: seq<Record>, autopilot: int, n: int) {
    && |pseudo| <= 1
    && forall r | r in pseudo ::
         r.name == HASH_PARAM && autopilot == MAV_AUTOPILOT_PX4 && (r.count == n || r.count == n + 1)
  }

  /** The real records advertise n, occupy exactly the indices below n, and say exactly what the dump says. */
  ghost predicate CompleteWith(records: seq<Record>, pseudo: seq<Record>, d: Dump, n: int) {
    && Consistent(records)
    && Counts(records) == {n} && n >= d.minimum && Indices(records) == Below(n)
    && Names(records) == d.values.Keys && HASH_PARAM !in Names(records)
    && (forall r | r in records && r.name in d.values :: d.values[r.name] == r.value)
    && PseudoAllowed(pseudo, d.autopilot, n)
    && d.reported == n + |pseudo|
  }

  ghost predicate CompleteRecords(records: seq<Record>, pseudo: seq<Record>, d: Dump) {
    exists n :: CompleteWith(records, pseudo, d, n)
  }

  /** The index, name, value and count part of the verdict. */
  ghost predicate Complete(docs: seq<Document>, d: Dump) {
    AllWellFormed(docs) && CompleteRecords(RealRecords(docs), PseudoRecords(docs), d)
  }

  // ---------------------------------------------------------------- the scan

  /** The tables of the scanning loop. */
  datatype Tables = Tables(
    byIndex: map<int, Record>, byName: map<string, Record>, counts: set<int>, duplicates: nat, conflicts: nat)
  {
    function Add(r: Record): Tables {
      var indexed := r.index in byIndex;
      Tables(
        byIndex[r.index := r],
        byName[r.name := r],
        counts + {r.count},
        duplicates + (if indexed && byIndex[r.index] == r then 1 else 0),
        conflicts + (if indexed && byIndex[r.index] != r then 1 else 0) +
          (if r.name in byName && byName[r.name] != r then 1 else 0))
    }
  }

  ghost predicate Tabulates(t: Tables, records: seq<Record>) {
    t.byIndex.Keys == Indices(records) && t.byName.Keys == Names(records) && t.counts == Counts(records)
  }

  /** Without a conflict, the tables hold the one record of each index and name. */
  ghost predicate Unconflicted(t: Tables, records: seq<Record>) {
    && (forall r | r in records :: r.index in t.byIndex && t.byIndex[r.index] == r)
    && (forall r | r in records :: r.name in t.byName && t.byName[r.name] == r)
    && |records| == |t.byIndex| + t.duplicates
  }

  lemma AddTabulates(t: Tables, records: seq<Record>, r: Record)
    requires Tabulates(t, records)
    ensures Tabulates(t.Add(r), records + [r])
  {
    SetsStep(records, r);
  }

  /** r agrees with every earlier record of its index or name. */
  ghost predicate Agrees(records: seq<Record>, r: Record) {
    forall q | q in records && (q.index == r.index || q.name == r.name) :: q == r
  }

  lemma ConsistentStep(records: seq<Record>, r: Record)
    ensures Consistent(records + [r]) <==> Consistent(records) && Agrees(records, r)
  {
    assert forall q :: q in records + [r] <==> q in records || q == r;
  }

  lemma ConflictsAreDisagreements(t: Tables, records: seq<Record>, r: Record)
    requires Tabulates(t, records) && Unconflicted(t, records)
    ensures t.Add(r).conflicts == t.conflicts <==> Agrees(records, r)
  {
    if r.index in t.byIndex {
      var q :| q in records && q.index == r.index;
    }
    if r.name in t.byName {
      var q :| q in records && q.name == r.name;
    }
  }

  lemma AddKeepsUnconflicted(t: Tables, records: seq<Record>, r: Record)
    requires Tabulates(t, records) && Unconflicted(t, records) && Agrees(records, r)
    ensures Unconflicted(t.Add(r), records + [r])
  {
    assert forall q :: q in records + [r] <==> q in records || q == r;
    if r.index in t.byIndex {
      var q :| q in records && q.index == r.index;
      assert t.byIndex[r.index] == r;
    }
  }

  /** The tables stand for the records; a conflict has been counted exactly when the records are inconsistent. */
  ghost predicate Stands(t: Tables, records: seq<Record>) {
    && Tabulates(t, records)
    && (t.conflicts == 0 <==> Consistent(records))
    && (t.conflicts == 0 ==> Unconflicted(t, records))
  }

  lemma AddStands(t: Tables, records: seq<Record>, r: Record)
    requires Stands(t, records)
    ensures Stands(t.Add(r), records + [r])
  {
    AddTabulates(t, records, r);
    ConsistentStep(records, r);
    if t.conflicts == 0 {
      ConflictsAreDisagreements(t, records, r);
      if Agrees(records, r) {
        AddKeepsUnconflicted(t, records, r);
      }
    }
  }

  const NO_TABLES := Tables(map[], map[], {}, 0, 0)

  function TablesOf(records: seq<Record>): Tables {
    if records == [] then NO_TABLES else TablesOf(records[..|records| - 1]).Add(records[|records| - 1])
  }

  lemma {:induction false} TablesStand(records: seq<Record>)
    ensures Stands(TablesOf(records), records)
  {
    if records == [] {
      assert Indices(records) == {} && Names(records) == {} && Counts(records) == {};
    } else {
      var n := |records| - 1;
      TablesStand(records[..n]);
      AddStands(TablesOf(records[..n]), records[..n], records[n]);
      assert records == records[..n] + [records[n]];
    }
  }

  lemma TablesStep(records: seq<Record>, r: Record)
    ensures TablesOf(records + [r]) == TablesOf(records).Add(r)
  {
    assert (records + [r])[..|records|] == records;
  }

  lemma ScannedStep(docs: seq<Document>, d: Document)
    ensures PseudoRecords(docs + [d]) == if Pseudo(d) then PseudoRecords(docs) + [RecordOf(d)] else PseudoRecords(docs)
    ensures RealRecords(docs + [d]) == if Real(d) then RealRecords(docs) + [RecordOf(d)] else RealRecords(docs)
    ensures Stamps(docs + [d]) == if WellFormed(d) then Stamps(docs) + [d.stamp] else Stamps(docs)
  {
    assert (docs + [d])[..|docs|] == docs;
  }

  lemma {:induction false} WellFormedAreRecords(docs: seq<Document>)
    ensures |RealRecords(docs)| + |PseudoRecords(docs)| <= |docs|
    ensures |RealRecords(docs)| + |PseudoRecords(docs)| == |docs| <==> AllWellFormed(docs)
  {
    if docs != [] {
      var n := |docs| - 1;
      WellFormedAreRecords(docs[..n]);
      assert docs == docs[..n] + [docs[n]];
      assert forall d :: d in docs <==> d in docs[..n] || d == docs[n];
    }
  }

  /** The scanning loop: a conflict is counted exactly when the real records are inconsistent. */
  method Scan(docs: seq<Document>) returns (t: Tables, pseudo: seq<Record>, malformed: nat, stamps: seq<int>)
    ensures Stands(t, RealRecords(docs))
    ensures pseudo == PseudoRecords(docs) && stamps == Stamps(docs)
    ensures |RealRecords(docs)| + |pseudo| + malformed == |docs|
  {
    t, pseudo, malformed, stamps := NO_TABLES, [], 0, [];
    for i := 0 to |docs|
      invariant t == TablesOf(RealRecords(docs[..i]))
      invariant pseudo == PseudoRecords(docs[..i]) && stamps == Stamps(docs[..i])
      invariant |RealRecords(docs[..i])| + |pseudo| + malformed == i
    {
      var d := docs[i];
      assert docs[..i + 1] == docs[..i] + [d];
      ScannedStep(docs[..i], d);
      if !WellFormed(d) {
        malformed := malformed + 1;
        continue;
      }
      stamps := stamps + [d.stamp];
      var record := RecordOf(d);
      if record.index == UINT16_MAX {
        pseudo := pseudo + [record];
        continue;
      }
      TablesStep(RealRecords(docs[..i]), record);
      t := t.Add(record);
    }
    assert docs[..|docs|] == docs;
    TablesStand(RealRecords(docs));
  }

  /** The checks made on the tables, for the one advertised count n. */
  predicate TablesComplete(t: Tables, pseudo: seq<Record>, d: Dump, n: int) {
    && t.conflicts == 0
    && n >= d.minimum
    && t.byIndex.Keys == Below(n) && |t.byIndex| == n
    && |t.byName| == |t.byIndex|
    && (pseudo == [] || PseudoAllowed(pseudo, d.autopilot, n))
    && HASH_PARAM !in t.byName
    && t.byName.Keys == d.values.Keys
    && (forall name | name in t.byName && name in d.values :: t.byName[name].value == d.values[name])
    && d.reported == n + if pseudo != [] then 1 else 0
  }

  lemma SetsStep(records: seq<Record>, r: Record)
    ensures Names(records + [r]) == Names(records) + {r.name}
    ensures Indices(records + [r]) == Indices(records) + {r.index}
    ensures Counts(records + [r]) == Counts(records) + {r.count}
  {
    assert forall q :: q in records + [r] <==> q in records || q == r;
  }

  lemma AgreeingRecordIsOldOrNew(records: seq<Record>, r: Record)
    requires Agrees(records, r)
    ensures r.name in Names(records) <==> r in records
    ensures r.index in Indices(records) <==> r in records
  {
  }

  lemma {:induction false} NamesAreAsManyAsIndices(records: seq<Record>)
    requires Consistent(records)
    ensures |Names(records)| == |Indices(records)|
  {
    if records == [] {
      assert Names(records) == {} && Indices(records) == {};
    } else {
      var before, r := records[..|records| - 1], records[|records| - 1];
      assert records == before + [r];
      ConsistentStep(before, r);
      NamesAreAsManyAsIndices(before);
      SetsStep(before, r);
      AgreeingRecordIsOldOrNew(before, r);
      GrowsTogether(Names(before), r.name, Indices(before), r.index);
    }
  }

  lemma GrowsTogether<A, B>(s: set<A>, x: A, t: set<B>, y: B)
    requires |s| == |t| && (x in s <==> y in t)
    ensures |s + {x}| == |t + {y}|
  {
    if x in s {
      assert s + {x} == s && t + {y} == t;
    }
  }

  lemma TableValues(t: Tables, records: seq<Record>, values: map<string, real>)
    requires Tabulates(t, records) && Unconflicted(t, records)
    ensures (forall name | name in t.byName && name in values :: t.byName[name].value == values[name])
            <==> forall r | r in records && r.name in values :: values[r.name] == r.value
  {
    forall name | name in t.byName
      ensures exists r | r in records :: r.name == name && t.byName[name] == r
    {
      var r :| r in records && r.name == name;
    }
  }

  lemma TableSizes(t: Tables, records: seq<Record>, n: int)
    requires Tabulates(t, records) && Consistent(records) && n >= 0
    ensures |t.byName| == |t.byIndex|
    ensures t.byIndex.Keys == Below(n) ==> |t.byIndex| == n
  {
    NamesAreAsManyAsIndices(records);
    assert |t.byIndex| == |t.byIndex.Keys| && |t.byName| == |t.byName.Keys|;
  }

  /** The checks on the tables decide completeness. */
  lemma TablesJudgeCompleteness(t: Tables, records: seq<Record>, pseudo: seq<Record>, d: Dump, n: int)
    requires Stands(t, records) && t.counts == {n}
    requires forall r | r in records :: r.count >= 1
    ensures TablesComplete(t, pseudo, d, n) <==> CompleteWith(records, pseudo, d, n)
  {
    assert n in Counts(records);
    if Consistent(records) {
      TableSizes(t, records, n);
      TableValues(t, records, d.values);
    }
  }

  // ---------------------------------------------------------------- arrivals and the report

  /** A collector envelope: the message if its payload is one, and its arrival times. */
  datatype Sample = Sample(document: Option<Document>, ros: int, steady: int)

  function Documents(samples: seq<Sample>): (docs: seq<Document>)
    ensures |docs| <= |samples|
    ensures |docs| == |samples| <==> forall i | 0 <= i < |samples| :: samples[i].document.Some?
  {
    if samples == [] then []
    else
      var n := |samples| - 1;
      var before := Documents(samples[..n]);
      if samples[n].document.Some? then before + [samples[n].document.value] else before
  }

  /** The force-pull interval, the subscriber's ready time, and the freshness limits. */
  datatype Timing = Timing(maxAge: int, maxFuture: int, ready: Option<int>, start: Option<int>, end: Option<int>)
  {
    predicate SpanValid() {
      start.Some? && end.Some? && 1 <= start.value <= end.value
    }
  }

  predicate ArrivalsInOrder(samples: seq<Sample>) {
    && |samples| > 0
    && (forall i | 0 <= i < |samples| :: samples[i].ros >= 1 && samples[i].steady >= 1)
    && (forall i | 1 <= i < |samples| :: samples[i - 1].steady < samples[i].steady)
    && (forall i | 1 <= i < |samples| :: samples[i - 1].ros <= samples[i].ros)
  }

  predicate Timely(samples: seq<Sample>, stamps: seq<int>, timing: Timing) {
    && ArrivalsInOrder(samples)
    && NonDecreasing(stamps) && |stamps| == |samples|
    && (forall i | 0 <= i < |samples| :: -timing.maxFuture <= samples[i].ros - stamps[i] <= timing.maxAge)
    && timing.SpanValid()
    && timing.ready.Some? && 1 <= timing.ready.value <= timing.start.value
    && (forall i | 0 <= i < |samples| :: timing.start.value <= samples[i].steady <= timing.end.value)
  }

  datatype Report = Report(pass: bool, messages: nat, uniqueIndices: nat, duplicates: nat, pseudoSeen: bool)

  ghost predicate Passes(samples: seq<Sample>, d: Dump, timing: Timing) {
    var docs := Documents(samples);
    |docs| == |samples| && Complete(docs, d) && Timely(samples, Stamps(docs), timing)
  }

  /** The analysis of one trace. The message count splits into indices, exact retries and the pseudo record. */
  method Analyze(samples: seq<Sample>, d: Dump, timing: Timing) returns (report: Report)
    ensures report.pass <==> Passes(samples, d, timing)
    ensures report.messages == |Documents(samples)|
    ensures report.pass ==>
              report.messages == report.uniqueIndices + report.duplicates + if report.pseudoSeen then 1 else 0
    ensures report.pass ==> report.uniqueIndices == |d.values|
  {
    var docs := Documents(samples);
    var t, pseudo, malformed, stamps := Scan(docs);
    WellFormedAreRecords(docs);
    var complete := false;
    if |t.counts| == 1 {
      var n :| n in t.counts;
      SingleCount(t.counts, n);
      RecordsAreReal(docs);
      TablesJudgeCompleteness(t, RealRecords(docs), pseudo, d, n);
      complete := malformed == 0 && TablesComplete(t, pseudo, d, n);
      assert |t.byName| == |t.byName.Keys| && |d.values| == |d.values.Keys|;
    } else {
      assert forall n :: t.counts != {n};
    }
    assert complete <==> Complete(docs, d) by {
      assert forall n | CompleteWith(RealRecords(docs), pseudo, d, n) :: t.counts == {n};
    }
    var pass := |docs| == |samples| && complete && Timely(samples, stamps, timing);
    report := Report(pass, |docs|, |t.byIndex|, t.duplicates, pseudo != []);
  }

  lemma SingleCount(s: set<int>, n: int)
    requires |s| == 1 && n in s
    ensures s == {n}
  {
    assert |s - {n}| == 0;
  }

  lemma {:induction false} RecordsAreReal(docs: seq<Document>)
    ensures forall r | r in RealRecords(docs) :: r.count >= 1 && 0 <= r.index < UINT16_MAX
  {
    if docs != [] {
      RecordsAreReal(docs[..|docs| - 1]);
    }
  }

  // ---------------------------------------------------------------- what completeness means

  ghost function RecordAt(records: seq<Record>, index: int): (r: Record)
    requires index in Indices(records)
    ensures r in records && r.index == index
  {
    var r :| r in records && r.index == index;
    r
  }

  /** names lists every dumped name exactly once. */
  ghost predicate Lists(names: seq<string>, values: map<string, real>) {
    && |names| == |values|
    && (forall i, j | 0 <= i < j < |names| :: names[i] != names[j])
    && (forall name :: name in names <==> name in values)
  }

  /** r is the dump's entry of the name at its index. */
  ghost predicate IsEntry(r: Record, names: seq<string>, values: map<string, real>) {
    && 0 <= r.index < |names| && names[r.index] in values
    && r == Record(names[r.index], r.index, values[names[r.index]], |names|)
  }

  ghost function NamesInOrder(records: seq<Record>, n: nat): (names: seq<string>)
    requires Indices(records) == Below(n)
    ensures |names| == n && forall i | 0 <= i < n :: names[i] == RecordAt(records, i).name
  {
    seq(n, i requires 0 <= i < n => RecordAt(records, i).name)
  }

  /** The record at an index is the only one there, and the dump has it. */
  lemma EntryAt(records: seq<Record>, pseudo: seq<Record>, d: Dump, n: nat, r: Record)
    requires CompleteWith(records, pseudo, d, n) && r in records
    ensures IsEntry(r, NamesInOrder(records, n), d.values)
  {
    assert r.index in Indices(records) && r.name in Names(records) && r.count in Counts(records);
    assert RecordAt(records, r.index) == r;
  }

  lemma EntriesAreLocated(records: seq<Record>, pseudo: seq<Record>, d: Dump, n: nat)
    requires CompleteWith(records, pseudo, d, n)
    ensures forall r | r in records :: IsEntry(r, NamesInOrder(records, n), d.values)
  {
    forall r | r in records
      ensures IsEntry(r, NamesInOrder(records, n), d.values)
    {
      EntryAt(records, pseudo, d, n, r);
    }
  }

  lemma NamesDiffer(records: seq<Record>, n: nat, i: nat, j: nat)
    requires Consistent(records) && Indices(records) == Below(n) && i < j < n
    ensures NamesInOrder(records, n)[i] != NamesInOrder(records, n)[j]
  {
    var r, q := RecordAt(records, i), RecordAt(records, j);
    assert r.index != q.index;
  }

  lemma NamesAreAll(records: seq<Record>, n: nat, name: string)
    requires Consistent(records) && Indices(records) == Below(n)
    ensures name in NamesInOrder(records, n) <==> name in Names(records)
  {
    var names := NamesInOrder(records, n);
    if name in names {
      var i :| 0 <= i < n && names[i] == name;
      assert RecordAt(records, i).name in Names(records);
    }
    if name in Names(records) {
      var r :| r in records && r.name == name;
      assert r.index in Indices(records);
      assert RecordAt(records, r.index) == r && names[r.index] == name;
    }
  }

  lemma NamesAreListed(records: seq<Record>, n: nat, values: map<string, real>)
    requires Consistent(records) && Indices(records) == Below(n) && Names(records) == values.Keys
    ensures Lists(NamesInOrder(records, n), values)
  {
    var names := NamesInOrder(records, n);
    NamesAreAsManyAsIndices(records);
    assert |values| == |values.Keys|;
    forall i, j | 0 <= i < j < n
      ensures names[i] != names[j]
    {
      NamesDiffer(records, n, i, j);
    }
    forall name
      ensures name in names <==> name in values
    {
      NamesAreAll(records, n, name);
    }
  }

  /** Completeness is a bijection between the indices 0 .. N - 1 and the dumped names that every record agrees with. */
  lemma CompleteIsBijection(docs: seq<Document>, d: Dump) returns (names: seq<string>)
    requires Complete(docs, d)
    ensures Lists(names, d.values) && |names| >= d.minimum
    ensures Indices(RealRecords(docs)) == Below(|names|)
    ensures forall r | r in RealRecords(docs) :: IsEntry(r, names, d.values)
  {
    var records, pseudo := RealRecords(docs), PseudoRecords(docs);
    var n :| CompleteWith(records, pseudo, d, n);
    assert n >= 1 by {
      RecordsAreReal(docs);
      assert n in Counts(records);
    }
    names := NamesInOrder(records, n);
    EntriesAreLocated(records, pseudo, d, n);
    NamesAreListed(records, n, d.values);
  }

  /** The tool reported the number of the parameters, or one more where a PX4 hash record came with them. */
  lemma ReportedNumber(docs: seq<Document>, d: Dump, count: nat)
    requires Complete(docs, d) && Indices(RealRecords(docs)) == Below(count)
    ensures d.reported == count || (d.reported == count + 1 && d.autopilot == MAV_AUTOPILOT_PX4)
  {
    var pseudo := PseudoRecords(docs);
    var n :| CompleteWith(RealRecords(docs), pseudo, d, n);
    assert n >= 1 by {
      RecordsAreReal(docs);
      assert n in Counts(RealRecords(docs));
    }
    assert |Below(count)| == count && |Below(n)| == n;
    if pseudo != [] {
      assert pseudo[0] in pseudo;
    }
  }

  // ---------------------------------------------------------------- order and retries do not matter

  lemma Regrouped<T>(a: seq<T>, b: seq<T>, c: seq<T>)
    ensures a + b + c == a + (b + c)
  {
  }

  lemma LastApart<T>(s: seq<T>)
    requires s != []
    ensures s == s[..|s| - 1] + [s[|s| - 1]]
  {
  }

  lemma RealsOfNext(docs: seq<Document>, x: Document)
    ensures RealRecords(docs + [x]) == RealRecords(docs) + if Real(x) then [RecordOf(x)] else []
  {
    assert (docs + [x])[..|docs|] == docs;
  }

  lemma {:induction false} RealsOfConcat(a: seq<Document>, b: seq<Document>)
    ensures RealRecords(a + b) == RealRecords(a) + RealRecords(b)
  {
    if b == [] {
      assert a + b == a;
    } else {
      var n := |b| - 1;
      RealsOfConcat(a, b[..n]);
      RealsOfNext(a + b[..n], b[n]);
      RealsOfNext(b[..n], b[n]);
      LastApart(b);
      Regrouped(a, b[..n], [b[n]]);
      Regrouped(RealRecords(a), RealRecords(b[..n]), if Real(b[n]) then [RecordOf(b[n])] else []);
    }
  }

  lemma PseudosOfNext(docs: seq<Document>, x: Document)
    ensures PseudoRecords(docs + [x]) == PseudoRecords(docs) + if Pseudo(x) then [RecordOf(x)] else []
  {
    assert (docs + [x])[..|docs|] == docs;
  }

  lemma {:induction false} PseudosOfConcat(a: seq<Document>, b: seq<Document>)
    ensures PseudoRecords(a + b) == PseudoRecords(a) + PseudoRecords(b)
  {
    if b == [] {
      assert a + b == a;
    } else {
      var n := |b| - 1;
      PseudosOfConcat(a, b[..n]);
      PseudosOfNext(a + b[..n], b[n]);
      PseudosOfNext(b[..n], b[n]);
      LastApart(b);
      Regrouped(a, b[..n], [b[n]]);
      Regrouped(PseudoRecords(a), PseudoRecords(b[..n]), if Pseudo(b[n]) then [RecordOf(b[n])] else []);
    }
  }

  function Without(docs: seq<Document>, k: nat): (rest: seq<Document>)
    requires k < |docs|
    ensures |rest| == |docs| - 1
  {
    docs[..k] + docs[k + 1..]
  }

  lemma RealsAround(a: seq<Document>, x: seq<Document>, b: seq<Document>)
    ensures multiset(RealRecords(a + (x + b))) == multiset(RealRecords(a + b)) + multiset(RealRecords(x))
  {
    RealsOfConcat(a, x + b);
    RealsOfConcat(x, b);
    RealsOfConcat(a, b);
    Swapped(RealRecords(a), RealRecords(x), RealRecords(b));
  }

  lemma PseudosAround(a: seq<Document>, x: seq<Document>, b: seq<Document>)
    ensures multiset(PseudoRecords(a + (x + b))) == multiset(PseudoRecords(a + b)) + multiset(PseudoRecords(x))
  {
    PseudosOfConcat(a, x + b);
    PseudosOfConcat(x, b);
    PseudosOfConcat(a, b);
    Swapped(PseudoRecords(a), PseudoRecords(x), PseudoRecords(b));
  }

  lemma Parts<T>(s: seq<T>, k: nat)
    requires k < |s|
    ensures s == s[..k] + ([s[k]] + s[k + 1..])
  {
  }

  lemma Removed(docs: seq<Document>, k: nat)
    requires k < |docs|
    ensures multiset(PseudoRecords(docs)) ==
              multiset(PseudoRecords(Without(docs, k))) + multiset(PseudoRecords([docs[k]]))
    ensures multiset(RealRecords(docs)) == multiset(RealRecords(Without(docs, k))) + multiset(RealRecords([docs[k]]))
  {
    Parts(docs, k);
    RealsAround(docs[..k], [docs[k]], docs[k + 1..]);
    PseudosAround(docs[..k], [docs[k]], docs[k + 1..]);
  }

  lemma Swapped<T>(a: seq<T>, x: seq<T>, b: seq<T>)
    ensures multiset(a + (x + b)) == multiset(a + b) + multiset(x)
  {
  }

  lemma RemovedMultiset(docs: seq<Document>, k: nat)
    requires k < |docs|
    ensures multiset(Without(docs, k)) == multiset(docs) - multiset{docs[k]}
  {
    assert docs == docs[..k] + [docs[k]] + docs[k + 1..];
  }

  lemma IndexOf(docs: seq<Document>, d: Document) returns (k: nat)
    requires d in multiset(docs)
    ensures k < |docs| && docs[k] == d
  {
    k :| 0 <= k < |docs| && docs[k] == d;
  }

  lemma {:induction false} RecordsOfPermutation(docs: seq<Document>, other: seq<Document>)
    requires multiset(docs) == multiset(other)
    ensures multiset(RealRecords(docs)) == multiset(RealRecords(other))
    ensures multiset(PseudoRecords(docs)) == multiset(PseudoRecords(other))
    decreases |docs|
  {
    if docs == [] {
      assert |multiset(other)| == 0;
      assert other == [];
    } else {
      assert docs[0] in multiset(docs);
      var k := IndexOf(other, docs[0]);
      RemovedMultiset(docs, 0);
      RemovedMultiset(other, k);
      RecordsOfPermutation(Without(docs, 0), Without(other, k));
      Removed(docs, 0);
      Removed(other, k);
    }
  }

  lemma SameMembers(a: seq<Record>, b: seq<Record>)
    requires multiset(a) == multiset(b)
    ensures |a| == |b| && forall r :: r in a <==> r in b
  {
    assert |a| == |multiset(a)| == |b|;
    assert forall r :: r in a <==> r in multiset(a);
    assert forall r :: r in b <==> r in multiset(b);
  }

  lemma MembersDecide(records: seq<Record>, other: seq<Record>, pseudo: seq<Record>, others: seq<Record>, d: Dump)
    requires forall r :: r in records <==> r in other
    requires |pseudo| == |others| && forall r :: r in pseudo <==> r in others
    ensures CompleteRecords(records, pseudo, d) <==> CompleteRecords(other, others, d)
  {
    assert Indices(records) == Indices(other) && Names(records) == Names(other) && Counts(records) == Counts(other);
    assert forall n :: CompleteWith(records, pseudo, d, n) <==> CompleteWith(other, others, d, n);
  }

  /** The order of the messages does not matter. */
  lemma CompletenessIsOrderFree(docs: seq<Document>, other: seq<Document>, d: Dump)
    requires multiset(docs) == multiset(other)
    ensures Complete(docs, d) <==> Complete(other, d)
  {
    RecordsOfPermutation(docs, other);
    SameMembers(RealRecords(docs), RealRecords(other));
    SameMembers(PseudoRecords(docs), PseudoRecords(other));
    MembersDecide(RealRecords(docs), RealRecords(other), PseudoRecords(docs), PseudoRecords(other), d);
    assert AllWellFormed(docs) <==> AllWellFormed(other) by {
      assert forall x :: x in docs <==> x in multiset(docs);
      assert forall x :: x in other <==> x in multiset(other);
    }
  }

  lemma AppendedRetry(docs: seq<Document>, retry: Document, d: Dump)
    requires Real(retry) && RecordOf(retry) in RealRecords(docs)
    ensures Complete(docs + [retry], d) <==> Complete(docs, d)
  {
    var more := docs + [retry];
    ScannedStep(docs, retry);
    MembersDecide(RealRecords(more), RealRecords(docs), PseudoRecords(more), PseudoRecords(docs), d);
    assert forall x :: x in more <==> x in docs || x == retry;
  }

  lemma InsertedIsAppended<T>(s: seq<T>, k: nat, x: T)
    requires k <= |s|
    ensures multiset(s[..k] + [x] + s[k..]) == multiset(s + [x])
  {
    assert s == s[..k] + s[k..];
  }

  /** Nor does an exact retry of a real record, wherever it arrives and whatever its stamp. */
  lemma RetriesDoNotMatter(docs: seq<Document>, k: nat, retry: Document, d: Dump)
    requires k <= |docs| && Real(retry) && RecordOf(retry) in RealRecords(docs)
    ensures Complete(docs[..k] + [retry] + docs[k..], d) <==> Complete(docs, d)
  {
    InsertedIsAppended(docs, k, retry);
    CompletenessIsOrderFree(docs[..k] + [retry] + docs[k..], docs + [retry], d);
    AppendedRetry(docs, retry, d);
  }
}
