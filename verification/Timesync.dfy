/** The accepted-sequence evidence of the time synchronisation audit, and its link to the status rows. */
module Timesync {
  import opened Basics

  /** A JSON value read as a number: booleans, strings, missing keys and non-finite floats are Absent. */
  datatype Number = Integer(n: int) | Floating(x: real) | Absent

  function Value(v: Number): real
    requires !v.Absent?
  {
    if v.Integer? then v.n as real else v.x
  }

  predicate StrictInt(v: Number, minimum: int) {
    v.Integer? && v.n >= minimum
  }

  predicate NonNegative(v: Number) {
    !v.Absent? && Value(v) >= 0.0
  }

  /** One row of the timesync status stream. */
  datatype Row = Row(stamp: int, remote: int, observed: Number, estimated: Number, rtt: real, arrival: int)

  /** One accepted-sequence record whose keys and values parsed. */
  datatype Record = Record(
    stamp: int, arrival: int, session: string, reset: nat, observation: nat, acceptedSequence: nat,
    accepted: bool, converged: bool, remote: nat, rtt: real, deviation: int, hashes: seq<string>)

  /** A status of a watched name: its level, its header stamp, its counter if it has one, and its accepted-sequence
      record when the schema gate lets it through. */
  datatype Matched = Matched(level: int, stamp: int, counter: Option<nat>, record: Option<Record>)

  /** The statuses of one name, and whether every status of every name parsed. */
  datatype Statuses = Statuses(matched: seq<Matched>, parsed: bool)

  /** How many diagnostic statuses are needed; how old the newest and how far apart two may be, in nanoseconds. */
  datatype DiagnosticLimits = DiagnosticLimits(samples: nat, maxAge: real, maxGap: real)

  /** The typed values of an accepted-sequence status, its remote time aside. */
  datatype Fields = Fields(
    session: string, reset: nat, observation: nat, acceptedSequence: nat,
    accepted: bool, converged: bool, rtt: real, deviation: int, hashes: seq<string>)

  /** How old the newest header of a window may be, and how far apart two headers. */
  datatype Pace = Pace(maxAge: int, maxGap: int)

  datatype Contract = Contract(
    samples: nat, tail: nat, rowPace: Pace, acceptancePace: Pace, maxResidual: int, linkDelay: int, linkFuture: int,
    diagnostics: DiagnosticLimits, maxRtt: Number, maxDeviation: Number, window: Number, hashes: seq<string>)
  {
    /** What the configuration check demands of the two sample counts. */
    predicate Valid() {
      1 <= tail < samples
    }
  }

  function Remotes(rows: seq<Row>): (r: seq<int>)
    ensures |r| == |rows| && forall i | 0 <= i < |r| :: r[i] == rows[i].remote
  {
    seq(|rows|, i requires 0 <= i < |rows| => rows[i].remote)
  }

  function RecordRemotes(typed: seq<Record>): (r: seq<int>)
    ensures |r| == |typed| && forall i | 0 <= i < |r| :: r[i] == typed[i].remote
  {
    seq(|typed|, i requires 0 <= i < |typed| => typed[i].remote as int)
  }

  /** The slice [-n:] of a list, for positive n. */
  function Tail<T>(s: seq<T>, n: nat): seq<T> {
    if |s| >= n then s[|s| - n..] else s
  }

  /** It is the last n elements, or all of a shorter list. */
  lemma TailIsLast<T>(s: seq<T>, n: nat)
    ensures |Tail(s, n)| == if n < |s| then n else |s|
    ensures s == s[..|s| - |Tail(s, n)|] + Tail(s, n)
  {
  }

  // ---------------------------------------------------------------- linking remotes to rows

  /** The indices at which a remote time occurs, in order. */
  function Occurrences(remotes: seq<int>, r: int): (at: seq<nat>)
    ensures forall k | 0 <= k < |at| :: at[k] < |remotes|
  {
    if remotes == [] then []
    else
      var n := |remotes| - 1;
      var before := Occurrences(remotes[..n], r);
      if remotes[n] == r then before + [n] else before
  }

  lemma {:induction false} OccurrencesMatch(remotes: seq<int>, r: int)
    ensures forall k | 0 <= k < |Occurrences(remotes, r)| :: remotes[Occurrences(remotes, r)[k]] == r
    ensures forall j, k | 0 <= j < k < |Occurrences(remotes, r)| ::
              Occurrences(remotes, r)[j] < Occurrences(remotes, r)[k]
  {
    if remotes != [] {
      var n := |remotes| - 1;
      OccurrencesMatch(remotes[..n], r);
      var at, before := Occurrences(remotes, r), Occurrences(remotes[..n], r);
      assert forall k | 0 <= k < |before| :: at[k] == before[k] && remotes[..n][before[k]] == remotes[at[k]];
    }
  }

  lemma {:induction false} OccurrencesAreAll(remotes: seq<int>, r: int, i: nat)
    requires i < |remotes| && remotes[i] == r
    ensures i in Occurrences(remotes, r)
  {
    var n := |remotes| - 1;
    var at, before := Occurrences(remotes, r), Occurrences(remotes[..n], r);
    if i < n {
      OccurrencesAreAll(remotes[..n], r, i);
      assert forall k | 0 <= k < |before| :: at[k] == before[k];
    } else {
      assert at[|before|] == n;
    }
  }

  /** The row a record is linked to: the only one with its remote time. */
  function Link(remotes: seq<int>, r: int): Option<nat> {
    var at := Occurrences(remotes, r);
    if |at| == 1 then Some(at[0]) else None
  }

  ghost predicate OnlyAt(remotes: seq<int>, i: nat, r: int) {
    i < |remotes| && remotes[i] == r && forall j: nat | j < |remotes| && j != i :: remotes[j] != r
  }

  lemma LinkIsUniqueRow(remotes: seq<int>, r: int, i: nat)
    ensures Link(remotes, r) == Some(i) <==> OnlyAt(remotes, i, r)
  {
    var at := Occurrences(remotes, r);
    OccurrencesMatch(remotes, r);
    forall j: nat | j < |remotes| && remotes[j] == r
      ensures j in at
    {
      OccurrencesAreAll(remotes, r, j);
    }
    if |at| >= 2 {
      assert at[0] < at[1] && remotes[at[0]] == r && remotes[at[1]] == r;
    }
  }

  function LinkedIndices(remotes: seq<int>, wanted: seq<int>): (at: seq<nat>)
    ensures |at| <= |wanted|
  {
    if wanted == [] then []
    else
      var before := LinkedIndices(remotes, wanted[..|wanted| - 1]);
      match Link(remotes, wanted[|wanted| - 1])
      case Some(i) => before + [i]
      case None => before
  }

  function Consecutive(lo: nat, hi: nat): (s: seq<nat>)
    requires lo <= hi
    ensures |s| == hi - lo && forall k | 0 <= k < |s| :: s[k] == lo + k
  {
    seq(hi - lo, k requires 0 <= k => lo + k)
  }

  predicate TailIndexGate(remotes: seq<int>, wanted: seq<int>, required: nat) {
    |wanted| == required &&
    LinkedIndices(remotes, wanted) ==
      Consecutive(if |remotes| >= required then |remotes| - required else 0, |remotes|)
  }

  /** Record j sits on row base + j, whose remote time occurs nowhere else. */
  ghost predicate OnRows(remotes: seq<int>, wanted: seq<int>, base: nat) {
    forall j: nat | j < |wanted| :: OnlyAt(remotes, base + j, wanted[j])
  }

  lemma OnRowsStep(remotes: seq<int>, wanted: seq<int>, base: nat)
    requires |wanted| > 0
    ensures var n := |wanted| - 1;
            OnRows(remotes, wanted, base)
            <==> OnRows(remotes, wanted[..n], base) && OnlyAt(remotes, base + n, wanted[n])
  {
    var n := |wanted| - 1;
    if OnRows(remotes, wanted[..n], base) && OnlyAt(remotes, base + n, wanted[n]) {
      forall j: nat | j < |wanted|
        ensures OnlyAt(remotes, base + j, wanted[j])
      {
        if j < n {
          assert OnlyAt(remotes, base + j, wanted[..n][j]);
        }
      }
    }
    if OnRows(remotes, wanted, base) {
      assert forall j: nat | j < n :: wanted[..n][j] == wanted[j];
    }
  }

  lemma AppendedConsecutive(s: seq<nat>, x: nat, lo: nat, hi: nat)
    requires lo <= hi
    ensures s + [x] == Consecutive(lo, hi + 1) <==> s == Consecutive(lo, hi) && x == hi
  {
    assert Consecutive(lo, hi + 1) == Consecutive(lo, hi) + [hi];
    if s + [x] == Consecutive(lo, hi + 1) {
      assert s == (s + [x])[..|s|] && x == (s + [x])[|s|];
    }
  }

  predicate Tracks(remotes: seq<int>, wanted: seq<int>, base: nat) {
    LinkedIndices(remotes, wanted) == Consecutive(base, base + |wanted|)
  }

  lemma TracksStep(remotes: seq<int>, wanted: seq<int>, base: nat)
    requires |wanted| > 0
    ensures var n := |wanted| - 1;
            Tracks(remotes, wanted, base)
            <==> Tracks(remotes, wanted[..n], base) && Link(remotes, wanted[n]) == Some(base + n)
  {
    var n := |wanted| - 1;
    match Link(remotes, wanted[n])
    case None =>
    case Some(i) => AppendedConsecutive(LinkedIndices(remotes, wanted[..n]), i, base, base + n);
  }

  lemma {:induction false} TracksIsOnRows(remotes: seq<int>, wanted: seq<int>, base: nat)
    ensures Tracks(remotes, wanted, base) <==> OnRows(remotes, wanted, base)
  {
    if wanted == [] {
      assert LinkedIndices(remotes, wanted) == Consecutive(base, base);
    } else {
      var n := |wanted| - 1;
      TracksStep(remotes, wanted, base);
      TracksIsOnRows(remotes, wanted[..n], base);
      OnRowsStep(remotes, wanted, base);
      LinkIsUniqueRow(remotes, wanted[n], base + n);
    }
  }

  /** The index gate says: the records lie, in order, on exactly the last rows, their remote times unique among all. */
  lemma TailIndexGateMeaning(remotes: seq<int>, wanted: seq<int>, required: nat)
    requires required <= |remotes|
    ensures TailIndexGate(remotes, wanted, required)
            <==> |wanted| == required && OnRows(remotes, wanted, |remotes| - required)
  {
    if |wanted| == required {
      TracksIsOnRows(remotes, wanted, |remotes| - required);
    }
  }

  // ---------------------------------------------------------------- the records and their continuity

  /** The records that passed the schema gate, in order. */
  function WellFormed(matched: seq<Matched>): (typed: seq<Record>)
    ensures |typed| <= |matched|
    ensures |typed| == |matched| ==>
              forall i | 0 <= i < |matched| :: matched[i].record.Some? && typed[i] == matched[i].record.value
    ensures (forall i | 0 <= i < |matched| :: matched[i].record.Some?) ==> |typed| == |matched|
  {
    if matched == [] then []
    else
      var n := |matched| - 1;
      var before := WellFormed(matched[..n]);
      if matched[n].record.Some? then before + [matched[n].record.value] else before
  }

  predicate AllWellFormed(matched: seq<Matched>) {
    forall i | 0 <= i < |matched| :: matched[i].record.Some?
  }

  predicate AllOk(matched: seq<Matched>) {
    |matched| > 0 && forall i | 0 <= i < |matched| :: matched[i].level == 0
  }

  method CollectRecords(matched: seq<Matched>) returns (typed: seq<Record>, clean: bool)
    ensures typed == WellFormed(matched)
    ensures clean <==> AllWellFormed(matched)
  {
    typed, clean := [], true;
    for i := 0 to |matched|
      invariant typed == WellFormed(matched[..i])
      invariant clean <==> forall k | 0 <= k < i :: matched[k].record.Some?
    {
      assert matched[..i + 1][..i] == matched[..i];
      if matched[i].record.None? {
        clean := false;
        continue;
      }
      typed := typed + [matched[i].record.value];
    }
    assert matched[..|matched|] == matched;
  }

  /** Each sequence number is its predecessor's, plus one exactly when the record was accepted. */
  predicate Transitions(typed: seq<Record>) {
    forall j | 1 <= j < |typed| ::
      typed[j].acceptedSequence == typed[j - 1].acceptedSequence + if typed[j].accepted then 1 else 0
  }

  predicate NoRollback(typed: seq<Record>) {
    forall j | 1 <= j < |typed| :: typed[j].acceptedSequence >= typed[j - 1].acceptedSequence
  }

  predicate StepsByOne(typed: seq<Record>) {
    forall j | 1 <= j < |typed| :: typed[j].acceptedSequence == typed[j - 1].acceptedSequence + 1
  }

  predicate Converged(tail: seq<Record>, window: Number) {
    StrictInt(window, 1) && |tail| > 0 && tail[0].acceptedSequence >= window.n &&
    forall j | 0 <= j < |tail| :: tail[j].accepted && tail[j].converged
  }

  predicate Continuous(typed: seq<Record>, c: Contract) {
    && |typed| > 0
    && (forall j | 0 <= j < |typed| :: typed[j].session == typed[0].session && typed[j].reset == typed[0].reset)
    && (forall j | 1 <= j < |typed| :: typed[j].observation > typed[j - 1].observation)
    && NoRollback(typed)
    && Transitions(typed)
    && StepsByOne(Tail(typed, c.tail))
    && Converged(Tail(typed, c.tail), c.window)
  }

  predicate StampsFresh(stamps: seq<int>, reference: int, pace: Pace) {
    && |stamps| > 0
    && (forall j | 1 <= j < |stamps| :: 0 < stamps[j] - stamps[j - 1] <= pace.maxGap)
    && 0 <= reference - stamps[|stamps| - 1] <= pace.maxAge
  }

  function Stamps(typed: seq<Record>): (s: seq<int>)
    ensures |s| == |typed| && forall i | 0 <= i < |s| :: s[i] == typed[i].stamp
  {
    seq(|typed|, i requires 0 <= i < |typed| => typed[i].stamp)
  }

  /** How many of the records 1 .. n - 1 were accepted. */
  function AcceptedAfterFirst(typed: seq<Record>, n: nat): nat
    requires n <= |typed|
  {
    if n <= 1 then 0 else AcceptedAfterFirst(typed, n - 1) + if typed[n - 1].accepted then 1 else 0
  }

  lemma {:induction false} SequenceCountsAcceptances(typed: seq<Record>, n: nat)
    requires Transitions(typed) && 1 <= n <= |typed|
    ensures typed[n - 1].acceptedSequence - typed[0].acceptedSequence == AcceptedAfterFirst(typed, n)
  {
    if n > 1 {
      SequenceCountsAcceptances(typed, n - 1);
    }
  }

  lemma {:induction false} StepsAddUp(tail: seq<Record>, n: nat)
    requires StepsByOne(tail) && 1 <= n <= |tail|
    ensures tail[n - 1].acceptedSequence == tail[0].acceptedSequence + n - 1
  {
    if n > 1 {
      StepsAddUp(tail, n - 1);
    }
  }

  /** Two of the continuity gates follow from the others. */
  lemma TransitionsCoverSequenceGates(typed: seq<Record>, c: Contract)
    requires Transitions(typed) && Converged(Tail(typed, c.tail), c.window)
    ensures NoRollback(typed) && StepsByOne(Tail(typed, c.tail))
  {
    var tail := Tail(typed, c.tail);
    var base := |typed| - |tail|;
    assert forall j | 0 <= j < |tail| :: tail[j] == typed[base + j];
    forall j | 1 <= j < |tail|
      ensures tail[j].acceptedSequence == tail[j - 1].acceptedSequence + 1
    {
      assert tail[j].accepted && tail[j - 1] == typed[base + j - 1];
    }
  }

  // ---------------------------------------------------------------- linkage and thresholds

  /** The deviation of a row's observed offset from the estimate of the row before it. */
  function Residual(rows: seq<Row>, i: nat): Option<real>
    requires i < |rows|
  {
    if i > 0 && !rows[i].observed.Absent? && !rows[i - 1].estimated.Absent?
    then Some(Abs(Value(rows[i].observed) - Value(rows[i - 1].estimated)))
    else None
  }

  datatype Entry = Entry(index: nat, residual: Option<real>)

  function Entries(rows: seq<Row>, at: seq<nat>): (entries: seq<Entry>)
    requires forall k | 0 <= k < |at| :: at[k] < |rows|
    ensures |entries| == |at| && forall k | 0 <= k < |at| :: entries[k] == Entry(at[k], Residual(rows, at[k]))
  {
    seq(|at|, k requires 0 <= k < |at| => Entry(at[k], Residual(rows, at[k])))
  }

  function Lookup(byRemote: map<int, seq<Entry>>, r: int): seq<Entry> {
    if r in byRemote then byRemote[r] else []
  }

  lemma OccurrencesStep(remotes: seq<int>, i: nat, r: int)
    requires i < |remotes|
    ensures Occurrences(remotes[..i + 1], r) == Occurrences(remotes[..i], r) + if remotes[i] == r then [i] else []
  {
    assert remotes[..i + 1][..i] == remotes[..i];
  }

  lemma EntriesStep(rows: seq<Row>, at: seq<nat>, i: nat)
    requires i < |rows| && forall k | 0 <= k < |at| :: at[k] < |rows|
    ensures Entries(rows, at + [i]) == Entries(rows, at) + [Entry(i, Residual(rows, i))]
  {
  }

  /** byRemote groups the first i rows. */
  ghost predicate Grouped(byRemote: map<int, seq<Entry>>, rows: seq<Row>, i: nat)
    requires i <= |rows|
  {
    forall r :: Lookup(byRemote, r) == Entries(rows, Occurrences(Remotes(rows)[..i], r))
  }

  lemma GroupedStep(byRemote: map<int, seq<Entry>>, rows: seq<Row>, i: nat)
    requires i < |rows| && Grouped(byRemote, rows, i)
    ensures var remote := rows[i].remote;
            Grouped(byRemote[remote := Lookup(byRemote, remote) + [Entry(i, Residual(rows, i))]], rows, i + 1)
  {
    var remote := rows[i].remote;
    var after := byRemote[remote := Lookup(byRemote, remote) + [Entry(i, Residual(rows, i))]];
    forall r
      ensures Lookup(after, r) == Entries(rows, Occurrences(Remotes(rows)[..i + 1], r))
    {
      var at := Occurrences(Remotes(rows)[..i], r);
      OccurrencesStep(Remotes(rows), i, r);
      EntriesStep(rows, at, i);
      assert Lookup(byRemote, r) == Entries(rows, at);
    }
  }

  /** Groups the rows by remote time. */
  method IndexByRemote(rows: seq<Row>) returns (byRemote: map<int, seq<Entry>>)
    ensures Grouped(byRemote, rows, |rows|)
  {
    byRemote := map[];
    for i := 0 to |rows|
      invariant Grouped(byRemote, rows, i)
    {
      GroupedStep(byRemote, rows, i);
      var remote := rows[i].remote;
      byRemote := byRemote[remote := Lookup(byRemote, remote) + [Entry(i, Residual(rows, i))]];
    }
  }

  function LinkedEntry(rows: seq<Row>, remote: int): Option<Entry> {
    match Link(Remotes(rows), remote)
    case Some(i) => Some(Entry(i, Residual(rows, i)))
    case None => None
  }

  lemma LinkFromGroup(byRemote: map<int, seq<Entry>>, rows: seq<Row>, remote: int)
    requires Grouped(byRemote, rows, |rows|)
    ensures var matches := Lookup(byRemote, remote);
            LinkedEntry(rows, remote) == if |matches| == 1 then Some(matches[0]) else None
  {
    assert Remotes(rows)[..|rows|] == Remotes(rows);
  }

  method LinkOne(byRemote: map<int, seq<Entry>>, rows: seq<Row>, remote: int) returns (entry: Option<Entry>)
    requires Grouped(byRemote, rows, |rows|)
    ensures entry == LinkedEntry(rows, remote)
  {
    LinkFromGroup(byRemote, rows, remote);
    var matches := Lookup(byRemote, remote);
    entry := if |matches| == 1 then Some(matches[0]) else None;
  }

  lemma LinkedIndicesStep(remotes: seq<int>, wanted: seq<int>, j: nat)
    requires j < |wanted|
    ensures LinkedIndices(remotes, wanted[..j + 1]) ==
            LinkedIndices(remotes, wanted[..j]) +
            match Link(remotes, wanted[j]) { case Some(i) => [i] case None => [] }
  {
    assert wanted[..j + 1][..j] == wanted[..j];
  }

  method LinkRecords(rows: seq<Row>, typed: seq<Record>) returns (linked: seq<Option<Entry>>, indices: seq<nat>)
    ensures |linked| == |typed| && forall j | 0 <= j < |typed| :: linked[j] == LinkedEntry(rows, typed[j].remote)
    ensures indices == LinkedIndices(Remotes(rows), RecordRemotes(typed))
  {
    var byRemote := IndexByRemote(rows);
    linked, indices := [], [];
    ghost var wanted := RecordRemotes(typed);
    for j := 0 to |typed|
      invariant |linked| == j && forall k | 0 <= k < j :: linked[k] == LinkedEntry(rows, typed[k].remote)
      invariant indices == LinkedIndices(Remotes(rows), wanted[..j])
    {
      var entry := LinkOne(byRemote, rows, typed[j].remote);
      LinkedIndicesStep(Remotes(rows), wanted, j);
      linked := linked + [entry];
      if entry.Some? {
        indices := indices + [entry.value.index];
      }
    }
    assert wanted[..|typed|] == wanted;
  }

  /** What the linkage gate asks of one record and the row it is linked to. */
  predicate AgreesWithRow(item: Record, rows: seq<Row>, i: nat, c: Contract) {
    && i < |rows|
    && item.rtt == rows[i].rtt
    && Residual(rows, i).Some?
    && AbsInt(item.deviation) == Truncate(Residual(rows, i).value)
    && item.arrival >= 1
    && -c.linkFuture <= item.arrival - rows[i].arrival <= c.linkDelay
  }

  predicate Linked(rows: seq<Row>, tail: seq<Record>, c: Contract) {
    && TailIndexGate(Remotes(rows), RecordRemotes(tail), c.tail)
    && forall j | 0 <= j < |tail| ::
         var link := Link(Remotes(rows), tail[j].remote);
         link.Some? && AgreesWithRow(tail[j], rows, link.value, c)
  }

  predicate WithinLimits(rtt: real, deviation: real, c: Contract) {
    && NonNegative(c.maxRtt) && rtt < Value(c.maxRtt)
    && NonNegative(c.maxDeviation) && deviation <= Value(c.maxDeviation) * 1000000.0
    && deviation <= c.maxResidual as real
  }

  predicate RecordsWithinLimits(tail: seq<Record>, c: Contract) {
    |tail| > 0 && forall j | 0 <= j < |tail| :: WithinLimits(tail[j].rtt, AbsInt(tail[j].deviation) as real, c)
  }

  /** The threshold gate computed from the status rows alone. */
  predicate RowsWithinLimits(rows: seq<Row>, c: Contract) {
    && |rows| >= c.tail
    && forall i | |rows| - c.tail <= i < |rows| ::
         rows[i].rtt >= 0.0 && Residual(rows, i).Some? && WithinLimits(rows[i].rtt, Residual(rows, i).value, c)
  }

  /** The schema gate of the status rows: enough of them, all well-typed. */
  predicate RowsWellTyped(rows: seq<Row>, c: Contract) {
    && |rows| >= c.samples && c.tail > 0 && |rows| > c.tail
    && forall i | 0 <= i < |rows| ::
         rows[i].remote >= 1 && rows[i].observed.Integer? && rows[i].estimated.Integer? && rows[i].rtt >= 0.0
  }

  lemma IntegerResidual(rows: seq<Row>, i: nat)
    requires 0 < i < |rows| && rows[i].observed.Integer? && rows[i - 1].estimated.Integer?
    ensures Residual(rows, i) == Some(AbsInt(rows[i].observed.n - rows[i - 1].estimated.n) as real)
  {
  }

  lemma {:induction false} AllLinked(remotes: seq<int>, wanted: seq<int>)
    requires forall j | 0 <= j < |wanted| :: Link(remotes, wanted[j]).Some?
    ensures |LinkedIndices(remotes, wanted)| == |wanted|
  {
    if wanted != [] {
      AllLinked(remotes, wanted[..|wanted| - 1]);
    }
  }

  /** Every tail record has a row of its own, so there are at least as many rows. */
  lemma LinkedNeedsRows(rows: seq<Row>, tail: seq<Record>, c: Contract)
    requires Linked(rows, tail, c)
    ensures |rows| >= c.tail == |tail|
  {
    forall j | 0 <= j < |tail| ensures Link(Remotes(rows), RecordRemotes(tail)[j]).Some? {
      assert RecordRemotes(tail)[j] == tail[j].remote;
    }
    AllLinked(Remotes(rows), RecordRemotes(tail));
  }

  /** Under the linkage gate, record j is the record of row |rows| - tail + j, and agrees with it. */
  lemma LinkedRecordsAreTheLastRows(rows: seq<Row>, tail: seq<Record>, c: Contract)
    requires Linked(rows, tail, c)
    ensures |rows| >= c.tail == |tail|
    ensures OnRows(Remotes(rows), RecordRemotes(tail), |rows| - c.tail)
    ensures forall j: nat | j < c.tail :: AgreesWithRow(tail[j], rows, |rows| - c.tail + j, c)
  {
    var remotes, wanted := Remotes(rows), RecordRemotes(tail);
    LinkedNeedsRows(rows, tail, c);
    TailIndexGateMeaning(remotes, wanted, c.tail);
    forall j: nat | j < c.tail
      ensures AgreesWithRow(tail[j], rows, |rows| - c.tail + j, c)
    {
      assert OnlyAt(remotes, |rows| - c.tail + j, wanted[j]);
      LinkIsUniqueRow(remotes, wanted[j], |rows| - c.tail + j);
      assert wanted[j] == tail[j].remote;
    }
  }

  /** Record j of the tail agrees with row |rows| - tail + j. */
  predicate AgreesInOrder(rows: seq<Row>, tail: seq<Record>, c: Contract) {
    |rows| >= c.tail == |tail| &&
    forall j: nat | j < c.tail :: AgreesWithRow(tail[j], rows, |rows| - c.tail + j, c)
  }

  /** Where the index gate holds, the dictionary lookup of the linkage gate pairs by position. */
  lemma LinkedInOrder(rows: seq<Row>, tail: seq<Record>, c: Contract)
    requires TailIndexGate(Remotes(rows), RecordRemotes(tail), c.tail) && |rows| >= c.tail
    ensures Linked(rows, tail, c) <==> AgreesInOrder(rows, tail, c)
  {
    LinkedByPosition(Remotes(rows), tail, c.tail);
  }

  lemma LinkedByPosition(remotes: seq<int>, tail: seq<Record>, required: nat)
    requires TailIndexGate(remotes, RecordRemotes(tail), required) && required <= |remotes|
    ensures |tail| == required
    ensures forall j: nat | j < required :: Link(remotes, tail[j].remote) == Some(|remotes| - required + j)
  {
    var wanted := RecordRemotes(tail);
    TailIndexGateMeaning(remotes, wanted, required);
    forall j: nat | j < required ensures Link(remotes, tail[j].remote) == Some(|remotes| - required + j) {
      assert OnlyAt(remotes, |remotes| - required + j, wanted[j]);
      LinkIsUniqueRow(remotes, wanted[j], |remotes| - required + j);
    }
  }

  lemma SameLimits(item: Record, rows: seq<Row>, i: nat, c: Contract)
    requires AgreesWithRow(item, rows, i, c) && i > 0
    requires rows[i].observed.Integer? && rows[i - 1].estimated.Integer?
    ensures WithinLimits(item.rtt, AbsInt(item.deviation) as real, c)
            <==> WithinLimits(rows[i].rtt, Residual(rows, i).value, c)
  {
    IntegerResidual(rows, i);
  }

  /** On linked, well-typed evidence, the thresholds on the records and on the status rows are the same test. */
  lemma LinkedThresholdsAgree(rows: seq<Row>, tail: seq<Record>, c: Contract)
    requires c.Valid() && Linked(rows, tail, c) && RowsWellTyped(rows, c)
    ensures RecordsWithinLimits(tail, c) <==> RowsWithinLimits(rows, c)
  {
    LinkedRecordsAreTheLastRows(rows, tail, c);
    var base := |rows| - c.tail;
    forall j: nat | j < c.tail
      ensures WithinLimits(tail[j].rtt, AbsInt(tail[j].deviation) as real, c)
              <==> WithinLimits(rows[base + j].rtt, Residual(rows, base + j).value, c)
    {
      SameLimits(tail[j], rows, base + j, c);
    }
    if RecordsWithinLimits(tail, c) {
      forall i | base <= i < |rows|
        ensures Residual(rows, i).Some? && WithinLimits(rows[i].rtt, Residual(rows, i).value, c)
      {
        var j := i - base;
        assert AgreesWithRow(tail[j], rows, base + j, c);
      }
    }
    if RowsWithinLimits(rows, c) {
      forall j | 0 <= j < |tail|
        ensures WithinLimits(tail[j].rtt, AbsInt(tail[j].deviation) as real, c)
      {
        assert rows[base + j].rtt >= 0.0;
      }
    }
  }

  // ---------------------------------------------------------------- the two reports

  predicate SameSources(typed: seq<Record>, c: Contract) {
    |typed| > 0 && forall j | 0 <= j < |typed| :: typed[j].hashes == c.hashes
  }

  /** When the accepted-sequence report passes: parsed says every diagnostic document parsed. */
  predicate AcceptancePasses(matched: seq<Matched>, parsed: bool, reference: int, rows: seq<Row>, c: Contract) {
    var typed := WellFormed(matched);
    var tail := Tail(typed, c.tail);
    && parsed
    && AllOk(matched)
    && AllWellFormed(matched)
    && |matched| >= c.tail
    && StampsFresh(Stamps(typed), reference, c.acceptancePace)
    && Continuous(typed, c)
    && SameSources(typed, c)
    && Linked(rows, tail, c)
    && RecordsWithinLimits(tail, c)
  }

  predicate EntriesAgree(linked: seq<Option<Entry>>, rows: seq<Row>, tail: seq<Record>, c: Contract)
    requires |linked| == |tail|
  {
    forall j | 0 <= j < |tail| :: linked[j].Some? && AgreesWithRow(tail[j], rows, linked[j].value.index, c)
  }

  lemma EntriesDecide(linked: seq<Option<Entry>>, rows: seq<Row>, tail: seq<Record>, c: Contract)
    requires |linked| == |tail| && forall j | 0 <= j < |tail| :: linked[j] == LinkedEntry(rows, tail[j].remote)
    ensures TailIndexGate(Remotes(rows), RecordRemotes(tail), c.tail) && EntriesAgree(linked, rows, tail, c)
            <==> Linked(rows, tail, c)
  {
    forall j | 0 <= j < |tail|
      ensures linked[j].Some? <==> Link(Remotes(rows), tail[j].remote).Some?
      ensures linked[j].Some? ==> linked[j].value.index == Link(Remotes(rows), tail[j].remote).value
    {
      assert linked[j] == LinkedEntry(rows, tail[j].remote);
    }
  }

  method CheckLinkage(rows: seq<Row>, tail: seq<Record>, c: Contract) returns (gate: bool, indices: seq<nat>)
    ensures gate <==> Linked(rows, tail, c)
    ensures indices == LinkedIndices(Remotes(rows), RecordRemotes(tail))
  {
    var linked: seq<Option<Entry>>;
    linked, indices := LinkRecords(rows, tail);
    EntriesDecide(linked, rows, tail, c);
    var start := if |rows| >= c.tail then |rows| - c.tail else 0;
    gate := |tail| == c.tail && indices == Consecutive(start, |rows|) && EntriesAgree(linked, rows, tail, c);
  }

  datatype Acceptance = Acceptance(pass: bool, tail: seq<Record>, recordCount: nat, linkedIndices: seq<nat>)

  method AcceptanceReport(matched: seq<Matched>, parsed: bool, reference: int, rows: seq<Row>, c: Contract)
    returns (report: Acceptance)
    requires c.Valid()
    ensures report.pass <==> AcceptancePasses(matched, parsed, reference, rows, c)
    ensures report.tail == Tail(WellFormed(matched), c.tail) && report.recordCount == |WellFormed(matched)|
    ensures report.linkedIndices == LinkedIndices(Remotes(rows), RecordRemotes(report.tail))
  {
    var levelsOk := AllOk(matched);
    var typed, clean := CollectRecords(matched);
    var countGate := |matched| >= c.tail && |typed| == |matched|;
    var tail := Tail(typed, c.tail);
    var recordGates := StampsFresh(Stamps(typed), reference, c.acceptancePace) && Continuous(typed, c) &&
      SameSources(typed, c);
    var linkageGate, indices := CheckLinkage(rows, tail, c);
    var pass := parsed && levelsOk && clean && countGate && recordGates && linkageGate &&
      RecordsWithinLimits(tail, c);
    report := Acceptance(pass, tail, |typed|, indices);
  }

  /** The status rows alone: well-typed, clocks strictly increasing without gaps, fresh at the end. */
  predicate RowsContinuous(rows: seq<Row>, reference: int, c: Contract) {
    && RowsWellTyped(rows, c)
    && (forall i | 0 <= i < |rows| :: rows[i].stamp > 0)
    && (forall i | 1 <= i < |rows| :: 0 < rows[i].stamp - rows[i - 1].stamp <= c.rowPace.maxGap)
    && 0 <= reference - rows[|rows| - 1].stamp <= c.rowPace.maxAge
    && (forall i | 1 <= i < |rows| :: rows[i].remote > rows[i - 1].remote)
  }

  // ---------------------------------------------------------------- the diagnostic window

  function Counters(matched: seq<Matched>): (s: seq<int>)
    requires forall i | 0 <= i < |matched| :: matched[i].counter.Some?
    ensures |s| == |matched| && forall i | 0 <= i < |s| :: s[i] == matched[i].counter.value
  {
    seq(|matched|, i requires 0 <= i < |matched| => matched[i].counter.value)
  }

  function StatusStamps(matched: seq<Matched>): (s: seq<int>)
    ensures |s| == |matched| && forall i | 0 <= i < |s| :: s[i] == matched[i].stamp
  {
    seq(|matched|, i requires 0 <= i < |matched| => matched[i].stamp)
  }

  /** Enough statuses, all parsed and OK; over the whole window no counter goes back and stamps strictly advance; no two
      neighbours lie too far apart, and the newest is fresh. */
  predicate DiagnosticHolds(d: Statuses, reference: int, limits: DiagnosticLimits) {
    && d.parsed && |d.matched| >= limits.samples && AllOk(d.matched)
    && (forall i | 0 <= i < |d.matched| :: d.matched[i].counter.Some?)
    && (forall i, j | 0 <= i < j < |d.matched| ::
          d.matched[i].counter.value <= d.matched[j].counter.value && d.matched[i].stamp < d.matched[j].stamp)
    && (forall i | 1 <= i < |d.matched| :: (d.matched[i].stamp - d.matched[i - 1].stamp) as real <= limits.maxGap)
    && 0.0 <= (reference - d.matched[|d.matched| - 1].stamp) as real <= limits.maxAge
  }

  /** Neighbours in order are all in order. */
  lemma OrderedThroughout(matched: seq<Matched>)
    requires forall i | 0 <= i < |matched| :: matched[i].counter.Some?
    ensures NonDecreasing(Counters(matched)) && Increasing(StatusStamps(matched))
            <==> forall i, j | 0 <= i < j < |matched| ::
                   matched[i].counter.value <= matched[j].counter.value && matched[i].stamp < matched[j].stamp
  {
    var stamps, counters := StatusStamps(matched), Counters(matched);
    if NonDecreasing(counters) && Increasing(stamps) {
      IncreasingThroughout(stamps);
      forall i, j | 0 <= i < j < |matched| ensures matched[i].counter.value <= matched[j].counter.value {
        NonDecreasingOrder(counters, i, j);
      }
    }
  }

  /** The gates compare neighbours only. */
  method CheckDiagnostics(d: Statuses, reference: int, limits: DiagnosticLimits) returns (ok: bool)
    ensures ok <==> DiagnosticHolds(d, reference, limits)
  {
    var counted := forall i | 0 <= i < |d.matched| :: d.matched[i].counter.Some?;
    if !d.parsed || !AllOk(d.matched) || !counted || |d.matched| < limits.samples {
      return false;
    }
    var stamps := StatusStamps(d.matched);
    OrderedThroughout(d.matched);
    ok := NonDecreasing(Counters(d.matched)) && Increasing(stamps) &&
      (forall i | 1 <= i < |stamps| :: (stamps[i] - stamps[i - 1]) as real <= limits.maxGap) &&
      0.0 <= (reference - stamps[|stamps| - 1]) as real <= limits.maxAge;
  }

  predicate ReportPasses(rows: seq<Row>, matched: seq<Matched>, parsed: bool, diagnostic: Statuses, reference: int,
                         c: Contract) {
    && RowsContinuous(rows, reference, c)
    && RowsWithinLimits(rows, c)
    && DiagnosticHolds(diagnostic, reference, c.diagnostics)
    && AcceptancePasses(matched, parsed, reference, rows, c)
  }

  /** The residuals of the last rows and whether every one meets the thresholds. */
  method CheckTail(rows: seq<Row>, c: Contract) returns (residuals: seq<Option<real>>, ok: bool)
    requires c.Valid()
    ensures ok <==> RowsWithinLimits(rows, c)
    ensures |rows| >= c.tail ==> |residuals| == c.tail
    ensures |rows| >= c.tail ==> forall k | 0 <= k < c.tail :: residuals[k] == Residual(rows, |rows| - c.tail + k)
  {
    var start := if |rows| >= c.tail then |rows| - c.tail else |rows|;
    residuals, ok := [], true;
    for i := start to |rows|
      invariant |residuals| == i - start
      invariant forall k | 0 <= k < |residuals| :: residuals[k] == Residual(rows, start + k)
      invariant ok <==> forall k | start <= k < i ::
                  rows[k].rtt >= 0.0 && Residual(rows, k).Some? && WithinLimits(rows[k].rtt, Residual(rows, k).value, c)
    {
      var residual := Residual(rows, i);
      residuals := residuals + [residual];
      ok := ok && rows[i].rtt >= 0.0 && residual.Some? && WithinLimits(rows[i].rtt, residual.value, c);
    }
    ok := ok && |residuals| == c.tail;
  }

  method Report(rows: seq<Row>, matched: seq<Matched>, parsed: bool, diagnostic: Statuses, reference: int, c: Contract)
    returns (pass: bool, acceptance: Acceptance)
    requires c.Valid()
    ensures pass <==> ReportPasses(rows, matched, parsed, diagnostic, reference, c)
    ensures acceptance.pass <==> AcceptancePasses(matched, parsed, reference, rows, c)
  {
    var continuous := RowsContinuous(rows, reference, c);
    var _, tailGate := CheckTail(rows, c);
    acceptance := AcceptanceReport(matched, parsed, reference, rows, c);
    var diagnosticOk := CheckDiagnostics(diagnostic, reference, c.diagnostics);
    pass := continuous && tailGate && diagnosticOk && acceptance.pass;
  }

  lemma ContinuousAccounts(typed: seq<Record>, c: Contract)
    requires 1 <= c.tail <= |typed| && Continuous(typed, c)
    ensures typed[|typed| - 1].acceptedSequence - typed[0].acceptedSequence == AcceptedAfterFirst(typed, |typed|)
    ensures c.window.Integer? && typed[|typed| - 1].acceptedSequence >= c.window.n + c.tail - 1
  {
    var tail := Tail(typed, c.tail);
    SequenceCountsAcceptances(typed, |typed|);
    StepsAddUp(tail, |tail|);
  }

  /**
   What an accepted-sequence PASS is worth: the sequence counts the acceptances exactly, the tail follows a full
   convergence window, and its records are, in order, those of exactly the last rows.
   */
  lemma AcceptanceAccounts(matched: seq<Matched>, parsed: bool, reference: int, rows: seq<Row>, c: Contract)
    requires c.Valid() && AcceptancePasses(matched, parsed, reference, rows, c)
    ensures var typed := WellFormed(matched);
            && |typed| == |matched| >= c.tail && |rows| >= c.tail
            && typed[|typed| - 1].acceptedSequence - typed[0].acceptedSequence == AcceptedAfterFirst(typed, |typed|)
            && typed[|typed| - 1].acceptedSequence >= c.window.n + c.tail - 1
            && OnRows(Remotes(rows), RecordRemotes(Tail(typed, c.tail)), |rows| - c.tail)
  {
    ContinuousAccounts(WellFormed(matched), c);
    LinkedRecordsAreTheLastRows(rows, Tail(WellFormed(matched), c.tail), c);
  }

  /** The row thresholds, computed independently of the records, never change the verdict. */
  lemma RowThresholdsAreImplied(
    rows: seq<Row>, matched: seq<Matched>, parsed: bool, diagnostic: Statuses, reference: int, c: Contract)
    requires c.Valid()
    ensures ReportPasses(rows, matched, parsed, diagnostic, reference, c)
            <==> (RowsContinuous(rows, reference, c) && DiagnosticHolds(diagnostic, reference, c.diagnostics) &&
                  AcceptancePasses(matched, parsed, reference, rows, c))
  {
    if RowsContinuous(rows, reference, c) && AcceptancePasses(matched, parsed, reference, rows, c) {
      LinkedThresholdsAgree(rows, Tail(WellFormed(matched), c.tail), c);
    }
  }

  /** The report with the records paired to the last rows by position: no dictionary, no index gate. */
  predicate ReportInOrder(rows: seq<Row>, matched: seq<Matched>, parsed: bool, diagnostic: Statuses, reference: int,
                          c: Contract) {
    var typed := WellFormed(matched);
    var tail := Tail(typed, c.tail);
    && RowsContinuous(rows, reference, c) && DiagnosticHolds(diagnostic, reference, c.diagnostics) && parsed
    && AllOk(matched) && AllWellFormed(matched) && |matched| >= c.tail
    && StampsFresh(Stamps(typed), reference, c.acceptancePace)
    && Continuous(typed, c) && SameSources(typed, c)
    && AgreesInOrder(rows, tail, c) && RecordsWithinLimits(tail, c)
  }

  /** A passing report pairs its records with the last rows by position. */
  lemma PassingIsInOrder(rows: seq<Row>, matched: seq<Matched>, parsed: bool, diagnostic: Statuses, reference: int,
                         c: Contract)
    requires ReportPasses(rows, matched, parsed, diagnostic, reference, c)
    ensures ReportInOrder(rows, matched, parsed, diagnostic, reference, c)
  {
    LinkedRecordsAreTheLastRows(rows, Tail(WellFormed(matched), c.tail), c);
  }

  /** Where the index gate holds, pairing by position is enough. */
  lemma InOrderPasses(rows: seq<Row>, matched: seq<Matched>, parsed: bool, diagnostic: Statuses, reference: int,
                      c: Contract)
    requires c.Valid() && ReportInOrder(rows, matched, parsed, diagnostic, reference, c)
    requires TailIndexGate(Remotes(rows), RecordRemotes(Tail(WellFormed(matched), c.tail)), c.tail)
    ensures ReportPasses(rows, matched, parsed, diagnostic, reference, c)
  {
    LinkedInOrder(rows, Tail(WellFormed(matched), c.tail), c);
    RowThresholdsAreImplied(rows, matched, parsed, diagnostic, reference, c);
  }
}
