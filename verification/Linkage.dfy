/**
 Greedy one-to-one linkage of correction stamps to identity records, and exactly which
 inputs it accepts.
 */
module Linkage {
  import opened Basics

  /** Correction i and record j carry stamps at most limit apart. */
  predicate Near(c: seq<int>, d: seq<int>, limit: int, i: nat, j: nat) {
    i < |c| && j < |d| && AbsInt(c[i] - d[j]) <= limit
  }

  /** f pairs every correction with its own record, within the limit. */
  predicate PerfectMatching(c: seq<int>, d: seq<int>, limit: int, f: seq<nat>) {
    && |f| == |c| == |d|
    && (forall i | 0 <= i < |f| :: Near(c, d, limit, i, f[i]))
    && Distinct(f)
  }

  /** No correction is near a record that a later correction takes. */
  predicate Forced(c: seq<int>, d: seq<int>, limit: int, f: seq<nat>) {
    forall i, k | 0 <= i < k < |f| :: !Near(c, d, limit, i, f[k])
  }

  ghost predicate Linkable(c: seq<int>, d: seq<int>, limit: int) {
    |c| > 0 && exists f: seq<nat> :: PerfectMatching(c, d, limit, f) && Forced(c, d, limit, f)
  }

  /** Records below m near correction i that no earlier correction used. */
  function Candidates(c: seq<int>, d: seq<int>, limit: int, i: nat, used: set<nat>, m: nat): (s: set<nat>)
    ensures forall j: nat :: j in s <==> j < m && j !in used && Near(c, d, limit, i, j)
  {
    set j: nat | j < m && j !in used && Near(c, d, limit, i, j)
  }

  lemma CandidatesStep(c: seq<int>, d: seq<int>, limit: int, i: nat, used: set<nat>, m: nat)
    ensures Candidates(c, d, limit, i, used, m + 1) ==
            Candidates(c, d, limit, i, used, m) + if m !in used && Near(c, d, limit, i, m) then {m} else {}
  {
  }

  method CollectCandidates(c: seq<int>, d: seq<int>, limit: int, i: nat, used: set<nat>) returns (candidates: seq<nat>)
    ensures forall j: nat :: j in candidates <==> j in Candidates(c, d, limit, i, used, |d|)
    ensures |candidates| == |Candidates(c, d, limit, i, used, |d|)|
  {
    candidates := [];
    for m := 0 to |d|
      invariant forall j: nat :: j in candidates <==> j in Candidates(c, d, limit, i, used, m)
      invariant |candidates| == |Candidates(c, d, limit, i, used, m)|
    {
      CandidatesStep(c, d, limit, i, used, m);
      if m !in used && Near(c, d, limit, i, m) {
        candidates := candidates + [m];
      }
    }
  }

  /**
   The matching loop: each correction takes its only unused near record, or counts as ambiguous.
   matched lists (correction, record) pairs in correction order.
   */
  method MatchGreedily(c: seq<int>, d: seq<int>, limit: int)
    returns (matched: seq<(nat, nat)>, used: set<nat>, ambiguous: nat)
    ensures |matched| + ambiguous == |c| && |used| == |matched|
    ensures ambiguous == 0 ==> forall i | 0 <= i < |matched| :: matched[i].0 == i
    ensures ambiguous == 0 && |c| == |d| ==>
              PerfectMatching(c, d, limit, Records(matched)) && Forced(c, d, limit, Records(matched))
    ensures Linkable(c, d, limit) ==> ambiguous == 0
  {
    matched, used, ambiguous := [], {}, 0;
    for i := 0 to |c|
      invariant |matched| + ambiguous == i && |used| == |matched|
      invariant ambiguous == 0 ==> forall k | 0 <= k < i :: matched[k].0 == k
      invariant ambiguous == 0 ==> Chosen(c, d, limit, Records(matched), used)
      invariant Linkable(c, d, limit) ==> ambiguous == 0
    {
      var candidates := CollectCandidates(c, d, limit, i, used);
      if Linkable(c, d, limit) {
        LinkableStep(c, d, limit, Records(matched), used, candidates);
      }
      if |candidates| != 1 {
        ambiguous := ambiguous + 1;
      } else {
        var index := candidates[0];
        assert index in candidates;
        assert Records(matched + [(i, index)]) == Records(matched) + [index];
        if ambiguous == 0 {
          ChosenStep(c, d, limit, Records(matched), used, candidates, index);
        }
        used := used + {index};
        matched := matched + [(i, index)];
      }
    }
    if ambiguous == 0 && |c| == |d| {
      ChosenAll(c, d, limit, Records(matched), used);
    }
  }

  function Records(matched: seq<(nat, nat)>): (f: seq<nat>)
    ensures |f| == |matched| && forall i | 0 <= i < |f| :: f[i] == matched[i].1
  {
    seq(|matched|, i requires 0 <= i < |matched| => matched[i].1)
  }

  ghost predicate TakenBefore(f: seq<nat>, i: nat, j: nat) {
    exists a :: 0 <= a < i && a < |f| && f[a] == j
  }

  /** Each correction so far took its only candidate among the records unused before it. */
  ghost predicate Chosen(c: seq<int>, d: seq<int>, limit: int, f: seq<nat>, used: set<nat>) {
    && |f| <= |c| && Distinct(f)
    && (forall j: nat :: j in used <==> TakenBefore(f, |f|, j))
    && (forall i | 0 <= i < |f| :: Near(c, d, limit, i, f[i]))
    && (forall i: nat, j: nat | i < |f| && Near(c, d, limit, i, j) :: j == f[i] || TakenBefore(f, i, j))
  }

  lemma ChosenStep(c: seq<int>, d: seq<int>, limit: int, f: seq<nat>, used: set<nat>, candidates: seq<nat>, index: nat)
    requires Chosen(c, d, limit, f, used) && |f| < |c|
    requires candidates == [index] && forall j: nat :: j in candidates <==> j in Candidates(c, d, limit, |f|, used, |d|)
    ensures Chosen(c, d, limit, f + [index], used + {index})
  {
    var g := f + [index];
    assert index in candidates;
    forall i: nat, j: nat | i <= |f| ensures TakenBefore(g, i, j) <==> TakenBefore(f, i, j) {
      assert forall a | 0 <= a < i && a < |f| :: g[a] == f[a];
    }
    forall j: nat ensures j in used + {index} <==> TakenBefore(g, |g|, j) {
      assert g[|f|] == index;
      assert TakenBefore(g, |g|, j) <==> j == index || TakenBefore(f, |f|, j);
    }
    forall i, j | 0 <= i < j < |g| ensures g[i] != g[j] {
      assert TakenBefore(f, |f|, g[i]) || i == |f|;
    }
    forall i: nat, j: nat | i < |g| && Near(c, d, limit, i, j) ensures j == g[i] || TakenBefore(g, i, j) {
      assert i == |f| ==> (j in used || j in candidates);
    }
  }

  lemma ChosenAll(c: seq<int>, d: seq<int>, limit: int, f: seq<nat>, used: set<nat>)
    requires Chosen(c, d, limit, f, used) && |f| == |c| == |d|
    ensures PerfectMatching(c, d, limit, f) && Forced(c, d, limit, f)
  {
    forall i, k | 0 <= i < k < |f| ensures !Near(c, d, limit, i, f[k]) {
      assert !TakenBefore(f, i, f[k]);
    }
  }

  /** On a linkable input the next correction has exactly one candidate. */
  lemma LinkableStep(c: seq<int>, d: seq<int>, limit: int, g: seq<nat>, used: set<nat>, candidates: seq<nat>)
    requires Linkable(c, d, limit) && Chosen(c, d, limit, g, used) && |g| < |c|
    requires forall j: nat :: j in candidates <==> j in Candidates(c, d, limit, |g|, used, |d|)
    requires |candidates| == |Candidates(c, d, limit, |g|, used, |d|)|
    ensures |candidates| == 1
  {
    var n, f: seq<nat> :| n == |g| && PerfectMatching(c, d, limit, f) && Forced(c, d, limit, f);
    ChoicesAgree(c, d, limit, g, used, |g|, f);
    assert !TakenBefore(g, n, f[n]);
    assert f[n] in candidates;
    assert forall k | 0 <= k < n :: f[k] == g[k] && TakenBefore(g, n, f[k]);
    forall j: nat | j in candidates ensures j == f[n] {
      var k := DistinctIndicesCover(f, j);
    }
    assert Candidates(c, d, limit, n, used, |d|) == {f[n]};
  }

  /** Greedy choices follow any perfect matching. */
  lemma {:induction false} ChoicesAgree(c: seq<int>, d: seq<int>, limit: int, g: seq<nat>, used: set<nat>, n: nat,
                                        f: seq<nat>)
    requires Chosen(c, d, limit, g, used) && n <= |g| && PerfectMatching(c, d, limit, f)
    ensures forall i | 0 <= i < n :: g[i] == f[i]
  {
    if n > 0 {
      ChoicesAgree(c, d, limit, g, used, n - 1, f);
      assert Near(c, d, limit, n - 1, f[n - 1]);
      assert !TakenBefore(g, n - 1, f[n - 1]);
    }
  }

  // ----- What acceptance means --------------------------------------------------

  /** A forced matching is the only perfect matching there is. */
  lemma {:induction false} ForcedMatchingIsUnique(c: seq<int>, d: seq<int>, limit: int, f: seq<nat>, g: seq<nat>)
    requires PerfectMatching(c, d, limit, f) && Forced(c, d, limit, f) && PerfectMatching(c, d, limit, g)
    ensures f == g
  {
    forall i | 0 <= i < |f| ensures f[i] == g[i] {
      AgreeUpTo(c, d, limit, f, g, i + 1);
    }
  }

  lemma {:induction false} AgreeUpTo(c: seq<int>, d: seq<int>, limit: int, f: seq<nat>, g: seq<nat>, n: nat)
    requires PerfectMatching(c, d, limit, f) && Forced(c, d, limit, f) && PerfectMatching(c, d, limit, g) && n <= |f|
    ensures forall i | 0 <= i < n :: f[i] == g[i]
  {
    if n > 0 {
      AgreeUpTo(c, d, limit, f, g, n - 1);
      assert Near(c, d, limit, n - 1, g[n - 1]);
      assert forall i | 0 <= i < n - 1 :: f[i] == g[i] && g[i] != g[n - 1];
      var k := DistinctIndicesCover(f, g[n - 1]);
    }
  }

  function Positional(n: nat): (f: seq<nat>)
    ensures |f| == n && forall i | 0 <= i < n :: f[i] == i
  {
    seq(n, i requires 0 <= i < n => i)
  }

  /** In sorted stamps, if any perfect matching stays within the limit then so does i to i. */
  lemma SortedMatchingIsNearDiagonal(c: seq<int>, d: seq<int>, limit: int, f: seq<nat>)
    requires Increasing(c) && Increasing(d) && PerfectMatching(c, d, limit, f)
    ensures PerfectMatching(c, d, limit, Positional(|c|))
  {
    forall i | 0 <= i < |c| ensures Near(c, d, limit, i, i) {
      var early := EarlyLargeValue(f, i);
      var late := LateSmallValue(f, i);
      assert Near(c, d, limit, early, f[early]) && Near(c, d, limit, late, f[late]);
      if early < i { IncreasingOrder(c, early, i); }
      if i < f[early] { IncreasingOrder(d, i, f[early]); }
      if i < late { IncreasingOrder(c, i, late); }
      if f[late] < i { IncreasingOrder(d, f[late], i); }
    }
  }

  /** With strictly increasing stamps on both sides the accepted matching is i to i. */
  lemma SortedLinkageIsPositional(c: seq<int>, d: seq<int>, limit: int, f: seq<nat>)
    requires Increasing(c) && Increasing(d) && PerfectMatching(c, d, limit, f) && Forced(c, d, limit, f)
    ensures f == Positional(|c|)
  {
    SortedMatchingIsNearDiagonal(c, d, limit, f);
    ForcedMatchingIsUnique(c, d, limit, f, Positional(|c|));
  }

  /** Exactly when the loop accepts sorted stamps. */
  lemma SortedLinkageExact(c: seq<int>, d: seq<int>, limit: int)
    requires Increasing(c) && Increasing(d) && |c| == |d| > 0
    ensures Linkable(c, d, limit) <==>
              && (forall i | 0 <= i < |c| :: Near(c, d, limit, i, i))
              && (forall i, j | 0 <= i < j < |c| && j == i + 1 :: !Near(c, d, limit, i, j))
  {
    var p := Positional(|c|);
    if Linkable(c, d, limit) {
      var f: seq<nat> :| PerfectMatching(c, d, limit, f) && Forced(c, d, limit, f);
      SortedLinkageIsPositional(c, d, limit, f);
      forall i, j | 0 <= i < j < |c| && j == i + 1 ensures !Near(c, d, limit, i, j) {
        assert f[j] == j;
      }
      forall i | 0 <= i < |c| ensures Near(c, d, limit, i, i) {
        assert f[i] == i;
      }
    }
    if (forall i | 0 <= i < |c| :: Near(c, d, limit, i, i)) &&
        (forall i, j | 0 <= i < j < |c| && j == i + 1 :: !Near(c, d, limit, i, j)) {
      forall i, k | 0 <= i < k < |c| ensures !Near(c, d, limit, i, p[k]) {
        assert Near(c, d, limit, i + 1, i + 1) && !Near(c, d, limit, i, i + 1);
        assert c[i] < c[i + 1];
        if i + 1 < k { IncreasingOrder(d, i + 1, k); }
      }
      assert PerfectMatching(c, d, limit, p) && Forced(c, d, limit, p);
    }
  }

  /** Corrections more than twice the limit apart, each near its own record, always link. */
  lemma WideSpacingLinks(c: seq<int>, d: seq<int>, limit: int)
    requires |c| == |d| > 0
    requires forall i | 0 <= i < |c| :: Near(c, d, limit, i, i)
    requires forall i, j | 0 <= i < j < |c| :: AbsInt(c[i] - c[j]) > 2 * limit
    ensures Linkable(c, d, limit)
  {
    var p := Positional(|c|);
    forall i, k | 0 <= i < k < |c| ensures !Near(c, d, limit, i, p[k]) {
      assert Near(c, d, limit, k, k) && AbsInt(c[i] - c[k]) > 2 * limit;
    }
    assert PerfectMatching(c, d, limit, p) && Forced(c, d, limit, p);
  }

  /** Uniqueness alone is not enough: the loop refuses this input although only one matching exists. */
  lemma UniqueMatchingMayBeRefused()
    ensures PerfectMatching([0, 3], [0, 2], 2, [0, 1])
    ensures forall g: seq<nat> | PerfectMatching([0, 3], [0, 2], 2, g) :: g == [0, 1]
    ensures !Linkable([0, 3], [0, 2], 2)
  {
    var c, d := [0, 3], [0, 2];
    forall g: seq<nat> | PerfectMatching(c, d, 2, g) ensures g == [0, 1] {
      assert Near(c, d, 2, 1, g[1]) && Near(c, d, 2, 0, g[0]);
    }
    assert PerfectMatching(c, d, 2, [0, 1]);
    assert Increasing(c) && Increasing(d) && Near(c, d, 2, 0, 1);
    SortedLinkageExact(c, d, 2);
  }

  // ----- The accumulator --------------------------------------------------------

  datatype Parsed = Parsed(session: string, reset: nat, correctionStamp: int, correctionSequence: int)

  /** One identity status. clean: its key-value entries are well formed and no key is repeated. */
  datatype IdentityRecord = IdentityRecord(
    parsed: Option<Parsed>, level: int, clean: bool, stamp: int, arrivalWall: int, arrivalRos: int)
  datatype Sample = Sample(stamp: int, arrival: int)

  datatype Config = Config(
    correctionStream: string, propagatedStream: string, maxHeaderDelta: real,
    maxStatusArrivalDelta: real, maxStampDelta: real, requireJoin: bool)

  datatype Gates = Gates(
    propagation: bool, joinRequired: bool, oneToOne: bool,
    stampLink: bool, arrivalLink: bool, sequenceContiguous: bool)
  {
    predicate Pass() {
      propagation && joinRequired && oneToOne && stampLink && arrivalLink && sequenceContiguous
    }
  }

  function Stamps(samples: seq<Sample>): (s: seq<int>)
    ensures |s| == |samples| && forall i | 0 <= i < |s| :: s[i] == samples[i].stamp
  {
    seq(|samples|, i requires 0 <= i < |samples| => samples[i].stamp)
  }

  predicate AllParsed(records: seq<IdentityRecord>) {
    forall i | 0 <= i < |records| :: records[i].parsed.Some?
  }

  function ParsedOnly(records: seq<IdentityRecord>): (r: seq<IdentityRecord>)
    ensures AllParsed(r) && |r| <= |records|
    ensures |r| == |records| <==> AllParsed(records)
    ensures AllParsed(records) ==> r == records
  {
    if records == [] then [] else
      var rest := ParsedOnly(records[1..]);
      if records[0].parsed.Some? then [records[0]] + rest else rest
  }

  function RecordStamps(records: seq<IdentityRecord>): (s: seq<int>)
    requires AllParsed(records)
    ensures |s| == |records| && forall i | 0 <= i < |s| :: s[i] == records[i].parsed.value.correctionStamp
  {
    seq(|records|, i requires 0 <= i < |records| => records[i].parsed.value.correctionStamp)
  }

  function StampLimit(config: Config): int {
    Truncate(config.maxStampDelta * 1000000000.0)
  }

  /** Correction i and record j carry stamps at most so many seconds apart. */
  predicate NearInSeconds(c: seq<int>, d: seq<int>, delta: real, i: nat, j: nat) {
    i < |c| && j < |d| && Seconds(AbsInt(c[i] - d[j])) <= delta
  }

  /** f pairs every correction with its own record, no further than delta apart and forced in correction order. */
  predicate MatchesInSeconds(c: seq<int>, d: seq<int>, delta: real, f: seq<nat>) {
    && |f| == |c| == |d| && Distinct(f)
    && (forall i | 0 <= i < |f| :: NearInSeconds(c, d, delta, i, f[i]))
    && (forall i, k | 0 <= i < k < |f| :: !NearInSeconds(c, d, delta, i, f[k]))
  }

  ghost predicate LinkableInSeconds(c: seq<int>, d: seq<int>, delta: real) {
    |c| > 0 && exists f: seq<nat> :: MatchesInSeconds(c, d, delta, f)
  }

  /** The truncated limit admits exactly the whole numbers of nanoseconds within the configured seconds. */
  lemma LimitIsExact(config: Config, gap: nat)
    requires config.maxStampDelta >= 0.0
    ensures gap <= StampLimit(config) <==> Seconds(gap) <= config.maxStampDelta
  {
    var scaled := config.maxStampDelta * 1000000000.0;
    assert Truncate(scaled) as real <= scaled < (Truncate(scaled) + 1) as real;
    assert Seconds(gap) <= config.maxStampDelta <==> gap as real <= scaled;
  }

  lemma NearIsNearInSeconds(c: seq<int>, d: seq<int>, config: Config, i: nat, j: nat)
    requires config.maxStampDelta >= 0.0
    ensures Near(c, d, StampLimit(config), i, j) <==> NearInSeconds(c, d, config.maxStampDelta, i, j)
  {
    if i < |c| && j < |d| {
      LimitIsExact(config, AbsInt(c[i] - d[j]));
    }
  }

  lemma MatchingIsInSeconds(c: seq<int>, d: seq<int>, config: Config, f: seq<nat>)
    requires config.maxStampDelta >= 0.0
    ensures PerfectMatching(c, d, StampLimit(config), f) && Forced(c, d, StampLimit(config), f)
            <==> MatchesInSeconds(c, d, config.maxStampDelta, f)
  {
    var limit, delta := StampLimit(config), config.maxStampDelta;
    forall i: nat, j: nat
      ensures Near(c, d, limit, i, j) <==> NearInSeconds(c, d, delta, i, j)
    {
      NearIsNearInSeconds(c, d, config, i, j);
    }
  }

  lemma LinkableIsInSeconds(c: seq<int>, d: seq<int>, config: Config)
    requires config.maxStampDelta >= 0.0
    ensures Linkable(c, d, StampLimit(config)) <==> LinkableInSeconds(c, d, config.maxStampDelta)
  {
    forall f: seq<nat>
      ensures PerfectMatching(c, d, StampLimit(config), f) && Forced(c, d, StampLimit(config), f)
              <==> MatchesInSeconds(c, d, config.maxStampDelta, f)
    {
      MatchingIsInSeconds(c, d, config, f);
    }
  }

  predicate NearPropagated(stamp: int, propagated: seq<Sample>, limit: real) {
    exists j | 0 <= j < |propagated| :: Seconds(AbsInt(stamp - propagated[j].stamp)) <= limit
  }

  /** Distance to the nearest propagated header, as the report's min(..., default=None). */
  function NearestDelta(stamp: int, propagated: seq<Sample>): (r: Option<real>)
    ensures r.None? <==> propagated == []
    ensures forall limit: real :: (r.Some? && r.value <= limit) <==> NearPropagated(stamp, propagated, limit)
  {
    if propagated == [] then None else
      var rest := NearestDelta(stamp, propagated[1..]);
      var here := Seconds(AbsInt(stamp - propagated[0].stamp));
      assert forall limit: real :: NearPropagated(stamp, propagated, limit)
               <==> (here <= limit || NearPropagated(stamp, propagated[1..], limit)) by {
        assert propagated == [propagated[0]] + propagated[1..];
      }
      Some(if rest.Some? && rest.value < here then rest.value else here)
  }

  /** By distance in seconds; a negative limit, which the configuration refuses, is judged as it is truncated. */
  ghost predicate LinkableWithin(c: seq<int>, d: seq<int>, config: Config) {
    if config.maxStampDelta >= 0.0 then LinkableInSeconds(c, d, config.maxStampDelta)
    else Linkable(c, d, StampLimit(config))
  }

  predicate MatchesWithin(c: seq<int>, d: seq<int>, config: Config, f: seq<nat>)
    ensures MatchesWithin(c, d, config, f) ==> |f| == |c| == |d| && Indexes(f, |d|)
  {
    if config.maxStampDelta >= 0.0 then MatchesInSeconds(c, d, config.maxStampDelta, f)
    else PerfectMatching(c, d, StampLimit(config), f) && Forced(c, d, StampLimit(config), f)
  }

  lemma WithinIsByLimit(c: seq<int>, d: seq<int>, config: Config)
    ensures LinkableWithin(c, d, config) <==> Linkable(c, d, StampLimit(config))
    ensures forall f: seq<nat> ::
              MatchesWithin(c, d, config, f) <==>
              PerfectMatching(c, d, StampLimit(config), f) && Forced(c, d, StampLimit(config), f)
  {
    if config.maxStampDelta >= 0.0 {
      LinkableIsInSeconds(c, d, config);
      forall f: seq<nat>
        ensures MatchesWithin(c, d, config, f) <==>
                PerfectMatching(c, d, StampLimit(config), f) && Forced(c, d, StampLimit(config), f)
      {
        MatchingIsInSeconds(c, d, config, f);
      }
    }
  }

  /** What each gate of the summary says about the observed streams. */
  ghost predicate Judged(corrections: seq<Sample>, propagated: seq<Sample>, records: seq<IdentityRecord>,
                         config: Config, g: Gates) {
    && (g.propagation <==>
          && corrections != [] && propagated != []
          && forall i | 0 <= i < |corrections| ::
              NearPropagated(corrections[i].stamp, propagated, config.maxHeaderDelta))
    && (g.joinRequired <==> config.requireJoin)
    && (g.oneToOne <==>
          && AllParsed(records) && |records| == |corrections|
          && LinkableWithin(Stamps(corrections), RecordStamps(records), config))
    && (config.maxStampDelta >= 0.0 ==> (g.stampLink <==> g.oneToOne))
    && (g.stampLink || g.arrivalLink || g.sequenceContiguous ==> g.oneToOne)
    && (g.oneToOne ==>
          exists f: seq<nat> :: LinkedBy(corrections, records, config, g, f))
  }

  /** The matching behind the arrival and sequence gates. */
  ghost predicate LinkedBy(corrections: seq<Sample>, records: seq<IdentityRecord>, config: Config, g: Gates,
                           f: seq<nat>)
    requires AllParsed(records)
  {
    && MatchesWithin(Stamps(corrections), RecordStamps(records), config, f)
    && (g.arrivalLink <==> ArrivalsLinked(corrections, records, config, f))
    && (g.sequenceContiguous <==> Contiguous(records, f))
  }

  predicate Indexes(f: seq<nat>, n: nat) {
    forall i | 0 <= i < |f| :: f[i] < n
  }

  predicate ArrivalsLinked(corrections: seq<Sample>, records: seq<IdentityRecord>, config: Config, f: seq<nat>)
    requires |f| <= |corrections| && Indexes(f, |records|)
  {
    forall i | 0 <= i < |f| ::
      Seconds(AbsInt(corrections[i].arrival - records[f[i]].arrivalWall)) <= config.maxStatusArrivalDelta
  }

  predicate Contiguous(records: seq<IdentityRecord>, f: seq<nat>)
    requires AllParsed(records) && Indexes(f, |records|)
  {
    forall j | 1 <= j < |f| ::
      records[f[j]].parsed.value.correctionSequence == records[f[j - 1]].parsed.value.correctionSequence + 1
  }

  class LinkageAccumulator {
    const config: Config
    var streams: map<string, seq<Sample>>

    constructor (config: Config)
      ensures this.config == config && streams == map[]
    {
      this.config := config;
      streams := map[];
    }

    function Stream(name: string): seq<Sample>
      reads this
    {
      if name in streams then streams[name] else []
    }

    method ObserveStream(name: string, stamp: int, arrival: int)
      modifies this
      ensures Stream(name) == old(Stream(name)) + [Sample(stamp, arrival)]
      ensures forall other: string | other != name :: Stream(other) == old(Stream(other))
    {
      streams := streams[name := Stream(name) + [Sample(stamp, arrival)]];
    }

    method Summarize(records: seq<IdentityRecord>) returns (g: Gates)
      ensures Judged(Stream(config.correctionStream), Stream(config.propagatedStream), records, config, g)
    {
      var corrections, propagated := Stream(config.correctionStream), Stream(config.propagatedStream);
      g := JudgeLinkage(corrections, propagated, records, config);
    }
  }

  method JudgePropagation(corrections: seq<Sample>, propagated: seq<Sample>, limit: real) returns (propagation: bool)
    ensures propagation <==>
              && corrections != [] && propagated != []
              && forall i | 0 <= i < |corrections| :: NearPropagated(corrections[i].stamp, propagated, limit)
  {
    propagation := corrections != [] && propagated != [];
    for i := 0 to |corrections|
      invariant propagation <==>
        && corrections != [] && propagated != []
        && forall k | 0 <= k < i :: NearPropagated(corrections[k].stamp, propagated, limit)
    {
      var nearest := NearestDelta(corrections[i].stamp, propagated);
      propagation := propagation && nearest.Some? && nearest.value <= limit;
    }
  }

  method JudgeLinkage(corrections: seq<Sample>, propagated: seq<Sample>, records: seq<IdentityRecord>,
                      config: Config) returns (g: Gates)
    ensures Judged(corrections, propagated, records, config, g)
  {
    var propagation := JudgePropagation(corrections, propagated, config.maxHeaderDelta);
    var parsed := ParsedOnly(records);
    var matched, used, ambiguous := MatchGreedily(Stamps(corrections), RecordStamps(parsed), StampLimit(config));
    var oneToOne :=
      && corrections != [] && |records| == |corrections| && |parsed| == |corrections|
      && |matched| == |corrections| && |used| == |parsed| && ambiguous == 0;
    WithinIsByLimit(Stamps(corrections), RecordStamps(parsed), config);
    if !oneToOne {
      return Gates(propagation, config.requireJoin, false, false, false, false);
    }
    g := JudgeMatched(corrections, records, config, Records(matched), propagation);
  }

  method JudgeMatched(corrections: seq<Sample>, records: seq<IdentityRecord>, config: Config, f: seq<nat>,
                      propagation: bool) returns (g: Gates)
    requires AllParsed(records) && MatchesWithin(Stamps(corrections), RecordStamps(records), config, f)
    ensures g.propagation == propagation && g.joinRequired == config.requireJoin && g.oneToOne
    ensures config.maxStampDelta >= 0.0 ==> g.stampLink
    ensures exists f: seq<nat> :: LinkedBy(corrections, records, config, g, f)
  {
    var c, d := Stamps(corrections), RecordStamps(records);
    g := Gates(propagation, config.requireJoin, true,
      forall i | 0 <= i < |f| :: Seconds(AbsInt(c[i] - d[f[i]])) <= config.maxStampDelta,
      ArrivalsLinked(corrections, records, config, f), Contiguous(records, f));
    assert LinkedBy(corrections, records, config, g, f);
  }

  /**
   A passing summary over strictly increasing stamps, as the stream and identity gates demand:
   record i belongs to correction i, in stamp, in arrival and in sequence.
   */
  lemma PassingLinkageIsPositional(corrections: seq<Sample>, propagated: seq<Sample>, records: seq<IdentityRecord>,
                                   config: Config, g: Gates)
    requires Judged(corrections, propagated, records, config, g) && g.Pass()
    requires AllParsed(records) && Increasing(Stamps(corrections)) && Increasing(RecordStamps(records))
    requires config.maxStampDelta >= 0.0
    ensures |records| == |corrections|
    ensures forall i | 0 <= i < |corrections| ::
              && Seconds(AbsInt(corrections[i].stamp - records[i].parsed.value.correctionStamp)) <= config.maxStampDelta
              && Seconds(AbsInt(corrections[i].arrival - records[i].arrivalWall)) <= config.maxStatusArrivalDelta
              && records[i].parsed.value.correctionSequence == records[0].parsed.value.correctionSequence + i
  {
    var f: seq<nat> :| LinkedBy(corrections, records, config, g, f);
    var c, d := Stamps(corrections), RecordStamps(records);
    MatchingIsInSeconds(c, d, config, f);
    SortedLinkageIsPositional(c, d, StampLimit(config), f);
    assert forall i | 0 <= i < |f| :: NearInSeconds(c, d, config.maxStampDelta, i, f[i]);
    forall i | 0 <= i < |corrections|
      ensures && Seconds(AbsInt(corrections[i].stamp - records[i].parsed.value.correctionStamp)) <= config.maxStampDelta
              && Seconds(AbsInt(corrections[i].arrival - records[i].arrivalWall)) <= config.maxStatusArrivalDelta
              && records[i].parsed.value.correctionSequence == records[0].parsed.value.correctionSequence + i
    {
      assert f[i] == i && f[0] == 0;
      SequencesFollow(records, f, i);
    }
  }

  lemma {:induction false} SequencesFollow(records: seq<IdentityRecord>, f: seq<nat>, i: nat)
    requires AllParsed(records) && i < |f| == |records| && f == Positional(|f|)
    requires forall j | 1 <= j < |f| ::
               records[f[j]].parsed.value.correctionSequence == records[f[j - 1]].parsed.value.correctionSequence + 1
    ensures records[i].parsed.value.correctionSequence == records[0].parsed.value.correctionSequence + i
  {
    if i > 0 {
      SequencesFollow(records, f, i - 1);
      assert f[i] == i && f[i - 1] == i - 1;
    }
  }
}
