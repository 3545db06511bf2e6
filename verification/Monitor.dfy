/** The severity monitor: the worst capped level over the watched sources. */
module Monitor {
  import opened Basics
  import opened Levels

  /** A diagnostic as published. */
  datatype Status = Status(name: string, level: nat, message: string)

  /** A watched source: the text that selects its statuses, how long it may be silent, and its authority. */
  datatype Source = Source(pattern: string, stale: real, maxLevel: nat)

  datatype Entry = Entry(level: nat, message: string, time: real)

  predicate ValidSources(sources: seq<Source>) {
    forall i | 0 <= i < |sources| :: sources[i].maxLevel <= ERROR
  }

  /** The pattern occurs in the text. */
  predicate Contains(text: string, pattern: string) {
    pattern <= text || (text != "" && Contains(text[1..], pattern))
  }

  /** The search of the pattern is the search of a piece of the text that equals it. */
  lemma {:induction false} ContainsIsPiece(text: string, pattern: string)
    ensures Contains(text, pattern)
            <==> exists i, j | 0 <= i <= j <= |text| :: text[i..j] == pattern
  {
    if text == "" {
      assert text[0..0] == "";
    } else {
      var rest := text[1..];
      ContainsIsPiece(rest, pattern);
      assert forall i, j | 0 <= i <= j <= |rest| :: rest[i..j] == text[i + 1..j + 1];
      if pattern <= text {
        assert text[0..|pattern|] == pattern;
      } else if Contains(rest, pattern) {
        var i, j :| 0 <= i <= j <= |rest| && rest[i..j] == pattern;
        assert text[i + 1..j + 1] == pattern;
      }
      if i, j :| 0 <= i <= j <= |text| && text[i..j] == pattern && !(pattern <= text) {
        assert i > 0 && rest[i - 1..j - 1] == pattern;
      }
    }
  }

  /** The last status of the array the pattern selects. */
  function Selected(statuses: seq<Status>, pattern: string): Option<Status> {
    if statuses == [] then None
    else
      var last := statuses[|statuses| - 1];
      if Contains(last.name, pattern) then Some(last) else Selected(statuses[..|statuses| - 1], pattern)
  }

  function EntryOf(last: map<string, Entry>, pattern: string): Option<Entry> {
    if pattern in last then Some(last[pattern]) else None
  }

  /** The entry a pattern should have after the array. */
  ghost function Expected(before: map<string, Entry>, sources: seq<Source>, statuses: seq<Status>, pattern: string,
                          now: real): Option<Entry> {
    if Watched(sources, pattern) && Selected(statuses, pattern).Some? then
      var status := Selected(statuses, pattern).value;
      Some(Entry(status.level, status.message, now))
    else EntryOf(before, pattern)
  }

  /** after is before, with the entry of every watched pattern taken from the array where it selects one. */
  ghost predicate Recorded(before: map<string, Entry>, after: map<string, Entry>, sources: seq<Source>,
                           statuses: seq<Status>, now: real) {
    forall pattern :: EntryOf(after, pattern) == Expected(before, sources, statuses, pattern, now)
  }

  ghost predicate Watched(sources: seq<Source>, pattern: string) {
    exists i | 0 <= i < |sources| :: sources[i].pattern == pattern
  }

  /** The level of one source before its cap: silence warns until the first report, and is an error after it. */
  function RawLevel(s: Source, last: map<string, Entry>, now: real): nat {
    if s.pattern !in last then WARN
    else if now - last[s.pattern].time > s.stale then ERROR
    else last[s.pattern].level
  }

  function LevelOf(s: Source, last: map<string, Entry>, now: real): nat {
    var raw := RawLevel(s, last, now);
    if raw > s.maxLevel then s.maxLevel else raw
  }

  /** level is the largest level of the sources, or OK when there are none. */
  ghost predicate WorstOf(level: nat, sources: seq<Source>, last: map<string, Entry>, now: real) {
    && (forall i | 0 <= i < |sources| :: LevelOf(sources[i], last, now) <= level)
    && (level == OK || exists i | 0 <= i < |sources| :: LevelOf(sources[i], last, now) == level)
  }

  /** The patterns of the sources at a level, in order. */
  function At(sources: seq<Source>, last: map<string, Entry>, now: real, level: nat): seq<string> {
    if sources == [] then []
    else
      var s := sources[|sources| - 1];
      var before := At(sources[..|sources| - 1], last, now, level);
      if LevelOf(s, last, now) == level then before + [s.pattern] else before
  }

  function Patterns(sources: seq<Source>): set<string> {
    set i | 0 <= i < |sources| :: sources[i].pattern
  }

  /** The record after an array of statuses. */
  ghost function Recording(before: map<string, Entry>, sources: seq<Source>, statuses: seq<Status>,
                           now: real): map<string, Entry> {
    map pattern |
      pattern in before.Keys + Patterns(sources) && Expected(before, sources, statuses, pattern, now).Some? ::
      Expected(before, sources, statuses, pattern, now).value
  }

  lemma RecordedIsRecording(before: map<string, Entry>, after: map<string, Entry>, sources: seq<Source>,
                            statuses: seq<Status>, now: real)
    requires Recorded(before, after, sources, statuses, now)
    ensures after == Recording(before, sources, statuses, now)
  {
    var recording := Recording(before, sources, statuses, now);
    forall pattern
      ensures pattern in after <==> pattern in recording
      ensures pattern in after && pattern in recording ==> after[pattern] == recording[pattern]
    {
      assert EntryOf(after, pattern) == Expected(before, sources, statuses, pattern, now);
    }
  }

  /** The worst level, by recursion over the sources. */
  function WorstLevel(sources: seq<Source>, last: map<string, Entry>, now: real): nat {
    if sources == [] then OK
    else
      var before := WorstLevel(sources[..|sources| - 1], last, now);
      var own := LevelOf(sources[|sources| - 1], last, now);
      if own > before then own else before
  }

  lemma {:induction false} WorstLevelIsWorst(sources: seq<Source>, last: map<string, Entry>, now: real)
    ensures WorstOf(WorstLevel(sources, last, now), sources, last, now)
  {
    if sources != [] {
      var n := |sources| - 1;
      WorstLevelIsWorst(sources[..n], last, now);
      WorstStep(WorstLevel(sources[..n], last, now), sources, n, last, now);
      assert sources[..n + 1] == sources;
    }
  }

  lemma WorstIsUnique(level: nat, sources: seq<Source>, last: map<string, Entry>, now: real)
    requires WorstOf(level, sources, last, now)
    ensures level == WorstLevel(sources, last, now)
  {
    WorstLevelIsWorst(sources, last, now);
  }

  /** Recently heard, and at OK. */
  predicate Healthy(s: Source, last: map<string, Entry>, now: real) {
    s.pattern in last && now - last[s.pattern].time <= s.stale && last[s.pattern].level == OK
  }

  /** The verdict reaches ERROR exactly through a source with that authority that is silent, or reports an error. */
  lemma ErrorExactly(sources: seq<Source>, last: map<string, Entry>, now: real)
    ensures WorstLevel(sources, last, now) >= ERROR
            <==> exists i | 0 <= i < |sources| ::
                     && sources[i].maxLevel >= ERROR && sources[i].pattern in last
                     && (now - last[sources[i].pattern].time > sources[i].stale ||
                         last[sources[i].pattern].level >= ERROR)
  {
    WorstLevelIsWorst(sources, last, now);
    assert forall i | 0 <= i < |sources| ::
        LevelOf(sources[i], last, now) >= ERROR
        <==> sources[i].maxLevel >= ERROR && sources[i].pattern in last &&
             (now - last[sources[i].pattern].time > sources[i].stale || last[sources[i].pattern].level >= ERROR);
  }

  /** The verdict is OK exactly when every source with any authority is healthy: a source never heard warns. */
  lemma OkExactly(sources: seq<Source>, last: map<string, Entry>, now: real)
    ensures WorstLevel(sources, last, now) == OK
            <==> forall i | 0 <= i < |sources| :: sources[i].maxLevel == OK || Healthy(sources[i], last, now)
  {
    WorstLevelIsWorst(sources, last, now);
    assert forall i | 0 <= i < |sources| ::
        LevelOf(sources[i], last, now) == OK <==> sources[i].maxLevel == OK || Healthy(sources[i], last, now);
  }

  /** The caps bound the verdict, whatever was reported. */
  lemma WorstIsCapped(level: nat, sources: seq<Source>, last: map<string, Entry>, now: real)
    requires ValidSources(sources) && WorstOf(level, sources, last, now)
    ensures level <= ERROR
  {
    if level != OK {
      var i :| 0 <= i < |sources| && LevelOf(sources[i], last, now) == level;
    }
  }

  /** The named sources are exactly those at the level. */
  lemma {:induction false} NamedAreAttaining(sources: seq<Source>, last: map<string, Entry>, now: real, level: nat,
                                             name: string)
    ensures name in At(sources, last, now, level)
            <==> exists i | 0 <= i < |sources| :: sources[i].pattern == name && LevelOf(sources[i], last, now) == level
  {
    if sources != [] {
      var n := |sources| - 1;
      NamedAreAttaining(sources[..n], last, now, level, name);
      assert forall i | 0 <= i < n :: sources[..n][i] == sources[i];
    }
  }

  class SeverityMonitor {
    const sources: seq<Source>
    var last: map<string, Entry>

    constructor (sources: seq<Source>)
      requires ValidSources(sources)
      ensures this.sources == sources && last == map[]
    {
      this.sources := sources;
      last := map[];
    }

    method RecordStatus(status: Status, now: real)
      modifies this
      ensures Recorded(old(last), last, sources, [status], now)
    {
      ghost var before := last;
      for i := 0 to |sources|
        invariant Recorded(before, last, sources[..i], [status], now)
      {
        ghost var middle := last;
        if Contains(status.name, sources[i].pattern) {
          last := last[sources[i].pattern := Entry(status.level, status.message, now)];
        }
        forall pattern
          ensures EntryOf(last, pattern) == Expected(before, sources[..i + 1], [status], pattern, now)
        {
          SelectedStep([], status, pattern);
          WatchedStep(sources, i, pattern);
          assert EntryOf(middle, pattern) == Expected(before, sources[..i], [status], pattern, now);
        }
      }
      assert sources[..|sources|] == sources;
    }

    method OnDiag(statuses: seq<Status>, now: real)
      modifies this
      ensures last == Recording(old(last), sources, statuses, now)
    {
      ghost var before := last;
      for i := 0 to |statuses|
        invariant Recorded(before, last, sources, statuses[..i], now)
      {
        ghost var middle := last;
        RecordStatus(statuses[i], now);
        RecordedTwice(before, middle, last, sources, statuses[..i], statuses[i], now);
        assert statuses[..i] + [statuses[i]] == statuses[..i + 1];
      }
      assert statuses[..|statuses|] == statuses;
      RecordedIsRecording(before, last, sources, statuses, now);
    }

    method Worst(now: real) returns (level: nat, names: seq<string>)
      ensures WorstOf(level, sources, last, now) && level == WorstLevel(sources, last, now)
      ensures names == if level > OK then At(sources, last, now, level) else []
    {
      var per: seq<(string, nat)> := [];
      level := OK;
      for i := 0 to |sources|
        invariant |per| == i
        invariant forall k | 0 <= k < i :: per[k] == (sources[k].pattern, LevelOf(sources[k], last, now))
        invariant WorstOf(level, sources[..i], last, now)
      {
        var s := sources[i];
        var own: nat;
        if s.pattern !in last {
          own := WARN;
        } else if now - last[s.pattern].time > s.stale {
          own := ERROR;
        } else {
          own := last[s.pattern].level;
        }
        if own > s.maxLevel {
          own := s.maxLevel;
        }
        per := per + [(s.pattern, own)];
        WorstStep(level, sources, i, last, now);
        level := if own > level then own else level;
      }
      assert sources[..|sources|] == sources;
      WorstIsUnique(level, sources, last, now);
      names := [];
      for i := 0 to |per|
        invariant names == if level > OK then At(sources[..i], last, now, level) else []
      {
        assert sources[..i + 1][..i] == sources[..i];
        if per[i].1 == level && level > OK {
          names := names + [per[i].0];
        }
      }
    }
  }

  lemma WatchedStep(sources: seq<Source>, i: nat, pattern: string)
    requires i < |sources|
    ensures Watched(sources[..i + 1], pattern) <==> Watched(sources[..i], pattern) || sources[i].pattern == pattern
  {
    var longer := sources[..i + 1];
    assert longer[i] == sources[i];
    assert forall k | 0 <= k < i :: longer[k] == sources[..i][k];
  }

  lemma SelectedStep(statuses: seq<Status>, status: Status, pattern: string)
    ensures Selected(statuses + [status], pattern) ==
            if Contains(status.name, pattern) then Some(status) else Selected(statuses, pattern)
    ensures Selected([status], pattern) == if Contains(status.name, pattern) then Some(status) else None
  {
    assert (statuses + [status])[..|statuses|] == statuses;
    assert [status][..0] == [];
  }

  lemma RecordedTwice(before: map<string, Entry>, middle: map<string, Entry>, after: map<string, Entry>,
                      sources: seq<Source>, statuses: seq<Status>, status: Status, now: real)
    requires Recorded(before, middle, sources, statuses, now) && Recorded(middle, after, sources, [status], now)
    ensures Recorded(before, after, sources, statuses + [status], now)
  {
    forall pattern
      ensures EntryOf(after, pattern) == Expected(before, sources, statuses + [status], pattern, now)
    {
      SelectedStep(statuses, status, pattern);
      assert EntryOf(after, pattern) == Expected(middle, sources, [status], pattern, now);
      assert EntryOf(middle, pattern) == Expected(before, sources, statuses, pattern, now);
    }
  }

  lemma WorstStep(level: nat, sources: seq<Source>, i: nat, last: map<string, Entry>, now: real)
    requires i < |sources| && WorstOf(level, sources[..i], last, now)
    ensures var own := LevelOf(sources[i], last, now);
            WorstOf(if own > level then own else level, sources[..i + 1], last, now)
  {
    var longer := sources[..i + 1];
    assert longer[i] == sources[i];
    assert forall k | 0 <= k < i :: longer[k] == sources[..i][k];
  }
}
