/** The cross-check of the two position sources. */
module Consistency {
  import opened Basics
  import opened Levels

  datatype Config = Config(pairTimeout: real, warn: real, error: real)

  /** The last synchronised pair: when it came and how far the two positions were apart. */
  datatype Pair = Pair(time: real, error: real)

  predicate NoRecentPair(c: Config, last: Option<Pair>, now: real) {
    last.None? || now - last.value.time > c.pairTimeout
  }

  /** The level the reporter must give: a missing pair only warns. */
  function Verdict(c: Config, last: Option<Pair>, now: real): nat {
    if NoRecentPair(c, last, now) then WARN
    else if last.value.error > c.error then ERROR
    else if last.value.error > c.warn then WARN
    else OK
  }

  type Point = (real, real, real)

  function SquaredDistance(a: Point, b: Point): real {
    (a.0 - b.0) * (a.0 - b.0) + (a.1 - b.1) * (a.1 - b.1) + (a.2 - b.2) * (a.2 - b.2)
  }

  /** A synchronised pair as it arrived. */
  datatype Sighting = Sighting(a: Point, b: Point, time: real)

  /** The latest pair is no older than the timeout, and its positions lie further apart than the limit. */
  predicate Apart(c: Config, seen: seq<Sighting>, limit: real, now: real) {
    Fresh(c, seen, now) && (limit < 0.0 || SquaredDistance(seen[|seen| - 1].a, seen[|seen| - 1].b) > limit * limit)
  }

  predicate Fresh(c: Config, seen: seq<Sighting>, now: real) {
    seen != [] && now - seen[|seen| - 1].time <= c.pairTimeout
  }

  class ConsistencyDiag {
    const config: Config
    var last: Option<Pair>
    ghost var seen: seq<Sighting>

    /** The stored pair is the latest one seen, its distance the root of the squared distance. */
    ghost predicate Valid()
      reads this
    {
      if last.None? then seen == []
      else
        && seen != [] && last.value.time == seen[|seen| - 1].time && last.value.error >= 0.0
        && last.value.error * last.value.error == SquaredDistance(seen[|seen| - 1].a, seen[|seen| - 1].b)
    }

    constructor (config: Config)
      ensures this.config == config && Valid() && seen == []
    {
      this.config := config;
      last, seen := None, [];
    }

    /** The root is the non-negative number whose square is the squared distance. */
    method OnPair(a: Point, b: Point, root: real, now: real)
      requires Valid() && root >= 0.0 && root * root == SquaredDistance(a, b)
      modifies this
      ensures Valid() && seen == old(seen) + [Sighting(a, b, now)]
    {
      last, seen := Some(Pair(now, root)), seen + [Sighting(a, b, now)];
    }

    /** ERROR exactly when a recent pair lies further apart than the error limit; without a recent pair only WARN. */
    method RunDiag(now: real) returns (level: nat)
      requires Valid()
      ensures level == ERROR <==> Apart(config, seen, config.error, now)
      ensures level == OK <==>
                Fresh(config, seen, now) && !Apart(config, seen, config.error, now) &&
                    !Apart(config, seen, config.warn, now)
      ensures level in {OK, WARN, ERROR}
      ensures level == Verdict(config, last, now)
    {
      if last.None? {
        return WARN;
      }
      var age := now - last.value.time;
      RootExceeds(last.value.error, config.error);
      RootExceeds(last.value.error, config.warn);
      if age > config.pairTimeout {
        return WARN;
      }
      if last.value.error > config.error {
        level := ERROR;
      } else if last.value.error > config.warn {
        level := WARN;
      } else {
        level := OK;
      }
    }
  }
}
