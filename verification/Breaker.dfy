/**
 The upstream failure breaker: consecutive failures of one address open a cooldown during
 which requests are turned away; repeated trips double the cooldown up to a cap. Times and
 durations are integers in nanoseconds; the clock is a parameter of every operation.
 */
module Breaker {
  import opened Basics
  import opened Wrappers

  const SECOND := 1_000_000_000
  const COOLDOWN := 30 * SECOND
  const COOLDOWN_MAX := 300 * SECOND
  const SWEEP_THRESHOLD := 512

  /** One table entry; `until` is None while no cooldown is recorded. */
  datatype Streak = Streak(count: nat, cool: int, until: Option<int>, lastAt: int)

  const NEW_STREAK := Streak(0, 0, None, 0)

  /** The cooldown left at an instant, 0 when the gate is open. */
  function Left(entry: Option<Streak>, now: int): int {
    match entry
    case Some(Streak(_, _, Some(u), _)) => if u > now then u - now else 0
    case _ => 0
  }

  /** The cooldown of a trip, given that of the previous one (0 if none). */
  function NextCool(prev: int, base: int): int {
    Min(if prev > 0 then prev * 2 else base, COOLDOWN_MAX)
  }

  /** A recorded cooldown that is over is forgotten before the failure is counted. */
  function Reopened(s: Streak, now: int): Streak {
    if s.until.Some? && now > s.until.value then s.(count := 0, until := None) else s
  }

  /** The entry after a failure, and whether this failure tripped the breaker. */
  function AfterFailure(entry: Option<Streak>, threshold: int, base: int, now: int): (Streak, bool) {
    var s := Reopened(match entry case Some(s) => s case None => NEW_STREAK, now);
    var s1 := s.(count := s.count + 1, lastAt := now);
    if s1.count < threshold || s1.until.Some? then
      (s1, false)
    else
      var cool := NextCool(s1.cool, base);
      (s1.(cool := cool, until := Some(now + cool)), true)
  }

  /** An entry no one needs: long quiet, and not cooling nor recently cooled. */
  predicate Stale(s: Streak, now: int) {
    now - s.lastAt > COOLDOWN && (s.until.None? || now - s.until.value > COOLDOWN)
  }

  function Get(table: map<string, Streak>, key: string): Option<Streak> {
    if key in table then Some(table[key]) else None
  }

  class FailureTable {
    var failures: map<string, Streak>

    constructor ()
      ensures failures == map[]
    {
      failures := map[];
    }

    /** upstreamBlocked */
    method UpstreamBlocked(key: string, now: int) returns (left: int)
      ensures left == Left(Get(failures, key), now)
      ensures key in failures && failures[key].until.Some? && failures[key].until.value > now ==>
        left == failures[key].until.value - now
      ensures key !in failures || failures[key].until.None? || failures[key].until.value <= now ==> left == 0
    {
      if key !in failures {
        return 0;
      }
      var fs := failures[key];
      if fs.until.None? {
        return 0;
      }
      if fs.until.value - now > 0 {
        return fs.until.value - now;
      }
      return 0;
    }

    /** noteUpstreamFailure */
    method NoteFailure(key: string, threshold: int, base: int, now: int) returns (tripped: bool)
      modifies this
      ensures failures == old(failures)[key := AfterFailure(Get(old(failures), key), threshold, base, now).0]
      ensures tripped == AfterFailure(Get(old(failures), key), threshold, base, now).1
    {
      if key !in failures {
        failures := failures[key := NEW_STREAK];
      }
      var fs := failures[key];
      if fs.until.Some? && now > fs.until.value {
        fs := fs.(count := 0, until := None);
      }
      fs := fs.(count := fs.count + 1, lastAt := now);
      if fs.count < threshold || fs.until.Some? {
        failures := failures[key := fs];
        return false;
      }
      var cool := base;
      if fs.cool > 0 {
        cool := fs.cool * 2;
      }
      if cool > COOLDOWN_MAX {
        cool := COOLDOWN_MAX;
      }
      failures := failures[key := fs.(cool := cool, until := Some(now + cool))];
      return true;
    }

    /** noteUpstreamSuccess: the gate for the key opens at once, its next failure counts as the first; other keys keep their entries. */
    method NoteSuccess(key: string)
      modifies this
      ensures forall now :: Left(Get(failures, key), now) == 0
      ensures forall threshold, base, now :: AfterFailure(Get(failures, key), threshold, base, now)
                                          == AfterFailure(None, threshold, base, now)
      ensures forall k :: k != key ==> Get(failures, k) == Get(old(failures), k)
    {
      failures := failures - {key};
    }

    /** sweepUpstreamFailures: nothing below the size threshold, otherwise every stale entry goes. */
    method Sweep(now: int)
      modifies this
      ensures failures == if |old(failures)| < SWEEP_THRESHOLD then old(failures) else Swept(old(failures), now)
      ensures |old(failures)| < 512 ==> failures == old(failures)
      ensures forall k :: k in failures ==> k in old(failures) && failures[k] == old(failures)[k]
      ensures |old(failures)| >= 512 ==> forall k :: k in old(failures) ==>
        var s := old(failures)[k];
        k !in failures <==>
          now - s.lastAt > 30_000_000_000 && (s.until.None? || now - s.until.value > 30_000_000_000)
    {
      if |failures| < SWEEP_THRESHOLD {
        return;
      }
      var keys := failures.Keys;
      ghost var was := failures;
      while keys != {}
        invariant keys <= was.Keys
        invariant failures.Keys <= was.Keys
        invariant forall k :: k in was && k !in keys ==> (k in failures <==> !Stale(was[k], now))
        invariant forall k :: k in keys ==> k in failures
        invariant forall k :: k in failures ==> failures[k] == was[k]
        decreases |keys|
      {
        var k :| k in keys;
        keys := keys - {k};
        if Stale(failures[k], now) {
          failures := failures - {k};
        }
      }
    }
  }

  function Swept(table: map<string, Streak>, now: int): map<string, Streak> {
    map k | k in table && !Stale(table[k], now) :: table[k]
  }

  /** A sweep opens no gate: at its instant and later, every key is blocked exactly as long as before. */
  lemma SweepKeepsCooling(table: map<string, Streak>, key: string, now: int, later: int)
    requires now <= later
    ensures Left(Get(Swept(table, now), key), later) == Left(Get(table, key), later)
    ensures key in table && Left(Get(table, key), now) > 0 ==> key in Swept(table, now)
  {
  }

  /** A failure of an address without a record: it is the first, and trips at once when one is enough. */
  lemma FirstFailure(threshold: int, base: int, now: int)
    ensures threshold > 1 ==> AfterFailure(None, threshold, base, now) == (Streak(1, 0, None, now), false)
    ensures threshold <= 1 && base <= 300_000_000_000 ==>
      AfterFailure(None, threshold, base, now) == (Streak(1, base, Some(now + base), now), true)
  {
  }

  /** The failure that completes the threshold: 30 seconds the first time, then twice the last cooldown, and never more than 300 seconds. */
  lemma Trip(s: Streak, threshold: int, now: int)
    requires s.until.None? && s.count + 1 >= threshold && s.cool >= 0
    ensures
      var (t, tripped) := AfterFailure(Some(s), threshold, COOLDOWN, now);
      && tripped && t.count == s.count + 1 && t.lastAt == now && t.until == Some(now + t.cool)
      && (s.cool == 0 ==> t.cool == 30_000_000_000)
      && (0 < s.cool <= 150_000_000_000 ==> t.cool == 2 * s.cool)
      && (s.cool > 150_000_000_000 ==> t.cool == 300_000_000_000)
  {
  }
}
