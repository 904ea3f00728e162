/**
 The breaker over whole runs: when it trips, and how far apart trips are.
 */
module BreakerRuns {
  import opened Basics
  import opened Wrappers
  import opened Breaker

  // ----- failures of one address, without success or sweep

  datatype Trip = Trip(at: int, cool: int)

  datatype Run = Run(entry: Option<Streak>, trips: seq<Trip>)

  predicate Sorted(times: seq<int>) {
    forall i, j :: 0 <= i < j < |times| ==> times[i] <= times[j]
  }

  /** The entry and the trips after failures at the given instants. */
  function AfterFailures(threshold: int, base: int, times: seq<int>): Run {
    if times == [] then
      Run(None, [])
    else
      var r := AfterFailures(threshold, base, times[..|times| - 1]);
      var now := times[|times| - 1];
      var (s, tripped) := AfterFailure(r.entry, threshold, base, now);
      Run(Some(s), if tripped then r.trips + [Trip(now, s.cool)] else r.trips)
  }

  function Pow2(n: nat): nat {
    if n == 0 then 1 else 2 * Pow2(n - 1)
  }

  /** The cooldown of the n-th trip, n from 0. */
  function Cooldown(base: int, n: nat): int {
    Min(base * Pow2(n), COOLDOWN_MAX)
  }

  function Deadline(t: Trip): int {
    t.at + t.cool
  }

  /** The failures that count towards the next trip: all so far, or those after the last deadline. */
  function Counted(trips: seq<Trip>, times: seq<int>): nat {
    if times == [] then 0
    else
      Counted(trips, times[..|times| - 1]) +
      (if trips == [] || times[|times| - 1] > Deadline(trips[|trips| - 1]) then 1 else 0)
  }

  function Max1(threshold: int): int {
    if threshold > 1 then threshold else 1
  }

  /** What the table entry knows about the run. */
  ghost predicate Consistent(threshold: int, base: int, times: seq<int>, r: Run) {
    match r.entry
    case None => times == [] && r.trips == []
    case Some(s) =>
      && times != [] && s.lastAt == times[|times| - 1]
      && (r.trips == [] ==> s.cool == 0 && s.until.None? && s.count == Counted(r.trips, times) < Max1(threshold))
      && (r.trips != [] ==>
            var last := r.trips[|r.trips| - 1];
            && s.cool == last.cool == Cooldown(base, |r.trips| - 1) && last.at <= s.lastAt
            && (s.until.Some? ==> s.until.value == Deadline(last) && s.lastAt <= Deadline(last))
            && (s.until.None? ==> s.lastAt > Deadline(last) && s.count == Counted(r.trips, times) < Max1(threshold)))
  }

  /** Every trip has its doubled and capped cooldown, and comes strictly after the previous deadline. */
  ghost predicate Law(base: int, trips: seq<Trip>) {
    && (forall j :: 0 <= j < |trips| ==> trips[j].cool == Cooldown(base, j))
    && (forall j {:trigger trips[j]} :: 1 <= j < |trips| ==> trips[j].at > Deadline(trips[j - 1]))
  }

  lemma {:induction false} CountedNone(trips: seq<Trip>, times: seq<int>)
    requires trips != [] && forall i :: 0 <= i < |times| ==> times[i] <= Deadline(trips[|trips| - 1])
    ensures Counted(trips, times) == 0
  {
    if times != [] {
      CountedNone(trips, times[..|times| - 1]);
    }
  }

  lemma {:induction false} PowPositive(n: nat)
    ensures Pow2(n) > 0
  {
    if n > 0 {
      PowPositive(n - 1);
    }
  }

  lemma DoubledCooldown(base: int, n: nat)
    requires base > 0
    ensures NextCool(Cooldown(base, n), base) == Cooldown(base, n + 1)
    ensures 0 < Cooldown(base, n) <= Cooldown(base, n + 1)
    ensures NextCool(0, base) == Cooldown(base, 0)
  {
    PowPositive(n);
    assert Pow2(n + 1) == 2 * Pow2(n) && Pow2(0) == 1;
    hide Pow2;
  }

  lemma Last(times: seq<int>)
    requires Sorted(times) && times != []
    ensures Sorted(times[..|times| - 1])
    ensures forall i :: 0 <= i < |times| ==> times[i] <= times[|times| - 1]
  {
  }

  lemma {:induction false} RunConsistent(threshold: int, base: int, times: seq<int>)
    requires base > 0 && Sorted(times)
    ensures var r := AfterFailures(threshold, base, times); Consistent(threshold, base, times, r) && Law(base, r.trips)
    decreases |times|
  {
    hide AfterFailure;
    if times != [] {
      hide Consistent, Law;
      Last(times);
      var init, now := times[..|times| - 1], times[|times| - 1];
      RunConsistent(threshold, base, init);
      StepConsistent(threshold, base, init, now, AfterFailures(threshold, base, init));
      assert init + [now] == times;
    }
  }

  lemma CountedSnoc(trips: seq<Trip>, init: seq<int>, now: int)
    ensures Counted(trips, init + [now])
         == Counted(trips, init) + (if trips == [] || now > Deadline(trips[|trips| - 1]) then 1 else 0)
  {
  }

  /** The breaker accepts a failure for counting when no cooldown has been recorded or the last one is over. */
  predicate Open(trips: seq<Trip>, now: int) {
    trips == [] || now > Deadline(trips[|trips| - 1])
  }

  /** One more failure: it trips exactly when it is counted and completes the threshold. */
  lemma StepConsistent(threshold: int, base: int, init: seq<int>, now: int, r: Run)
    requires base > 0 && Consistent(threshold, base, init, r) && Law(base, r.trips) && Sorted(init)
    requires forall i :: 0 <= i < |init| ==> init[i] <= now
    ensures
      var (s, tripped) := AfterFailure(r.entry, threshold, base, now);
      var r' := Run(Some(s), if tripped then r.trips + [Trip(now, s.cool)] else r.trips);
      && Consistent(threshold, base, init + [now], r') && Law(base, r'.trips)
      && (tripped <==> Open(r.trips, now) && Counted(r.trips, init + [now]) == Max1(threshold))
  {
    hide Cooldown, Counted, NextCool, Pow2, AfterFailure, Consistent, Law;
    var (s, tripped) := AfterFailure(r.entry, threshold, base, now);
    if tripped {
      TripConsistent(threshold, base, init, now, r);
    } else {
      QuietConsistent(threshold, base, init, now, r);
    }
    TripsWhen(threshold, base, init, now, r);
  }

  /** A failure that does not trip is counted, or falls into a cooldown. */
  lemma QuietConsistent(threshold: int, base: int, init: seq<int>, now: int, r: Run)
    requires base > 0 && Consistent(threshold, base, init, r) && Sorted(init)
    requires forall i :: 0 <= i < |init| ==> init[i] <= now
    requires !AfterFailure(r.entry, threshold, base, now).1
    ensures Consistent(threshold, base, init + [now], Run(Some(AfterFailure(r.entry, threshold, base, now).0), r.trips))
  {
    hide Cooldown, Counted, NextCool;
    CountedSnoc(r.trips, init, now);
    CountedStart(r, init);
    assert (init + [now])[|init + [now]| - 1] == now;
  }

  lemma TripsWhen(threshold: int, base: int, init: seq<int>, now: int, r: Run)
    requires Consistent(threshold, base, init, r) && Sorted(init)
    requires forall i :: 0 <= i < |init| ==> init[i] <= now
    ensures AfterFailure(r.entry, threshold, base, now).1
        <==> Open(r.trips, now) && Counted(r.trips, init + [now]) == Max1(threshold)
  {
    hide Cooldown, Counted, NextCool;
    CountedSnoc(r.trips, init, now);
    CountedStart(r, init);
  }

  /** The count of an entry whose cooldown is over, or of none, starts from what has been counted. */
  lemma CountedStart(r: Run, init: seq<int>)
    requires Sorted(init)
    requires r.entry.Some? ==> init != [] && r.entry.value.lastAt == init[|init| - 1]
    ensures init == [] ==> Counted(r.trips, init) == 0
    ensures r.entry.Some? && r.trips != [] && r.entry.value.lastAt <= Deadline(r.trips[|r.trips| - 1]) ==>
      Counted(r.trips, init) == 0
  {
    if r.entry.Some? && r.trips != [] && r.entry.value.lastAt <= Deadline(r.trips[|r.trips| - 1]) {
      CountedNone(r.trips, init);
    }
  }

  lemma TripConsistent(threshold: int, base: int, init: seq<int>, now: int, r: Run)
    requires base > 0 && Consistent(threshold, base, init, r) && Law(base, r.trips)
    requires forall i :: 0 <= i < |init| ==> init[i] <= now
    requires AfterFailure(r.entry, threshold, base, now).1
    ensures
      var s := AfterFailure(r.entry, threshold, base, now).0;
      var r' := Run(Some(s), r.trips + [Trip(now, s.cool)]);
      Consistent(threshold, base, init + [now], r') && Law(base, r'.trips)
  {
    hide Cooldown, Counted, NextCool, Pow2;
    var n := |r.trips|;
    var s := AfterFailure(r.entry, threshold, base, now).0;
    if n > 0 {
      DoubledCooldown(base, n - 1);
    }
    DoubledCooldown(base, n);
    assert s.cool == Cooldown(base, n);
  }

  /**
   In every timed run of failures of one address, without success or sweep: the j-th trip
   (from 0) has cooldown min(base * 2^j, cap) and comes strictly after the deadline of the
   trip before it.
   */
  lemma TripLaw(threshold: int, base: int, times: seq<int>)
    requires base > 0 && Sorted(times)
    ensures Law(base, AfterFailures(threshold, base, times).trips)
  {
    RunConsistent(threshold, base, times);
  }

  /** A failure trips the breaker if and only if it is the threshold-th one since the breaker was last open. */
  lemma TripsExactly(threshold: int, base: int, times: seq<int>, now: int)
    requires base > 0 && Sorted(times + [now])
    ensures
      var r := AfterFailures(threshold, base, times);
      AfterFailures(threshold, base, times + [now]).trips != r.trips
      <==> Open(r.trips, now) && Counted(r.trips, times + [now]) == Max1(threshold)
  {
    var all := times + [now];
    Last(all);
    assert all[..|all| - 1] == times;
    RunConsistent(threshold, base, times);
    StepConsistent(threshold, base, times, now, AfterFailures(threshold, base, times));
    var (s, tripped) := AfterFailure(AfterFailures(threshold, base, times).entry, threshold, base, now);
    if tripped {
      var r := AfterFailures(threshold, base, times);
      assert |r.trips + [Trip(now, s.cool)]| == |r.trips| + 1;
    }
  }

  lemma {:induction false} CooldownGrows(base: int, i: nat, j: nat)
    requires base > 0 && i <= j
    ensures Cooldown(base, i) <= Cooldown(base, j)
    decreases j
  {
    hide Cooldown, Pow2;
    if i < j {
      CooldownGrows(base, i, j - 1);
      DoubledCooldown(base, j - 1);
    }
  }

  lemma OneMore(n: int, c: int)
    ensures (n + 1) * c == n * c + c
  {
  }

  /** Trips in a window are bounded: k - i trips after trip i take more than k - i of its cooldowns. */
  lemma {:induction false} TripsApart(base: int, trips: seq<Trip>, i: nat, k: nat)
    requires base > 0 && Law(base, trips) && i < k < |trips|
    ensures trips[k].at - trips[i].at > (k - i) * Cooldown(base, i)
    decreases k
  {
    hide Cooldown;
    var c := Cooldown(base, i);
    CooldownGrows(base, i, k - 1);
    OneMore(k - 1 - i, c);
    var prev := trips[k - 1];
    assert trips[k].at > prev.at + prev.cool;
    if i < k - 1 {
      TripsApart(base, trips, i, k - 1);
    } else {
      assert (k - 1 - i) * c == 0;
    }
  }
}
