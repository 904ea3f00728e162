/**
 Concurrent speed tests: every tester sends one result into a buffered channel, a collecting
 loop receives results until it returns early or gives up, and a drainer takes the rest. One
 step is one channel operation or one decision of the loop; all interleavings are allowed.
 */
module SpeedTests {
  import opened Wrappers
  import opened ProxySelection

  // ----- what a received result does to the health records

  datatype Failure = NoError | Canceled | OtherError

  datatype TestResult = TestResult(proxy: string, responseTime: int, err: Failure, statusCode: int)

  const SECOND := 1_000_000_000
  const LONG_COOLDOWN := 7200 * SECOND
  const NO_TIME := 0
  const NEW_STATS := ProxyStats(false, 0, 0, 0, NO_TIME, NO_TIME)

  function StatsOf(stats: map<string, ProxyStats>, name: string): ProxyStats {
    if name in stats then stats[name] else NEW_STATS
  }

  /** The drainer's update of one record. */
  function Drained(s: ProxyStats, res: TestResult, now: int, interval: int): ProxyStats {
    if res.err.Canceled? then s
    else if res.err.NoError? && res.responseTime > 0 then
      ProxyStats(true, res.responseTime, res.statusCode, 0, NO_TIME, now)
    else
      var fails := s.failCount + 1;
      var cooldown := if fails >= 15 then LONG_COOLDOWN else if fails >= 3 then interval else 0;
      s.(alive := false, failCount := fails, cooldownUntil := now + cooldown, lastCheck := now)
  }

  function DrainAll(stats: map<string, ProxyStats>, results: seq<TestResult>, now: int, interval: int): map<string, ProxyStats>
    decreases |results|
  {
    if results == [] then stats
    else
      var r := results[0];
      DrainAll(stats[r.proxy := Drained(StatsOf(stats, r.proxy), r, now, interval)], results[1..], now, interval)
  }

  /** ConsumeRemainingResults: takes exactly `count` results from the channel, in order. */
  method ConsumeRemainingResults(ch: seq<TestResult>, count: nat, group: ProxyGroup, now: int, groupInterval: int)
    requires count <= |ch|
    modifies group`stats
    ensures group.stats == DrainAll(old(group.stats), ch[..count], now, if groupInterval == 0 then 60_000_000_000 else groupInterval)
  {
    var interval := groupInterval;
    if interval == 0 {
      interval := 60 * SECOND;
    }
    var i := 0;
    while i < count
      invariant 0 <= i <= count
      invariant DrainAll(group.stats, ch[i..count], now, interval) == DrainAll(old(group.stats), ch[..count], now, interval)
    {
      assert ch[i..count][1..] == ch[i + 1..count];
      var res := ch[i];
      var stats := if res.proxy in group.stats then group.stats[res.proxy] else NEW_STATS;
      if res.err.Canceled? {
        group.stats := group.stats[res.proxy := stats];
        i := i + 1;
        continue;
      }
      stats := stats.(lastCheck := now);
      if res.err.NoError? && res.responseTime > 0 {
        stats := stats.(alive := true, responseTime := res.responseTime, statusCode := res.statusCode,
                        failCount := 0, cooldownUntil := NO_TIME);
      } else {
        stats := stats.(alive := false, failCount := stats.failCount + 1);
        var cooldown := 0;
        if stats.failCount >= 15 {
          cooldown := LONG_COOLDOWN;
        } else if stats.failCount >= 3 {
          cooldown := interval;
        }
        stats := stats.(cooldownUntil := now + cooldown);
      }
      group.stats := group.stats[res.proxy := stats];
      i := i + 1;
    }
  }

  // ----- the channel protocol

  /** Testers are numbered; the channel has room for one result of every proxy of the group. */
  datatype Setup = Setup(tested: nat, capacity: nat, drainNothing: bool)

  datatype Sys = Sys(
    unsent: set<nat>, queue: seq<nat>, received: seq<nat>, consumed: nat, waiting: bool, drainer: Option<nat>)

  /** Tester sends; the loop receives and may return; the loop's context ends; the loop ends; the drainer receives. */
  datatype Step = Send(id: nat) | Receive(leaves: bool) | GiveUp | Exhausted | Drain

  function UpTo(n: nat): (ids: set<nat>)
    ensures |ids| == n && forall i: int :: i in ids <==> 0 <= i < n
  {
    if n == 0 then
      var none: set<nat> := {};
      none
    else
      UpTo(n - 1) + {n - 1}
  }

  function Testers(u: Setup): set<nat> {
    UpTo(u.tested)
  }

  function Start(u: Setup): Sys {
    Sys(Testers(u), [], [], 0, true, None)
  }

  /** The loop stops waiting and leaves the results it did not consume to a drainer. */
  function Leave(u: Setup, s: Sys): Sys
    requires s.consumed <= u.tested
  {
    var remaining := u.tested - s.consumed;
    s.(waiting := false, drainer := if remaining > 0 || u.drainNothing then Some(remaining) else None)
  }

  /** The state after a step; None when the step is blocked or not due. */
  function Next(u: Setup, s: Sys, step: Step): Option<Sys> {
    match step
    case Send(id) =>
      if id in s.unsent && |s.queue| < u.capacity then Some(s.(unsent := s.unsent - {id}, queue := s.queue + [id])) else None
    case Receive(leaves) =>
      if s.waiting && s.consumed < u.tested && s.queue != [] then
        var s1 := s.(queue := s.queue[1..], received := s.received + [s.queue[0]], consumed := s.consumed + 1);
        Some(if leaves then Leave(u, s1) else s1)
      else None
    case GiveUp => if s.waiting && s.consumed < u.tested then Some(Leave(u, s)) else None
    case Exhausted => if s.waiting && s.consumed == u.tested then Some(Leave(u, s)) else None
    case Drain =>
      if s.drainer.Some? && s.drainer.value > 0 && s.queue != [] then
        Some(s.(queue := s.queue[1..], received := s.received + [s.queue[0]], drainer := Some(s.drainer.value - 1)))
      else None
  }

  function Pending(s: Sys): nat {
    if s.drainer.Some? then s.drainer.value else 0
  }
}
