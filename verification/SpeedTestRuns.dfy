/** What holds over every interleaving of testers, collecting loop and drainer. */
module SpeedTestRuns {
  import opened Wrappers
  import opened ProxySelection
  import opened SpeedTests

  /** Every result is in exactly one place, and loop and drainer together expect as many as are missing. */
  ghost predicate Accounted(u: Setup, s: Sys) {
    && multiset(s.unsent) + multiset(s.queue) + multiset(s.received) == multiset(Testers(u))
    && |s.unsent| + |s.queue| + |s.received| == u.tested
    && s.consumed <= u.tested
    && (s.waiting ==> s.drainer.None? && |s.received| == s.consumed)
    && (!s.waiting ==> |s.received| + Pending(s) == u.tested)
  }

  predicate Finished(s: Sys) {
    s.unsent == {} && s.queue == [] && !s.waiting && Pending(s) == 0
  }

  lemma NextAccounted(u: Setup, s: Sys, step: Step)
    requires Accounted(u, s) && Next(u, s, step).Some?
    ensures Accounted(u, Next(u, s, step).value)
  {
    hide Testers, Leave;
    match step {
      case Send(id) => SendAccounted(u, s, id);
      case Receive(leaves) =>
        var s1 := s.(queue := s.queue[1..], received := s.received + [s.queue[0]], consumed := s.consumed + 1);
        TakeAccounted(u, s);
        assert Accounted(u, s1);
        if leaves {
          LeaveAccounted(u, s1);
        }
      case Drain => TakeAccounted(u, s);
      case _ => LeaveAccounted(u, s);
    }
  }

  lemma SendAccounted(u: Setup, s: Sys, id: nat)
    requires Accounted(u, s) && id in s.unsent
    ensures Accounted(u, s.(unsent := s.unsent - {id}, queue := s.queue + [id]))
  {
  }

  lemma LeaveAccounted(u: Setup, s: Sys)
    requires Accounted(u, s) && s.waiting
    ensures Accounted(u, Leave(u, s))
  {
  }

  /** Taking the head of the channel moves one result from the queue to the received ones. */
  lemma TakeAccounted(u: Setup, s: Sys)
    requires Accounted(u, s) && s.queue != []
    ensures multiset(s.unsent) + multiset(s.queue[1..]) + multiset(s.received + [s.queue[0]]) == multiset(Testers(u))
    ensures |s.queue[1..]| + |s.received + [s.queue[0]]| == |s.queue| + |s.received|
  {
    hide Testers;
    assert s.queue == [s.queue[0]] + s.queue[1..];
    assert multiset(s.queue) == multiset{s.queue[0]} + multiset(s.queue[1..]);
    assert multiset(s.received + [s.queue[0]]) == multiset(s.received) + multiset{s.queue[0]};
  }

  /** What remains to be done: each step does some of it. */
  function Work(s: Sys): nat {
    2 * |s.unsent| + |s.queue| + (if s.waiting then 1 else 0)
  }

  lemma NextWorks(u: Setup, s: Sys, step: Step)
    requires Next(u, s, step).Some?
    ensures Work(Next(u, s, step).value) < Work(s)
  {
  }

  function Steps(u: Setup, s: Sys, steps: seq<Step>): Option<Sys>
    decreases |steps|
  {
    if steps == [] then Some(s)
    else
      var t :- Next(u, s, steps[0]);
      Steps(u, t, steps[1..])
  }

  lemma {:induction false} StepsAccounted(u: Setup, s: Sys, steps: seq<Step>)
    requires Accounted(u, s) && Steps(u, s, steps).Some?
    ensures Accounted(u, Steps(u, s, steps).value)
    ensures Work(Steps(u, s, steps).value) + |steps| <= Work(s)
    decreases |steps|
  {
    if steps != [] {
      NextAccounted(u, s, steps[0]);
      NextWorks(u, s, steps[0]);
      StepsAccounted(u, Next(u, s, steps[0]).value, steps[1..]);
    }
  }

  /** In every reachable state a tester that has not sent can send at once: no sender blocks. */
  lemma NoSenderBlocks(u: Setup, steps: seq<Step>, id: nat)
    requires u.tested <= u.capacity && Steps(u, Start(u), steps).Some? && id in Steps(u, Start(u), steps).value.unsent
    ensures Next(u, Steps(u, Start(u), steps).value, Send(id)).Some?
  {
    StepsAccounted(u, Start(u), steps);
    var s := Steps(u, Start(u), steps).value;
    assert |s.unsent| >= 1 by {
      assert s.unsent != {};
    }
  }

  /** In every reachable state that is not finished some step is possible. */
  lemma NeverStuck(u: Setup, steps: seq<Step>)
    requires u.tested <= u.capacity && Steps(u, Start(u), steps).Some? && !Finished(Steps(u, Start(u), steps).value)
    ensures exists step :: Next(u, Steps(u, Start(u), steps).value, step).Some?
  {
    StepsAccounted(u, Start(u), steps);
    var s := Steps(u, Start(u), steps).value;
    if s.unsent != {} {
      SomeTester(s.unsent);
      var id :| id in s.unsent;
      NoSenderBlocks(u, steps, id);
    } else if s.waiting {
      if s.consumed < u.tested {
        assert Next(u, s, GiveUp).Some?;
      } else {
        assert Next(u, s, Exhausted).Some?;
      }
    } else {
      assert |s.queue| == Pending(s);
      assert Next(u, s, Drain).Some?;
    }
  }

  lemma SomeTester(ids: set<nat>)
    requires ids != {}
    ensures exists id :: id in ids
  {
  }

  /**
   However results, early returns, cancellation and timeout interleave: a run has at most
   2 * tested + 1 steps, and when no step is left every launched test's result has been
   received exactly once, by the loop or by the drainer, and the drainer has ended.
   */
  lemma EveryResultReceivedOnce(u: Setup, steps: seq<Step>)
    requires u.tested <= u.capacity && Steps(u, Start(u), steps).Some?
    ensures |steps| <= 2 * u.tested + 1
    ensures
      var s := Steps(u, Start(u), steps).value;
      (forall step :: Next(u, s, step).None?) ==>
        Finished(s) && multiset(s.received) == multiset(Testers(u)) && |s.received| == u.tested
  {
    StepsAccounted(u, Start(u), steps);
    var s := Steps(u, Start(u), steps).value;
    if !Finished(s) {
      NeverStuck(u, steps);
    } else {
      assert multiset(s.unsent) == multiset{} && multiset(s.queue) == multiset{};
    }
  }

  // ----- what the drainer leaves in the health records

  predicate Failing(r: TestResult) {
    !r.err.Canceled? && (!r.err.NoError? || r.responseTime <= 0)
  }

  /** Results of other proxies do not touch a record. */
  lemma {:induction false} DrainKeepsOthers(stats: map<string, ProxyStats>, results: seq<TestResult>, name: string, now: int,
                                            interval: int)
    requires forall i :: 0 <= i < |results| ==> results[i].proxy != name
    ensures StatsOf(DrainAll(stats, results, now, interval), name) == StatsOf(stats, name)
    ensures name in DrainAll(stats, results, now, interval) <==> name in stats
    decreases |results|
  {
    if results != [] {
      var r := results[0];
      DrainKeepsOthers(stats[r.proxy := Drained(StatsOf(stats, r.proxy), r, now, interval)], results[1..], name, now, interval);
    }
  }

  /** Consecutive failures add up, and the third and the fifteenth lengthen the cooldown. */
  lemma {:induction false} FailuresAddUp(stats: map<string, ProxyStats>, results: seq<TestResult>, name: string, now: int,
                                         interval: int)
    requires results != []
    requires forall i :: 0 <= i < |results| ==> results[i].proxy == name && Failing(results[i])
    ensures
      var s := StatsOf(DrainAll(stats, results, now, interval), name);
      && !s.alive && s.failCount == StatsOf(stats, name).failCount + |results|
      && s.cooldownUntil == now + (if s.failCount >= 15 then 7_200_000_000_000 else if s.failCount >= 3 then interval else 0)
    decreases |results|
  {
    var r := results[0];
    var stats1 := stats[name := Drained(StatsOf(stats, name), r, now, interval)];
    if |results| > 1 {
      FailuresAddUp(stats1, results[1..], name, now, interval);
    } else {
      assert DrainAll(stats1, results[1..], now, interval) == stats1;
    }
  }

  lemma {:induction false} DrainCat(stats: map<string, ProxyStats>, a: seq<TestResult>, b: seq<TestResult>, now: int, interval: int)
    ensures DrainAll(stats, a + b, now, interval) == DrainAll(DrainAll(stats, a, now, interval), b, now, interval)
    decreases |a|
  {
    if a == [] {
      assert a + b == b;
    } else {
      assert (a + b)[1..] == a[1..] + b;
      DrainCat(stats[a[0].proxy := Drained(StatsOf(stats, a[0].proxy), a[0], now, interval)], a[1..], b, now, interval);
    }
  }

  /** The latest result of a proxy decides its record: nothing new when it was canceled, everything new when it succeeded, one more failure otherwise. */
  lemma LatestResult(stats: map<string, ProxyStats>, results: seq<TestResult>, r: TestResult, now: int, interval: int)
    ensures
      var before := DrainAll(stats, results, now, interval);
      var s := if r.proxy in before then before[r.proxy] else ProxyStats(false, 0, 0, 0, 0, 0);
      var after := DrainAll(stats, results + [r], now, interval);
      && r.proxy in after
      && var t := after[r.proxy];
      && (r.err.Canceled? ==> t == s)
      && (r.err.NoError? && r.responseTime > 0 ==>
            t.alive && t.responseTime == r.responseTime && t.statusCode == r.statusCode
            && t.failCount == 0 && t.cooldownUntil == 0 && t.lastCheck == now)
      && (r.err.OtherError? || (r.err.NoError? && r.responseTime <= 0) ==>
            !t.alive && t.responseTime == s.responseTime && t.statusCode == s.statusCode
            && t.failCount == s.failCount + 1 && t.lastCheck == now
            && t.cooldownUntil - now == if t.failCount < 3 then 0 else if t.failCount < 15 then interval else 7_200_000_000_000)
  {
    hide Drained;
    DrainCat(stats, results, [r], now, interval);
    var before := DrainAll(stats, results, now, interval);
    assert [r][1..] == [];
    assert DrainAll(before, [r], now, interval) == before[r.proxy := Drained(StatsOf(before, r.proxy), r, now, interval)];
    OneResult(StatsOf(before, r.proxy), r, now, interval);
  }

  lemma OneResult(s: ProxyStats, r: TestResult, now: int, interval: int)
    ensures
      var t := Drained(s, r, now, interval);
      && (r.err.Canceled? ==> t == s)
      && (r.err.NoError? && r.responseTime > 0 ==>
            t.alive && t.responseTime == r.responseTime && t.statusCode == r.statusCode
            && t.failCount == 0 && t.cooldownUntil == 0 && t.lastCheck == now)
      && (r.err.OtherError? || (r.err.NoError? && r.responseTime <= 0) ==>
            !t.alive && t.responseTime == s.responseTime && t.statusCode == s.statusCode
            && t.failCount == s.failCount + 1 && t.lastCheck == now
            && t.cooldownUntil - now == if t.failCount < 3 then 0 else if t.failCount < 15 then interval else 7_200_000_000_000)
  {
  }

  // ----- three runs of two tests

  /** The loop takes the first result and leaves; the drainer takes the second, sent later. */
  lemma EarlyReturn(u: Setup)
    requires u.tested == 2 && u.capacity >= 2
    ensures Steps(u, Start(u), [Send(1), Receive(true), Send(0), Drain]) == Some(Sys({}, [], [1, 0], 1, false, Some(0)))
  {
    TwoTesters(u);
    var s := Start(u);
    var s1 := s.(unsent := {0}, queue := [1]);
    var s2 := Sys({0}, [], [1], 1, false, Some(1));
    var s3 := s2.(unsent := {}, queue := [0]);
    Takes();
    assert Next(u, s, Send(1)) == Some(s1);
    assert Next(u, s1, Receive(true)) == Some(s2);
    assert Next(u, s2, Send(0)) == Some(s3);
    assert [1] + [0] == [1, 0];
    Four(u, s, Send(1), Receive(true), Send(0), Drain, s1, s2, s3);
  }

  /** The loop takes both results, and without a drainer for nothing that is all. */
  lemma AllReceived(u: Setup)
    requires u.tested == 2 && u.capacity >= 2
    ensures Steps(u, Start(u), [Send(0), Receive(false), Send(1), Receive(false)]) == Some(Sys({}, [], [0, 1], 2, true, None))
    ensures Next(u, Sys({}, [], [0, 1], 2, true, None), Exhausted)
         == Some(Sys({}, [], [0, 1], 2, false, if u.drainNothing then Some(0) else None))
  {
    TwoTesters(u);
    var s := Start(u);
    var s1 := s.(unsent := {1}, queue := [0]);
    var s2 := s1.(queue := [], received := [0], consumed := 1);
    var s3 := s2.(unsent := {}, queue := [1]);
    Takes();
    assert Next(u, s, Send(0)) == Some(s1);
    assert Next(u, s1, Receive(false)) == Some(s2);
    assert Next(u, s2, Send(1)) == Some(s3);
    assert [0] + [1] == [0, 1];
    Four(u, s, Send(0), Receive(false), Send(1), Receive(false), s1, s2, s3);
  }

  /** The loop gives up before any result; both go to the drainer. */
  lemma GivenUp(u: Setup)
    requires u.tested == 2 && u.capacity >= 2
    ensures Steps(u, Start(u), [GiveUp, Send(0), Drain, Send(1)]) == Some(Sys({}, [1], [0], 0, false, Some(1)))
    ensures Next(u, Sys({}, [1], [0], 0, false, Some(1)), Drain) == Some(Sys({}, [], [0, 1], 0, false, Some(0)))
  {
    TwoTesters(u);
    var s := Start(u);
    var s1 := s.(waiting := false, drainer := Some(2));
    var s2 := s1.(unsent := {1}, queue := [0]);
    var s3 := s2.(queue := [], received := [0], drainer := Some(1));
    Takes();
    assert Next(u, s, GiveUp) == Some(s1);
    assert Next(u, s1, Send(0)) == Some(s2);
    assert Next(u, s2, Drain) == Some(s3);
    assert [0] + [1] == [0, 1];
    Four(u, s, GiveUp, Send(0), Drain, Send(1), s1, s2, s3);
  }

  lemma Takes()
    ensures {0, 1} - {1} == {0} && {0, 1} - {0} == {1} && {0} - {0} == {} && {1} - {1} == {}
    ensures forall i: nat :: [i][1..] == [] && [] + [i] == [i]
  {
  }

  lemma TwoTesters(u: Setup)
    requires u.tested == 2
    ensures Testers(u) == {0, 1}
  {
  }

  lemma Four(u: Setup, s: Sys, a: Step, b: Step, c: Step, d: Step, s1: Sys, s2: Sys, s3: Sys)
    requires Next(u, s, a) == Some(s1) && Next(u, s1, b) == Some(s2) && Next(u, s2, c) == Some(s3)
    ensures Steps(u, s, [a, b, c, d]) == Next(u, s3, d)
  {
    hide Next;
    assert [a, b, c, d][1..] == [b, c, d] && [b, c, d][1..] == [c, d] && [c, d][1..] == [d] && [d][1..] == [];
    assert Steps(u, s3, [d]) == Next(u, s3, d);
    assert Steps(u, s2, [c, d]) == Steps(u, s3, [d]);
    assert Steps(u, s1, [b, c, d]) == Steps(u, s2, [c, d]);
  }
}
