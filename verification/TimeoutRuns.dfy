/** What holds over every interleaving of readers, closers and the watcher of a response body. */
module TimeoutRuns {
  import opened Wrappers
  import opened TimeoutCloser

  /** What every reachable state satisfies. */
  predicate Sound(s: Sys) {
    var sh := s.shared;
    && sh.bodyCloses == (if sh.isClosed then 1 else 0)
    && sh.doneCloses == (if sh.isClosed && sh.err.None? then 1 else 0)
    && (sh.err.Some? ==> sh.err == Some(TimedOut) && sh.isClosed && s.watcher == Ended)
    && (forall c :: c in s.closed && s.closed[c] ==> sh.isClosed)
    && (s.watcher == Ended ==> sh.isClosed)
    && (sh.expired ==> sh.armed)
    && (s.watcher in {Ticked, Stopped, Draining} ==> !sh.armed)
    && (!sh.armed && sh.doneCloses == 0 ==> s.watcher in {Ticked, Stopped, Ended})
  }

  lemma NextSound(s: Sys, step: Step)
    requires Sound(s) && Next(s, step).Some?
    ensures Sound(Next(s, step).value)
    ensures s.shared.err.Some? ==> Next(s, step).value.shared.err == s.shared.err
  {
  }

  lemma {:induction false} StepsSound(s: Sys, steps: seq<Step>)
    requires Sound(s) && Steps(s, steps).Some?
    ensures Sound(Steps(s, steps).value)
    ensures s.shared.err.Some? ==> Steps(s, steps).value.shared.err == s.shared.err
    decreases |steps|
  {
    if steps != [] {
      NextSound(s, steps[0]);
      StepsSound(Next(s, steps[0]).value, steps[1..]);
    }
  }

  /**
   In every interleaving the body is closed at most once, and exactly once when some Close
   has returned or the watcher has gone through its timeout branch; the done channel is
   closed at most once, and never together with a timeout.
   */
  lemma ClosedOnce(readers: set<nat>, closers: set<nat>, steps: seq<Step>)
    requires Steps(Start(readers, closers), steps).Some?
    ensures
      var s := Steps(Start(readers, closers), steps).value;
      && s.shared.bodyCloses <= 1
      && s.shared.doneCloses <= 1
      && ((exists c :: c in s.closed && s.closed[c]) || s.shared.err.Some? || s.watcher == Ended ==> s.shared.bodyCloses == 1)
      && (s.shared.bodyCloses == 1 ==> s.shared.doneCloses == (if s.shared.err.Some? then 0 else 1))
  {
    StepsSound(Start(readers, closers), steps);
  }

  lemma {:induction false} StepsCat(s: Sys, a: seq<Step>, b: seq<Step>)
    ensures Steps(s, a + b) == if Steps(s, a).Some? then Steps(Steps(s, a).value, b) else None
    decreases |a|
  {
    if a == [] {
      assert a + b == b;
    } else {
      assert (a + b)[1..] == a[1..] + b;
      if Next(s, a[0]).Some? {
        StepsCat(Next(s, a[0]).value, a[1..], b);
      }
    }
  }

  /** A Read that takes the lock after the timeout was recorded, however much later, returns 0 and the timeout error. */
  lemma ReadAfterTimeout(readers: set<nat>, closers: set<nat>, before: seq<Step>, between: seq<Step>, r: nat)
    requires Steps(Start(readers, closers), before).Some?
    requires Steps(Start(readers, closers), before).value.shared.err.Some?
    requires Steps(Start(readers, closers), before + between + [FinishRead(r)]).Some?
    ensures ReaderAt(Steps(Start(readers, closers), before + between + [FinishRead(r)]).value, r, Returned(ReadResult(0, Some(TimedOut))))
  {
    var s0 := Start(readers, closers);
    StepsCat(s0, before + between, [FinishRead(r)]);
    StepsCat(s0, before, between);
    StepsSound(s0, before);
    var s := Steps(s0, before).value;
    StepsSound(s, between);
    var t := Steps(s, between).value;
    var last := [FinishRead(r)];
    assert last[1..] == [];
    assert Steps(t, last) == Next(t, FinishRead(r));
  }

  // ----- whether the watcher ends after Close

  /** The watcher waits, or is about to wait, for a tick of a timer that nobody will arm again. */
  predicate Stranded(s: Sys) {
    !s.shared.armed && (s.watcher == GotReset || s.watcher == Draining)
  }

  lemma {:induction false} StrandedForever(s: Sys, steps: seq<Step>)
    requires Stranded(s) && s.shared.isClosed && Steps(s, steps).Some?
    ensures Stranded(Steps(s, steps).value)
    decreases |steps|
  {
    if steps != [] {
      StrandedForever(Next(s, steps[0]).value, steps[1..]);
    }
  }

  ghost predicate CanEnd(s: Sys) {
    exists more :: Steps(s, more).Some? && Steps(s, more).value.watcher == Ended
  }

  /** The watcher's way out of a state after Close, when there is one. */
  function WayOut(s: Sys): seq<Step> {
    match s.watcher
    case Selecting => [SeeDone]
    case Ticked => [TimeoutSection]
    case GotReset => [TryStop, Rearm, SeeDone]
    case Stopped => [Rearm, SeeDone]
    case _ => []
  }

  lemma WayOutEnds(s: Sys)
    requires s.shared.doneCloses > 0 && !Stranded(s) && s.watcher != Draining
    ensures Steps(s, WayOut(s)).Some? && Steps(s, WayOut(s)).value.watcher == Ended
  {
    var afterStop := if s.watcher == GotReset then Next(s, TryStop).value else s;
    var afterReset := if s.watcher == GotReset || s.watcher == Stopped then Next(afterStop, Rearm).value else afterStop;
    OneStep(afterReset, SeeDone);
    OneStep(s, TimeoutSection);
    assert [Rearm, SeeDone][1..] == [SeeDone];
    assert Steps(afterStop, [Rearm, SeeDone]) == if s.watcher == Stopped || s.watcher == GotReset then Steps(afterReset, [SeeDone]) else None;
    assert [TryStop, Rearm, SeeDone][1..] == [Rearm, SeeDone];
  }

  lemma OneStep(s: Sys, step: Step)
    ensures Steps(s, [step]) == Next(s, step)
  {
    assert [step][1..] == [];
  }

  /** In a state reached after Close the watcher can still end exactly when it is not stranded. */
  lemma WatcherCanEnd(readers: set<nat>, closers: set<nat>, steps: seq<Step>)
    requires Steps(Start(readers, closers), steps).Some?
    requires Steps(Start(readers, closers), steps).value.shared.doneCloses > 0
    ensures var s := Steps(Start(readers, closers), steps).value; CanEnd(s) <==> !Stranded(s)
  {
    StepsSound(Start(readers, closers), steps);
    var s := Steps(Start(readers, closers), steps).value;
    if Stranded(s) {
      forall more | Steps(s, more).Some? ensures Steps(s, more).value.watcher != Ended {
        StrandedForever(s, more);
      }
    } else {
      WayOutEnds(s);
    }
  }

  /** Seen from the Close that shuts the body: it strands the watcher exactly when that has taken a reset and not yet stopped the timer. */
  lemma CloseStrands(readers: set<nat>, closers: set<nat>, steps: seq<Step>, c: nat)
    requires Steps(Start(readers, closers), steps).Some?
    requires
      var s := Steps(Start(readers, closers), steps).value;
      !s.shared.isClosed && Next(s, Close(c)).Some?
    ensures
      var s := Steps(Start(readers, closers), steps).value;
      CanEnd(Next(s, Close(c)).value) <==> s.watcher != GotReset
  {
    var s := Steps(Start(readers, closers), steps).value;
    StepsSound(Start(readers, closers), steps);
    var last := [Close(c)];
    assert last[1..] == [];
    StepsCat(Start(readers, closers), steps, last);
    WatcherCanEnd(readers, closers, steps + last);
  }

  /** And such a run exists: one Read and one Close are enough to leave the watcher waiting for ever. */
  lemma WatcherMayWaitForever()
    ensures
      var s := Steps(Start({0}, {0}), [Offer(0), TakeReset, Close(0), TryStop]);
      && s.Some? && s.value.watcher == Draining
      && forall more :: Steps(s.value, more).Some? ==> Steps(s.value, more).value.watcher != Ended
  {
    var s0 := Start({0}, {0});
    var steps := [Offer(0), TakeReset, Close(0), TryStop];
    var s1 := Next(s0, Offer(0)).value;
    var s2 := Next(s1, TakeReset).value;
    var s3 := Next(s2, Close(0)).value;
    var s4 := Next(s3, TryStop).value;
    assert steps[1..] == [TakeReset, Close(0), TryStop];
    assert steps[1..][1..] == [Close(0), TryStop];
    assert steps[1..][1..][1..] == [TryStop];
    assert steps[1..][1..][1..][1..] == [];
    assert Steps(s0, steps) == Some(s4);
    forall more | Steps(s4, more).Some? ensures Steps(s4, more).value.watcher != Ended {
      StrandedForever(s4, more);
    }
  }

  // ----- two whole runs

  lemma Prefixed(s: Sys, step: Step, t: Sys, rest: seq<Step>)
    requires Next(s, step) == Some(t)
    ensures Steps(s, [step] + rest) == Steps(t, rest)
  {
    hide Next;
    assert ([step] + rest)[1..] == rest;
  }

  lemma Four(s: Sys, a: Step, b: Step, c: Step, d: Step, s1: Sys, s2: Sys, s3: Sys, s4: Sys, rest: seq<Step>)
    requires Next(s, a) == Some(s1) && Next(s1, b) == Some(s2) && Next(s2, c) == Some(s3) && Next(s3, d) == Some(s4)
    ensures Steps(s, [a, b, c, d] + rest) == Steps(s4, rest)
  {
    hide Next, Steps;
    Prefixed(s, a, s1, [b, c, d] + rest);
    Prefixed(s1, b, s2, [c, d] + rest);
    Prefixed(s2, c, s3, [d] + rest);
    Prefixed(s3, d, s4, rest);
    assert [a] + ([b, c, d] + rest) == [a, b, c, d] + rest;
    assert [b] + ([c, d] + rest) == [b, c, d] + rest && [c] + ([d] + rest) == [c, d] + rest;
  }

  const OPEN := Shared(false, None, 0, 0, true, false, false)

  function At(shared: Shared, watcher: Watcher, reader: Reader, closed: bool): Sys {
    Sys(shared, watcher, map[0 := reader], map[0 := closed])
  }

  lemma Started()
    ensures Start({0}, {0}) == At(OPEN, Selecting, Fresh, false)
  {
  }

  /** A Read that has begun hands the watcher a reset, and the timer starts again. */
  lemma ResetTaken(rest: seq<Step>)
    ensures Steps(At(OPEN, Selecting, Fresh, false), [Offer(0), TakeReset, TryStop, Rearm] + rest)
         == Steps(At(OPEN, Selecting, Offered, false), rest)
  {
    hide Steps;
    Maps(ReadResult(0, None));
    Four(At(OPEN, Selecting, Fresh, false), Offer(0), TakeReset, TryStop, Rearm,
      At(OPEN.(resetPending := true), Selecting, Offered, false), At(OPEN, GotReset, Offered, false),
      At(OPEN.(armed := false), Stopped, Offered, false), At(OPEN, Selecting, Offered, false), rest);
  }

  lemma ReadAndClose(got: ReadResult)
    ensures Steps(At(OPEN, Selecting, Offered, false), [ReadBody(0, got), FinishRead(0), Close(0), SeeDone])
         == Some(At(Shared(true, None, 1, 1, false, false, false), Ended, Returned(got), true))
  {
    hide Steps;
    Maps(got);
    var shut := Shared(true, None, 1, 1, false, false, false);
    var done := At(shut, Ended, Returned(got), true);
    var steps := [ReadBody(0, got), FinishRead(0), Close(0), SeeDone];
    Four(At(OPEN, Selecting, Offered, false), ReadBody(0, got), FinishRead(0), Close(0), SeeDone,
      At(OPEN, Selecting, HasRead(got), false), At(OPEN, Selecting, Returned(got), false),
      At(shut, Selecting, Returned(got), true), done, []);
    assert steps + [] == steps;
    NoSteps(done);
  }

  /** One Read in time, then Close: the Read returns what the body gave, and the watcher ends. */
  lemma ReadInTime(got: ReadResult)
    ensures
      var s := Steps(Start({0}, {0}), [Offer(0), TakeReset, TryStop, Rearm, ReadBody(0, got), FinishRead(0), Close(0), SeeDone]);
      s == Some(Sys(Shared(true, None, 1, 1, false, false, false), Ended, map[0 := Returned(got)], map[0 := true]))
  {
    hide Steps;
    Started();
    var last := [ReadBody(0, got), FinishRead(0), Close(0), SeeDone];
    ResetTaken(last);
    ReadAndClose(got);
    assert [Offer(0), TakeReset, TryStop, Rearm] + last
        == [Offer(0), TakeReset, TryStop, Rearm, ReadBody(0, got), FinishRead(0), Close(0), SeeDone];
  }

  lemma Maps(got: ReadResult)
    ensures map[0 as nat := Fresh][0 := Offered] == map[0 := Offered]
    ensures map[0 as nat := Offered][0 := HasRead(got)] == map[0 := HasRead(got)]
    ensures forall result :: map[0 as nat := HasRead(got)][0 := Returned(result)] == map[0 := Returned(result)]
    ensures map[0 as nat := false][0 := true] == map[0 := true]
  {
  }

  lemma NoSteps(s: Sys)
    ensures Steps(s, []) == Some(s)
  {
  }

  lemma Expires(got: ReadResult, rest: seq<Step>)
    ensures Steps(At(OPEN, Selecting, Fresh, false), [Offer(0), Expire, TakeTick, ReadBody(0, got)] + rest)
         == Steps(At(Shared(false, None, 0, 0, false, false, true), Ticked, HasRead(got), false), rest)
  {
    hide Steps;
    Maps(got);
    var offered := OPEN.(resetPending := true);
    Four(At(OPEN, Selecting, Fresh, false), Offer(0), Expire, TakeTick, ReadBody(0, got),
      At(offered, Selecting, Offered, false), At(offered.(expired := true), Selecting, Offered, false),
      At(offered.(armed := false), Ticked, Offered, false), At(offered.(armed := false), Ticked, HasRead(got), false), rest);
  }

  lemma TimesOut(got: ReadResult)
    ensures Steps(At(Shared(false, None, 0, 0, false, false, true), Ticked, HasRead(got), false), [TimeoutSection, FinishRead(0), Close(0)])
         == Some(At(Shared(true, Some(TimedOut), 1, 0, false, false, true), Ended, Returned(ReadResult(0, Some(TimedOut))), true))
  {
    hide Steps;
    Maps(got);
    var late := Shared(true, Some(TimedOut), 1, 0, false, false, true);
    var timedOut := Returned(ReadResult(0, Some(TimedOut)));
    Prefixed(At(Shared(false, None, 0, 0, false, false, true), Ticked, HasRead(got), false), TimeoutSection,
      At(late, Ended, HasRead(got), false), [FinishRead(0), Close(0)]);
    Prefixed(At(late, Ended, HasRead(got), false), FinishRead(0), At(late, Ended, timedOut, false), [Close(0)]);
    Prefixed(At(late, Ended, timedOut, false), Close(0), At(late, Ended, timedOut, true), []);
    NoSteps(At(late, Ended, timedOut, true));
    assert [TimeoutSection] + [FinishRead(0), Close(0)] == [TimeoutSection, FinishRead(0), Close(0)];
    assert [FinishRead(0)] + [Close(0)] == [FinishRead(0), Close(0)] && [Close(0)] + [] == [Close(0)];
  }

  /** The timer runs out during a Read: the Read returns the timeout, the watcher ends, and a later Close changes nothing more. */
  lemma ReadTooLate(got: ReadResult)
    ensures
      var s := Steps(Start({0}, {0}), [Offer(0), Expire, TakeTick, ReadBody(0, got), TimeoutSection, FinishRead(0), Close(0)]);
      s == Some(Sys(Shared(true, Some(TimedOut), 1, 0, false, false, true), Ended,
                    map[0 := Returned(ReadResult(0, Some(TimedOut)))], map[0 := true]))
  {
    hide Steps;
    Started();
    var last := [TimeoutSection, FinishRead(0), Close(0)];
    Expires(got, last);
    TimesOut(got);
    assert [Offer(0), Expire, TakeTick, ReadBody(0, got)] + last
        == [Offer(0), Expire, TakeTick, ReadBody(0, got), TimeoutSection, FinishRead(0), Close(0)];
  }
}
