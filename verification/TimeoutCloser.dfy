/**
 A response body with a read timeout: readers, closers and one watcher goroutine share it.
 Each section under the mutex is one atomic step, and so is each channel operation and each
 of the watcher's calls of Stop and Reset, which it makes outside the mutex. The timer is that of Go 1.23 and later: Stop withdraws a tick that nobody has received yet and
 reports true; it reports false only when the timer was stopped before or its tick taken.
 */
module TimeoutCloser {
  import opened Wrappers

  datatype Error = TimedOut | BodyError(code: int)

  /** What one Read call gives back. */
  datatype ReadResult = ReadResult(n: int, err: Option<Error>)

  datatype Shared = Shared(
    isClosed: bool,
    err: Option<Error>,
    bodyCloses: nat,
    doneCloses: nat,
    armed: bool,
    expired: bool,
    resetPending: bool)

  const FRESH := Shared(false, None, 0, 0, true, false, false)

  // ----- the sections under the lock, as functions of the shared state

  /** The timeout branch of the watcher. */
  function AfterTimeout(s: Shared): Shared {
    if s.isClosed then s else s.(isClosed := true, err := Some(TimedOut), bodyCloses := s.bodyCloses + 1)
  }

  function AfterClose(s: Shared): Shared {
    if s.isClosed then s
    else s.(isClosed := true, doneCloses := s.doneCloses + 1, armed := false, expired := false, bodyCloses := s.bodyCloses + 1)
  }

  /** The last section of Read: a recorded error replaces whatever the body returned. */
  function Outcome(s: Shared, got: ReadResult): ReadResult {
    if s.err.Some? then ReadResult(0, s.err) else got
  }

  class TimeoutReadCloser {
    var isClosed: bool
    var err: Option<Error>
    var bodyCloses: nat
    var doneCloses: nat
    var armed: bool
    var expired: bool
    var resetPending: bool

    ghost function State(): Shared
      reads this
    {
      Shared(isClosed, err, bodyCloses, doneCloses, armed, expired, resetPending)
    }

    constructor ()
      ensures State() == FRESH
      ensures !isClosed && err.None? && bodyCloses == 0 == doneCloses && armed && !expired && !resetPending
    {
      isClosed, err, bodyCloses, doneCloses, armed, expired, resetPending := false, None, 0, 0, true, false, false;
    }

    method StopTimer() returns (stopped: bool)
      modifies this`armed, this`expired
      ensures stopped == old(armed) && !armed && !expired
    {
      stopped := armed;
      armed, expired := false, false;
    }

    /** A receive from the timer that does not wait. */
    method DrainTimer()
      modifies this`expired
      ensures !expired
    {
      expired := false;
    }

    /** timeoutWatcher after a tick. */
    method Timeout()
      modifies this
      ensures State() == AfterTimeout(old(State()))
    {
      if !isClosed {
        isClosed := true;
        err := Some(TimedOut);
        bodyCloses := bodyCloses + 1;
      }
    }

    /** Close; closing the done channel twice would panic. */
    method Close(bodyErr: Option<Error>) returns (r: Option<Error>)
      modifies this
      ensures State() == AfterClose(old(State()))
      ensures r == if old(isClosed) then None else bodyErr
    {
      if isClosed {
        return None;
      }
      isClosed := true;
      doneCloses := doneCloses + 1;
      var stopped := StopTimer();
      if !stopped {
        DrainTimer();
      }
      bodyCloses := bodyCloses + 1;
      return bodyErr;
    }

    /** Read before the body is read: a send that does not wait. */
    method OfferReset()
      modifies this`resetPending
      ensures resetPending
    {
      if !resetPending {
        resetPending := true;
      }
    }

    method FinishRead(n: int, bodyErr: Option<Error>) returns (count: int, e: Option<Error>)
      ensures ReadResult(count, e) == Outcome(State(), ReadResult(n, bodyErr))
      ensures err.None? ==> count == n && e == bodyErr
      ensures err.Some? ==> count == 0 && e == err
    {
      if err.Some? {
        return 0, err;
      }
      return n, bodyErr;
    }
  }

  // ----- all goroutines together

  /** Where the watcher is: Stopped is the point between a successful Stop, or a drained tick, and Reset. */
  datatype Watcher = Selecting | Ticked | GotReset | Draining | Stopped | Ended

  datatype Reader = Fresh | Offered | HasRead(got: ReadResult) | Returned(result: ReadResult)

  datatype Sys = Sys(shared: Shared, watcher: Watcher, readers: map<nat, Reader>, closed: map<nat, bool>)

  datatype Step =
    | Expire
    | TakeTick
    | TimeoutSection
    | TakeReset
    | TryStop
    | DrainTick
    | Rearm
    | SeeDone
    | Offer(reader: nat)
    | ReadBody(reader: nat, got: ReadResult)
    | FinishRead(reader: nat)
    | Close(closer: nat)

  /** Any number of Read and Close calls, none of them begun. */
  function Start(readers: set<nat>, closers: set<nat>): Sys {
    Sys(FRESH, Selecting, map r | r in readers :: Fresh, map c | c in closers :: false)
  }

  predicate ReaderAt(s: Sys, r: nat, at: Reader) {
    r in s.readers && s.readers[r] == at
  }

  function Next(s: Sys, step: Step): Option<Sys> {
    var sh := s.shared;
    match step
    case Expire =>
      if sh.armed && !sh.expired then Some(s.(shared := sh.(expired := true))) else None
    case TakeTick =>
      if s.watcher == Selecting && sh.armed && sh.expired then
        Some(s.(watcher := Ticked, shared := sh.(armed := false, expired := false)))
      else None
    case TimeoutSection =>
      if s.watcher == Ticked then Some(s.(watcher := Ended, shared := AfterTimeout(sh))) else None
    case TakeReset =>
      if s.watcher == Selecting && sh.resetPending then
        Some(s.(watcher := GotReset, shared := sh.(resetPending := false)))
      else None
    case TryStop =>
      if s.watcher != GotReset then None
      else if sh.armed then Some(s.(watcher := Stopped, shared := sh.(armed := false, expired := false)))
      else Some(s.(watcher := Draining))
    case DrainTick =>
      if s.watcher == Draining && sh.armed && sh.expired then
        Some(s.(watcher := Stopped, shared := sh.(armed := false, expired := false)))
      else None
    case Rearm =>
      if s.watcher == Stopped then Some(s.(watcher := Selecting, shared := sh.(armed := true, expired := false))) else None
    case SeeDone =>
      if s.watcher == Selecting && sh.doneCloses > 0 then Some(s.(watcher := Ended)) else None
    case Offer(r) =>
      if ReaderAt(s, r, Fresh) then
        Some(s.(readers := s.readers[r := Offered], shared := sh.(resetPending := true)))
      else None
    case ReadBody(r, got) =>
      if ReaderAt(s, r, Offered) then Some(s.(readers := s.readers[r := HasRead(got)])) else None
    case FinishRead(r) =>
      if r in s.readers && s.readers[r].HasRead? then
        Some(s.(readers := s.readers[r := Returned(Outcome(sh, s.readers[r].got))]))
      else None
    case Close(c) =>
      if c in s.closed && !s.closed[c] then
        Some(s.(closed := s.closed[c := true], shared := AfterClose(sh)))
      else None
  }

  function Steps(s: Sys, steps: seq<Step>): Option<Sys>
    decreases |steps|
  {
    if steps == [] then Some(s)
    else
      var t :- Next(s, steps[0]);
      Steps(t, steps[1..])
  }
}
