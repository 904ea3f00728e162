/**
 Which fetches reach the upstream while an address is cooling: those of requests that were
 already past the gate when the breaker tripped, and no others.
 */
module BreakerRequests {
  import opened Wrappers
  import opened Breaker

  // ----- requests, interleaved

  /** A request past the gate: its invalid answers so far, and the attempts allowed. */
  datatype Request = Request(attempt: nat, limit: nat)

  /** One address: its entry, the requests past the gate, and the clock. */
  datatype Sys = Sys(now: int, entry: Option<Streak>, requests: map<nat, Request>)

  datatype Action =
    | Tick(d: nat)
    | Arrive(id: nat, limit: nat)
    | Fetch(id: nat)
    | Invalid(id: nat)
    | Failed(id: nat)
    | Canceled(id: nat)
    | Usable(id: nat)
    | SweepStale

  const INITIAL := Sys(0, None, map[])

  predicate Cooling(s: Sys) {
    Left(s.entry, s.now) > 0
  }

  function Note(s: Sys, threshold: int, base: int): Sys {
    s.(entry := Some(AfterFailure(s.entry, threshold, base, s.now).0))
  }

  /** Whether the action notes the failure that trips the breaker. */
  predicate Trips(s: Sys, a: Action, threshold: int, base: int) {
    (a.Invalid? || a.Failed?) && AfterFailure(s.entry, threshold, base, s.now).1
  }

  /**
   serveHTTP, one lock section or fetch at a time: the gate, the attempt loop with its notes of
   failure and success, and sweeps that may run at any time. None: the action is not possible.
   */
  function Act(s: Sys, a: Action, threshold: int, base: int): Option<Sys> {
    match a
    case Tick(d) => Some(s.(now := s.now + d))
    case Arrive(id, limit) =>
      if id in s.requests || limit == 0 then None
      else if Cooling(s) then Some(s)
      else Some(s.(requests := s.requests[id := Request(0, limit)]))
    case Fetch(id) => if id in s.requests then Some(s) else None
    case Invalid(id) =>
      if id !in s.requests then None else
      var r := s.requests[id];
      Some(Note(s, threshold, base).(
             requests := if r.attempt + 1 < r.limit then s.requests[id := r.(attempt := r.attempt + 1)] else s.requests - {id}))
    case Failed(id) =>
      if id !in s.requests then None else Some(Note(s, threshold, base).(requests := s.requests - {id}))
    case Canceled(id) => if id !in s.requests then None else Some(s.(requests := s.requests - {id}))
    case Usable(id) => if id !in s.requests then None else Some(s.(entry := None, requests := s.requests - {id}))
    case SweepStale =>
      Some(if s.entry.Some? && Stale(s.entry.value, s.now) then s.(entry := None) else s)
  }

  function Acts(s: Sys, actions: seq<Action>, threshold: int, base: int): Option<Sys>
    decreases |actions|
  {
    if actions == [] then Some(s)
    else
      var s1 :- Act(s, actions[0], threshold, base);
      Acts(s1, actions[1..], threshold, base)
  }

  /** A run during which the address cools all the time. */
  predicate CoolingRun(s: Sys, actions: seq<Action>, threshold: int, base: int)
    decreases |actions|
  {
    Cooling(s) &&
    (actions == [] ||
     (Act(s, actions[0], threshold, base).Some? &&
      CoolingRun(Act(s, actions[0], threshold, base).value, actions[1..], threshold, base)))
  }

  /** Whether the request is over at some point of the run. */
  predicate EndsIn(s: Sys, actions: seq<Action>, id: nat, threshold: int, base: int)
    decreases |actions|
  {
    id !in s.requests ||
    (actions != [] && Act(s, actions[0], threshold, base).Some? &&
     EndsIn(Act(s, actions[0], threshold, base).value, actions[1..], id, threshold, base))
  }

  // ----- who can fetch while the address cools

  /** While the address cools nobody new passes the gate. */
  lemma {:induction false} InFlightOnly(s: Sys, actions: seq<Action>, id: nat, threshold: int, base: int)
    requires CoolingRun(s, actions, threshold, base)
    ensures Acts(s, actions, threshold, base).Some?
    ensures id in Acts(s, actions, threshold, base).value.requests <==> !EndsIn(s, actions, id, threshold, base)
    ensures id in Acts(s, actions, threshold, base).value.requests ==> id in s.requests
    decreases |actions|
  {
    hide Note, Cooling;
    if actions != [] {
      var s1 := Act(s, actions[0], threshold, base).value;
      InFlightOnly(s1, actions[1..], id, threshold, base);
      assert Cooling(s);
      assert id in s1.requests ==> id in s.requests;
    }
  }

  ghost predicate FetchesWhileCooling(s: Sys, id: nat, threshold: int, base: int) {
    exists actions :: CoolingRun(s, actions, threshold, base) && Acts(s, actions, threshold, base).Some? &&
      Act(Acts(s, actions, threshold, base).value, Fetch(id), threshold, base).Some?
  }

  /** From a state in which the address cools, a request can fetch before the cooldown ends if and only if it is in flight. */
  lemma CoolingFetches(s: Sys, id: nat, threshold: int, base: int)
    requires Cooling(s)
    ensures FetchesWhileCooling(s, id, threshold, base) <==> id in s.requests
  {
    if id in s.requests {
      assert CoolingRun(s, [], threshold, base);
      assert Acts(s, [], threshold, base) == Some(s);
    } else {
      forall actions | CoolingRun(s, actions, threshold, base)
        ensures Acts(s, actions, threshold, base).Some? && id !in Acts(s, actions, threshold, base).value.requests
      {
        InFlightOnly(s, actions, id, threshold, base);
      }
    }
  }

  lemma {:induction false} ActsSnoc(s: Sys, actions: seq<Action>, a: Action, threshold: int, base: int)
    ensures Acts(s, actions + [a], threshold, base)
         == match Acts(s, actions, threshold, base) { case None => None case Some(t) => Act(t, a, threshold, base) }
    decreases |actions|
  {
    hide Act;
    if actions == [] {
      assert ([] + [a])[1..] == [];
    } else {
      assert (actions + [a])[1..] == actions[1..] + [a];
      if Act(s, actions[0], threshold, base).Some? {
        ActsSnoc(Act(s, actions[0], threshold, base).value, actions[1..], a, threshold, base);
      }
    }
  }

  lemma {:induction false} CoolingSnoc(s: Sys, actions: seq<Action>, a: Action, threshold: int, base: int)
    requires CoolingRun(s, actions, threshold, base)
    requires
      var t := Acts(s, actions, threshold, base);
      t.Some? ==> Act(t.value, a, threshold, base).Some? && Cooling(Act(t.value, a, threshold, base).value)
    ensures CoolingRun(s, actions + [a], threshold, base)
    decreases |actions|
  {
    hide Act, Cooling;
    if actions == [] {
      assert ([] + [a])[1..] == [];
    } else {
      assert (actions + [a])[1..] == actions[1..] + [a];
      CoolingSnoc(Act(s, actions[0], threshold, base).value, actions[1..], a, threshold, base);
    }
  }

  /** Only a trip starts a cooldown. */
  lemma OnlyTripsCool(s: Sys, a: Action, threshold: int, base: int)
    requires !Cooling(s) && Act(s, a, threshold, base).Some? && Cooling(Act(s, a, threshold, base).value)
    ensures Trips(s, a, threshold, base)
  {
  }

  /** Action i of the run trips the breaker, and from then on the address cools. */
  ghost predicate CoolsSince(actions: seq<Action>, i: nat, threshold: int, base: int) {
    && i < |actions|
    && Acts(INITIAL, actions[..i], threshold, base).Some?
    && Trips(Acts(INITIAL, actions[..i], threshold, base).value, actions[i], threshold, base)
    && Acts(INITIAL, actions[..i + 1], threshold, base).Some?
    && CoolingRun(Acts(INITIAL, actions[..i + 1], threshold, base).value, actions[i + 1..], threshold, base)
  }

  /** Behind every cooling state there is the trip that started its cooldown. */
  lemma {:induction false} TripBehind(actions: seq<Action>, threshold: int, base: int) returns (i: nat)
    requires Acts(INITIAL, actions, threshold, base).Some? && Cooling(Acts(INITIAL, actions, threshold, base).value)
    ensures CoolsSince(actions, i, threshold, base)
    ensures Acts(Acts(INITIAL, actions[..i + 1], threshold, base).value, actions[i + 1..], threshold, base)
         == Acts(INITIAL, actions, threshold, base)
    decreases |actions|
  {
    hide Act, Cooling, Trips;
    assert actions != [] by {
      NotCoolingAtFirst();
    }
    var n := |actions| - 1;
    var init, a := actions[..n], actions[n];
    assert actions == init + [a];
    ActsSnoc(INITIAL, init, a, threshold, base);
    var s := Acts(INITIAL, init, threshold, base).value;
    if Cooling(s) {
      i := TripBehind(init, threshold, base);
      assert init[..i] == actions[..i] && init[..i + 1] == actions[..i + 1];
      assert actions[i + 1..] == init[i + 1..] + [a];
      var s1 := Acts(INITIAL, actions[..i + 1], threshold, base).value;
      ActsSnoc(s1, init[i + 1..], a, threshold, base);
      CoolingSnoc(s1, init[i + 1..], a, threshold, base);
    } else {
      i := n;
      OnlyTripsCool(s, a, threshold, base);
      assert actions[..i] == init && actions[..i + 1] == actions && actions[i + 1..] == [];
    }
  }

  lemma NotCoolingAtFirst()
    ensures !Cooling(INITIAL)
  {
  }

  /**
   Over every run of interleaved requests, ticks, successes and sweeps: while the address
   cools, a fetch is possible exactly for the requests that were in flight right after the
   trip and are not over yet. Nobody who arrives later passes the gate.
   */
  lemma NoRequestPassesCooling(actions: seq<Action>, threshold: int, base: int)
    requires Acts(INITIAL, actions, threshold, base).Some? && Cooling(Acts(INITIAL, actions, threshold, base).value)
    ensures exists i :: CoolsSince(actions, i, threshold, base)
    ensures forall i, id :: CoolsSince(actions, i, threshold, base) ==>
      var tripped := Acts(INITIAL, actions[..i + 1], threshold, base).value;
      Act(Acts(INITIAL, actions, threshold, base).value, Fetch(id), threshold, base).Some? <==>
        id in tripped.requests && !EndsIn(tripped, actions[i + 1..], id, threshold, base)
  {
    hide Cooling, Trips, EndsIn, CoolingRun;
    var j := TripBehind(actions, threshold, base);
    forall i, id | CoolsSince(actions, i, threshold, base)
      ensures
        var tripped := Acts(INITIAL, actions[..i + 1], threshold, base).value;
        Act(Acts(INITIAL, actions, threshold, base).value, Fetch(id), threshold, base).Some? <==>
          id in tripped.requests && !EndsIn(tripped, actions[i + 1..], id, threshold, base)
    {
      var tripped := Acts(INITIAL, actions[..i + 1], threshold, base).value;
      InFlightOnly(tripped, actions[i + 1..], id, threshold, base);
      assert actions == actions[..i + 1] + actions[i + 1..];
      ActsCat(INITIAL, actions[..i + 1], actions[i + 1..], threshold, base);
    }
  }

  lemma {:induction false} ActsCat(s: Sys, a: seq<Action>, b: seq<Action>, threshold: int, base: int)
    ensures Acts(s, a + b, threshold, base)
         == match Acts(s, a, threshold, base) { case None => None case Some(t) => Acts(t, b, threshold, base) }
    decreases |a|
  {
    hide Act;
    if a == [] {
      assert a + b == b;
    } else {
      assert (a + b)[1..] == a[1..] + b;
      if Act(s, a[0], threshold, base).Some? {
        ActsCat(Act(s, a[0], threshold, base).value, a[1..], b, threshold, base);
      }
    }
  }

  // ----- one request at a time, one attempt each

  /** A request arrives only when none is in flight, and is allowed one attempt. */
  predicate OneAtATime(s: Sys, actions: seq<Action>, threshold: int, base: int)
    decreases |actions|
  {
    actions != [] ==>
      && (actions[0].Arrive? ==> s.requests == map[] && actions[0].limit == 1)
      && (Act(s, actions[0], threshold, base).Some? ==>
            OneAtATime(Act(s, actions[0], threshold, base).value, actions[1..], threshold, base))
  }

  predicate Alone(s: Sys) {
    && (forall i, j :: i in s.requests && j in s.requests ==> i == j)
    && (forall i :: i in s.requests ==> s.requests[i].limit == 1)
    && (Cooling(s) ==> s.requests == map[])
  }

  lemma {:induction false} AloneStays(s: Sys, actions: seq<Action>, threshold: int, base: int)
    requires Alone(s) && OneAtATime(s, actions, threshold, base) && Acts(s, actions, threshold, base).Some?
    ensures Alone(Acts(s, actions, threshold, base).value)
    decreases |actions|
  {
    if actions != [] {
      AloneStep(s, actions[0], threshold, base);
      AloneStays(Act(s, actions[0], threshold, base).value, actions[1..], threshold, base);
    }
  }

  lemma AloneStep(s: Sys, a: Action, threshold: int, base: int)
    requires Alone(s) && Act(s, a, threshold, base).Some? && (a.Arrive? ==> s.requests == map[] && a.limit == 1)
    ensures Alone(Act(s, a, threshold, base).value)
  {
  }

  /** Requests of one attempt that do not overlap never fetch while the address cools. */
  lemma SingleAttemptsNeverFetch(actions: seq<Action>, id: nat, threshold: int, base: int)
    requires Acts(INITIAL, actions, threshold, base).Some? && OneAtATime(INITIAL, actions, threshold, base)
    requires Cooling(Acts(INITIAL, actions, threshold, base).value)
    ensures Act(Acts(INITIAL, actions, threshold, base).value, Fetch(id), threshold, base).None?
  {
    AloneStays(INITIAL, actions, threshold, base);
  }

  // ----- where fetches do happen

  /**
   The gate does not stop the request that trips the breaker: after two failed requests, the
   first invalid answer of a third one opens the cooldown, and its retry still fetches.
   */
  lemma RetryFetchesWhileCooling()
    ensures
      var actions := [Arrive(1, 3), Failed(1), Arrive(2, 3), Failed(2), Arrive(3, 3), Invalid(3)];
      var s := Acts(INITIAL, actions, 3, COOLDOWN);
      && s.Some? && Left(s.value.entry, s.value.now) == COOLDOWN
      && Act(s.value, Fetch(3), 3, COOLDOWN).Some?
  {
  }

  /** Nor a request that passed the gate before another one tripped the breaker: it makes its first fetch while the address cools. */
  lemma OverlappingFetchesWhileCooling()
    ensures
      var s := Acts(INITIAL, [Arrive(1, 1), Arrive(2, 1), Fetch(1), Invalid(1)], 1, COOLDOWN);
      && s.Some? && Cooling(s.value) && 2 in s.value.requests && s.value.requests[2].attempt == 0
      && Act(s.value, Fetch(2), 1, COOLDOWN).Some?
  {
  }

  // ----- the life of a request

  /** Every request past the gate has made fewer invalid attempts than it may. */
  predicate Bounded(s: Sys) {
    forall id :: id in s.requests ==> s.requests[id].attempt < s.requests[id].limit
  }

  lemma {:induction false} AttemptsBounded(s: Sys, actions: seq<Action>, threshold: int, base: int)
    requires Bounded(s) && Acts(s, actions, threshold, base).Some?
    ensures Bounded(Acts(s, actions, threshold, base).value)
    decreases |actions|
  {
    hide Note;
    if actions != [] {
      NoteKeeps(s, threshold, base);
      AttemptsBounded(Act(s, actions[0], threshold, base).value, actions[1..], threshold, base);
    }
  }

  lemma NoteKeeps(s: Sys, threshold: int, base: int)
    ensures Note(s, threshold, base).requests == s.requests && Note(s, threshold, base).now == s.now
  {
  }

  /**
   How a request ends: a usable answer opens the gate, a canceled fetch leaves it as it is, a
   failed fetch counts as a failure, and an invalid answer does, too, and ends the request
   only when it was the last attempt.
   */
  lemma Answers(s: Sys, id: nat, threshold: int, base: int)
    requires id in s.requests && s.requests[id].attempt < s.requests[id].limit
    ensures
      var usable := Act(s, Usable(id), threshold, base);
      usable.Some? && id !in usable.value.requests && forall t :: Left(usable.value.entry, t) == 0
    ensures
      var canceled := Act(s, Canceled(id), threshold, base);
      canceled.Some? && id !in canceled.value.requests && canceled.value.entry == s.entry
    ensures
      var failed := Act(s, Failed(id), threshold, base);
      failed.Some? && id !in failed.value.requests && failed.value.entry == Some(AfterFailure(s.entry, threshold, base, s.now).0)
    ensures
      var invalid := Act(s, Invalid(id), threshold, base);
      && invalid.Some? && invalid.value.entry == Some(AfterFailure(s.entry, threshold, base, s.now).0)
      && (id in invalid.value.requests <==> s.requests[id].attempt + 1 < s.requests[id].limit)
      && (id in invalid.value.requests ==> invalid.value.requests[id] == Request(s.requests[id].attempt + 1, s.requests[id].limit))
  {
    hide AfterFailure;
  }

  /** A request that is over, or not yet past the gate, does nothing; one that arrives passes exactly while nothing is left of a cooldown. */
  lemma Arrivals(s: Sys, id: nat, limit: nat, threshold: int, base: int)
    requires id !in s.requests
    ensures forall a :: a in [Fetch(id), Invalid(id), Failed(id), Canceled(id), Usable(id)] ==> Act(s, a, threshold, base).None?
    ensures limit > 0 ==>
      var arrived := Act(s, Arrive(id, limit), threshold, base);
      && arrived.Some? && arrived.value.entry == s.entry
      && (id in arrived.value.requests <==> Left(s.entry, s.now) <= 0)
      && (id in arrived.value.requests ==> arrived.value.requests[id] == Request(0, limit))
  {
    hide AfterFailure;
  }
}
