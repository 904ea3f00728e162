/**
 One request at an address that nobody else uses meanwhile: its fetches and the invalid
 answers between them, and when one of these fetches comes while the address cools.
 */
module BreakerSerial {
  import opened Wrappers
  import opened Breaker

  /** The entry after invalid answers noted at the given instants. */
  function AfterNotes(entry: Option<Streak>, threshold: int, base: int, notes: seq<int>): Option<Streak> {
    if notes == [] then entry
    else Some(AfterFailure(AfterNotes(entry, threshold, base, notes[..|notes| - 1]), threshold, base, notes[|notes| - 1]).0)
  }

  /** Fetch i comes after note i - 1 and before note i; the last fetch may end in any way. */
  predicate Timeline(fetches: seq<int>, notes: seq<int>) {
    && |fetches| == |notes| + 1
    && forall i :: 0 <= i < |notes| ==> fetches[i] <= notes[i] <= fetches[i + 1]
  }

  /** Whether fetch i of the request comes while the address cools. */
  predicate CoolingAt(entry: Option<Streak>, threshold: int, base: int, fetches: seq<int>, notes: seq<int>, i: nat)
    requires |fetches| == |notes| + 1 && i < |fetches|
  {
    Left(AfterNotes(entry, threshold, base, notes[..i]), fetches[i]) > 0
  }

  /** The leading notes that fall no later than the end of the recorded cooldown: these failures are not counted. */
  function Wasted(entry: Option<Streak>, notes: seq<int>): (w: nat)
    ensures w <= |notes|
  {
    if notes != [] && entry.Some? && entry.value.until.Some? && notes[0] <= entry.value.until.value
    then 1 + Wasted(entry, notes[1..])
    else 0
  }

  /** The failures that the entry brings along; a recorded cooldown starts the count afresh. */
  function CountBefore(entry: Option<Streak>): nat {
    if entry.Some? && entry.value.until.None? then entry.value.count else 0
  }

  /** How many counted failures it still takes to trip. */
  function Need(entry: Option<Streak>, threshold: int): nat {
    if threshold > CountBefore(entry) + 1 then threshold - CountBefore(entry) else 1
  }

  /** The number of notes up to the trip, if there are so many. */
  function TripNote(entry: Option<Streak>, threshold: int, notes: seq<int>): nat {
    Wasted(entry, notes) + Need(entry, threshold)
  }

  function CoolOf(entry: Option<Streak>): int {
    if entry.Some? then entry.value.cool else 0
  }

  predicate SortedNotes(notes: seq<int>) {
    forall i, j :: 0 <= i < j < |notes| ==> notes[i] <= notes[j]
  }

  /** The gate is open when the first answer is noted. */
  predicate GateOpen(entry: Option<Streak>, now: int) {
    Left(entry, now) == 0
  }

  /** The entry after k notes that have not tripped: still the old cooldown, or a count from scratch. */
  ghost predicate Counting(entry: Option<Streak>, notes: seq<int>, k: nat, now: Option<Streak>)
    requires k <= |notes|
  {
    var w := Wasted(entry, notes);
    if k == 0 then now == entry
    else
      && now.Some? && now.value.cool == CoolOf(entry)
      && (k <= w ==> entry.Some? && now.value.until == entry.value.until && now.value.until.Some?)
      && (k > w ==> now.value.until.None? && now.value.count == CountBefore(entry) + (k - w))
  }

  lemma {:induction false} WastedSplit(entry: Option<Streak>, notes: seq<int>, i: nat)
    requires SortedNotes(notes) && i < |notes|
    ensures entry.Some? && entry.value.until.Some? ==> (notes[i] <= entry.value.until.value <==> i < Wasted(entry, notes))
    ensures entry.None? || entry.value.until.None? ==> Wasted(entry, notes) == 0
    decreases |notes|
  {
    if i > 0 {
      WastedSplit(entry, notes[1..], i - 1);
    }
  }

  /** Until the trip the notes are wasted or counted. */
  lemma {:induction false} BeforeTrip(entry: Option<Streak>, threshold: int, base: int, notes: seq<int>, k: nat)
    requires SortedNotes(notes) && k <= |notes| && k < TripNote(entry, threshold, notes)
    ensures Counting(entry, notes, k, AfterNotes(entry, threshold, base, notes[..k]))
    decreases k
  {
    if k > 0 {
      BeforeTrip(entry, threshold, base, notes, k - 1);
      WastedSplit(entry, notes, k - 1);
      NotesStep(entry, threshold, base, notes, k);
    }
  }

  lemma NotesStep(entry: Option<Streak>, threshold: int, base: int, notes: seq<int>, k: nat)
    requires 0 < k <= |notes|
    ensures AfterNotes(entry, threshold, base, notes[..k])
         == Some(AfterFailure(AfterNotes(entry, threshold, base, notes[..k - 1]), threshold, base, notes[k - 1]).0)
  {
    assert notes[..k][..k - 1] == notes[..k - 1];
  }

  /** And at the trip the cooldown is recorded. */
  lemma AtTrip(entry: Option<Streak>, threshold: int, base: int, notes: seq<int>)
    requires SortedNotes(notes) && TripNote(entry, threshold, notes) <= |notes|
    ensures
      var m := TripNote(entry, threshold, notes);
      var now := AfterNotes(entry, threshold, base, notes[..m]);
      now.Some? && now.value.until == Some(notes[m - 1] + NextCool(CoolOf(entry), base))
  {
    hide NextCool;
    var m := TripNote(entry, threshold, notes);
    BeforeTrip(entry, threshold, base, notes, m - 1);
    WastedSplit(entry, notes, m - 1);
    NotesStep(entry, threshold, base, notes, m);
  }

  /**
   A request that finds the gate open. Its fetches up to and including the one that brings
   the tripping answer come while nothing cools, however long they take; the next fetch, if
   the request makes one, comes while the address cools exactly if it is made before the new
   deadline.
   */
  lemma SerialRequest(entry: Option<Streak>, threshold: int, base: int, fetches: seq<int>, notes: seq<int>)
    requires Timeline(fetches, notes) && GateOpen(entry, fetches[0])
    ensures
      var m := TripNote(entry, threshold, notes);
      && (forall i :: 0 <= i < |fetches| && i < m ==> !CoolingAt(entry, threshold, base, fetches, notes, i))
      && (m < |fetches| ==>
            (CoolingAt(entry, threshold, base, fetches, notes, m)
             <==> fetches[m] < notes[m - 1] + NextCool(CoolOf(entry), base)))
  {
    hide NextCool, AfterNotes, TripNote;
    TimelineSorted(fetches, notes);
    var m := TripNote(entry, threshold, notes);
    forall i | 0 <= i < |fetches| && i < m ensures !CoolingAt(entry, threshold, base, fetches, notes, i) {
      BeforeTrip(entry, threshold, base, notes, i);
      assert fetches[0] <= fetches[i];
    }
    if m < |fetches| {
      AtTrip(entry, threshold, base, notes);
    }
  }

  lemma {:induction false} TimelineSorted(fetches: seq<int>, notes: seq<int>)
    requires Timeline(fetches, notes)
    ensures SortedNotes(notes) && forall i :: 0 <= i < |fetches| ==> fetches[0] <= fetches[i]
    ensures forall i :: 0 <= i < |notes| ==> notes[i] <= fetches[|fetches| - 1]
    decreases |notes|
  {
    if notes != [] {
      var n := |notes| - 1;
      var f, k := fetches[..n + 1], notes[..n];
      TimelineSorted(f, k);
      assert forall i :: 0 <= i < n ==> notes[i] == k[i] && fetches[i] == f[i];
    }
  }

  /**
   A request that makes its last fetch before a cooldown from its first note would be over
   fetches while the address cools if and only if it makes more fetches than it takes notes
   to trip: max(threshold - c, 1) of them, where c failures are counted already, after those
   that fall on the very end of the last cooldown.
   */
  lemma SerialExactly(entry: Option<Streak>, threshold: int, base: int, fetches: seq<int>, notes: seq<int>)
    requires Timeline(fetches, notes) && GateOpen(entry, fetches[0])
    requires notes != [] ==> fetches[|fetches| - 1] < notes[0] + NextCool(CoolOf(entry), base)
    ensures (exists i :: 0 <= i < |fetches| && CoolingAt(entry, threshold, base, fetches, notes, i))
        <==> TripNote(entry, threshold, notes) < |fetches|
  {
    hide NextCool, TripNote, CoolingAt;
    SerialRequest(entry, threshold, base, fetches, notes);
    TimelineSorted(fetches, notes);
    var m := TripNote(entry, threshold, notes);
    if m < |fetches| {
      TripNotePositive(entry, threshold, notes);
      assert notes[0] <= notes[m - 1];
      FetchesSorted(fetches, notes, m);
      assert CoolingAt(entry, threshold, base, fetches, notes, m);
    }
  }

  lemma TripNotePositive(entry: Option<Streak>, threshold: int, notes: seq<int>)
    ensures TripNote(entry, threshold, notes) > 0
  {
  }

  lemma {:induction false} FetchesSorted(fetches: seq<int>, notes: seq<int>, i: nat)
    requires Timeline(fetches, notes) && i < |fetches|
    ensures fetches[i] <= fetches[|fetches| - 1]
    decreases |fetches| - i
  {
    if i < |notes| {
      FetchesSorted(fetches, notes, i + 1);
    }
  }

  /** The two settings of the player: a request of one attempt, and one of three attempts with threshold three and no failures counted. */
  lemma SafeSettings(entry: Option<Streak>, threshold: int, base: int, fetches: seq<int>, notes: seq<int>, i: nat)
    requires Timeline(fetches, notes) && GateOpen(entry, fetches[0]) && i < |fetches|
    requires |fetches| <= 1 || (|fetches| <= threshold && CountBefore(entry) == 0)
    ensures !CoolingAt(entry, threshold, base, fetches, notes, i)
  {
    hide CoolingAt;
    SerialRequest(entry, threshold, base, fetches, notes);
  }
}
