/**
 Round-robin selection over the health records of a proxy group: which proxy is taken, and
 that repeated selection is fair while the records stay as they are.
 */
module ProxySelection {
  import opened Basics
  import opened Wrappers

  /** The health record of a proxy; times and durations are integers. */
  datatype ProxyStats = ProxyStats(
    alive: bool, responseTime: int, statusCode: int, failCount: int, cooldownUntil: int, lastCheck: int)

  /** A proxy that may be handed out: checked, alive, past its cooldown, with a measured response time. */
  predicate Eligible(stats: map<string, ProxyStats>, name: string, now: int) {
    name in stats && stats[name].alive && now > stats[name].cooldownUntil && stats[name].responseTime > 0
  }

  /** Which positions of the group are eligible. */
  function Marks(names: seq<string>, stats: map<string, ProxyStats>, now: int): (marks: seq<bool>)
    ensures |marks| == |names|
  {
    seq(|names|, i requires 0 <= i < |names| => Eligible(stats, names[i], now))
  }

  /** The k-th position of the cyclic search from `start`. */
  function Probe(start: nat, k: nat, n: nat): (p: nat)
    requires n > 0
    ensures p < n
  {
    (start + k) % n
  }

  /** The marked positions among probes a..b-1, in probing order. */
  function Probed(marks: seq<bool>, start: nat, a: nat, b: nat): seq<nat>
    requires marks != [] && a <= b
    decreases b - a
  {
    if a == b then []
    else
      var p := Probe(start, a, |marks|);
      (if marks[p] then [p] else []) + Probed(marks, start, a + 1, b)
  }

  /** All marked positions, in the cyclic order from `start`. */
  function CyclicOrder(marks: seq<bool>, start: nat): seq<nat>
    requires marks != []
  {
    Probed(marks, start, 0, |marks|)
  }

  class ProxyGroup {
    const names: seq<string>
    var stats: map<string, ProxyStats>
    var roundRobinIndex: nat

    constructor (names: seq<string>)
      ensures this.names == names && stats == map[] && roundRobinIndex == 0
    {
      this.names, stats, roundRobinIndex := names, map[], 0;
    }

    /**
     SelectProxyFromCache: the first eligible position in cyclic order from the index, which
     then moves past it; nothing changes when no position is eligible.
     */
    method SelectProxyFromCache(now: int) returns (picked: Option<nat>)
      modifies `roundRobinIndex
      ensures names == [] ==> picked.None? && roundRobinIndex == old(roundRobinIndex)
      ensures names != [] ==>
        var order := CyclicOrder(Marks(names, stats, now), old(roundRobinIndex));
        if order == [] then picked.None? && roundRobinIndex == old(roundRobinIndex)
        else picked == Some(order[0]) && roundRobinIndex == (order[0] + 1) % |names|
      ensures picked.Some? ==>
        && picked.value < |names| && names[picked.value] in stats
        && var s := stats[names[picked.value]]; s.alive && s.responseTime > 0 && s.cooldownUntil < now
      ensures picked.None? ==>
        forall name :: name in names && name in stats ==>
          !stats[name].alive || stats[name].responseTime <= 0 || stats[name].cooldownUntil >= now
    {
      var n := |names|;
      var start := roundRobinIndex;
      ghost var marks := Marks(names, stats, now);
      picked := None;
      if n > 0 {
        FirstReady(names, stats, now, start);
      }
      var i := 0;
      while i < n
        invariant 0 <= i <= n && roundRobinIndex == start
        invariant n > 0 ==> CyclicOrder(marks, start) == Probed(marks, start, i, n)
      {
        var idx := Probe(start, i, n);
        if Eligible(stats, names[idx], now) {
          roundRobinIndex := (idx + 1) % n;
          return Some(idx);
        }
        i := i + 1;
      }
    }

    /** m selections in a row. */
    method SelectMany(now: int, m: nat) returns (picks: seq<nat>)
      modifies `roundRobinIndex
      requires names != [] && CyclicOrder(Marks(names, stats, now), roundRobinIndex) != []
      ensures picks == Picks(Marks(names, stats, now), old(roundRobinIndex), m)
    {
      hide CyclicOrder, Picks, Marks;
      ghost var marks := Marks(names, stats, now);
      picks := [];
      var j := 0;
      NoPicks(marks, roundRobinIndex);
      while j < m
        invariant 0 <= j <= m
        invariant CyclicOrder(marks, roundRobinIndex) != []
        invariant picks + Picks(marks, roundRobinIndex, m - j) == Picks(marks, old(roundRobinIndex), m)
      {
        PickRotates(marks, roundRobinIndex);
        ghost var order := CyclicOrder(marks, roundRobinIndex);
        PicksStep(marks, roundRobinIndex, m - j);
        var p := SelectProxyFromCache(now);
        Cat(picks, [order[0]], Picks(marks, roundRobinIndex, m - j - 1));
        picks := picks + [p.value];
        j := j + 1;
      }
      NoPicks(marks, roundRobinIndex);
    }
  }

  lemma NoPicks(marks: seq<bool>, start: nat)
    requires marks != []
    ensures Picks(marks, start, 0) == []
  {
  }

  lemma PicksStep(marks: seq<bool>, start: nat, m: nat)
    requires marks != [] && m > 0 && CyclicOrder(marks, start) != []
    ensures
      var first := CyclicOrder(marks, start)[0];
      Picks(marks, start, m) == [first] + Picks(marks, (first + 1) % |marks|, m - 1)
  {
  }

  /** The positions that m selections in a row return. */
  function Picks(marks: seq<bool>, start: nat, m: nat): seq<nat>
    requires marks != []
    decreases m
  {
    var order := CyclicOrder(marks, start);
    if m == 0 || order == [] then [] else [order[0]] + Picks(marks, (order[0] + 1) % |marks|, m - 1)
  }

  // ----- arithmetic of the index

  lemma ModUnique(x: int, n: int, q: int, r: int)
    requires n > 0 && 0 <= r < n && x == n * q + r
    ensures x % n == r
  {
    var d := q - x / n;
    assert n * d == x % n - r;
    assert d >= 1 ==> n * d >= n;
    assert d <= -1 ==> n * d <= -n;
  }

  lemma ModAdd(a: int, b: int, n: int)
    requires n > 0
    ensures (a % n + b) % n == (a + b) % n
  {
    var q1, q2 := a / n, (a % n + b) / n;
    assert n * (q1 + q2) == n * q1 + n * q2;
    ModUnique(a + b, n, q1 + q2, (a % n + b) % n);
  }

  lemma ProbeAdd(start: nat, i: nat, k: nat, n: nat)
    requires n > 0
    ensures Probe(Probe(start, i, n), k, n) == Probe(start, i + k, n)
  {
    ModAdd(start + i, k, n);
  }

  lemma NextIsProbe(start: nat, i: nat, n: nat)
    requires n > 0
    ensures NextStart(start, i, n) == Probe(Probe(start, i, n), 1, n)
  {
  }

  lemma ProbeFrom(start: nat, i: nat, k: nat, n: nat)
    requires n > 0
    ensures Probe(NextStart(start, i, n), k, n) == Probe(start, i + 1 + k, n)
  {
    hide Probe, NextStart;
    NextIsProbe(start, i, n);
    ProbeAdd(start, i, 1, n);
    ProbeAdd(start, i + 1, k, n);
  }

  lemma ProbePeriodic(start: nat, k: nat, n: nat)
    requires n > 0
    ensures Probe(start, k + n, n) == Probe(start, k, n)
  {
    var q := (start + k) / n;
    assert n * (q + 1) == n * q + n;
    ModUnique(start + k + n, n, q + 1, (start + k) % n);
  }

  lemma ProbeInjective(start: nat, a: nat, b: nat, n: nat)
    requires a < b < a + n && n > 0
    ensures Probe(start, a, n) != Probe(start, b, n)
  {
    var d := (start + b) / n - (start + a) / n;
    assert b - a == n * d + (Probe(start, b, n) - Probe(start, a, n));
    assert d >= 1 ==> n * d >= n;
    assert d <= 0 ==> n * d <= 0;
  }

  lemma ProbeReaches(start: nat, j: nat, n: nat) returns (k: nat)
    requires j < n
    ensures k < n && Probe(start, k, n) == j
  {
    var s, q := start % n, start / n;
    k := if j >= s then j - s else j - s + n;
    assert n * (q + 1) == n * q + n;
    ModUnique(start + k, n, if j >= s then q else q + 1, j);
  }

  // ----- ranges of probes

  lemma {:induction false} ProbedSplit(marks: seq<bool>, start: nat, a: nat, b: nat, c: nat)
    requires marks != [] && a <= b <= c
    ensures Probed(marks, start, a, c) == Probed(marks, start, a, b) + Probed(marks, start, b, c)
    decreases b - a
  {
    if a < b {
      ProbedSplit(marks, start, a + 1, b, c);
    }
  }

  /** The index after the one that probe i looks at. */
  function NextStart(start: nat, i: nat, n: nat): nat
    requires n > 0
  {
    (Probe(start, i, n) + 1) % n
  }

  lemma ProbedNothing(marks: seq<bool>, start: nat, a: nat)
    requires marks != []
    ensures Probed(marks, start, a, a) == []
  {
  }

  lemma ProbedStep(marks: seq<bool>, start: nat, a: nat, b: nat)
    requires marks != [] && a < b
    ensures Probed(marks, start, a, b)
         == (if marks[Probe(start, a, |marks|)] then [Probe(start, a, |marks|)] else []) + Probed(marks, start, a + 1, b)
  {
  }

  /** Restarting after probe i shifts the range by i + 1. */
  lemma {:induction false} ProbedShift(marks: seq<bool>, start: nat, i: nat, a: nat, b: nat)
    requires marks != [] && a <= b
    ensures Probed(marks, NextStart(start, i, |marks|), a, b) == Probed(marks, start, a + i + 1, b + i + 1)
    decreases b - a
  {
    hide Probe, Probed, NextStart;
    ProbedNothing(marks, NextStart(start, i, |marks|), a);
    ProbedNothing(marks, start, a + i + 1);
    if a < b {
      var next := NextStart(start, i, |marks|);
      ProbeFrom(start, i, a, |marks|);
      ProbedShift(marks, start, i, a + 1, b);
      ProbedStep(marks, next, a, b);
      ProbedStep(marks, start, a + i + 1, b + i + 1);
    }
  }

  lemma {:induction false} ProbedPeriodic(marks: seq<bool>, start: nat, a: nat, b: nat, a': nat, b': nat)
    requires marks != [] && a <= b && a' == a + |marks| && b' == b + |marks|
    ensures Probed(marks, start, a', b') == Probed(marks, start, a, b)
    decreases b - a
  {
    hide Probe;
    if a < b {
      ProbePeriodic(start, a, |marks|);
      ProbedPeriodic(marks, start, a + 1, b, a' + 1, b');
    }
  }

  lemma {:induction false} FirstMarked(marks: seq<bool>, start: nat, a: nat, b: nat) returns (i: nat)
    requires marks != [] && a <= b && Probed(marks, start, a, b) != []
    ensures a <= i < b && Probed(marks, start, a, b)[0] == Probe(start, i, |marks|)
    ensures Probed(marks, start, a, i + 1) == [Probe(start, i, |marks|)]
    decreases b - a
  {
    if marks[Probe(start, a, |marks|)] {
      i := a;
      assert Probed(marks, start, a + 1, a + 1) == [];
    } else {
      i := FirstMarked(marks, start, a + 1, b);
    }
  }

  // ----- fairness

  /** After a selection the cyclic order is the old one with its head moved to the end. */
  lemma PickRotates(marks: seq<bool>, start: nat)
    requires marks != [] && CyclicOrder(marks, start) != []
    ensures
      var order := CyclicOrder(marks, start);
      order[0] < |marks| && CyclicOrder(marks, (order[0] + 1) % |marks|) == order[1..] + [order[0]]
  {
    hide Probed, Probe;
    var n := |marks|;
    var order := CyclicOrder(marks, start);
    var i := FirstMarked(marks, start, 0, n);
    ProbedSplit(marks, start, 0, i + 1, n);
    assert order == [order[0]] + Probed(marks, start, i + 1, n);
    ProbedShift(marks, start, i, 0, n);
    ProbedSplit(marks, start, i + 1, n, n + i + 1);
    ProbedPeriodic(marks, start, 0, i + 1, n, n + i + 1);
  }

  lemma {:induction false} ProbedMembers(marks: seq<bool>, start: nat, a: nat, b: nat, j: nat)
    requires marks != [] && a <= b
    ensures j in Probed(marks, start, a, b) <==> exists k :: a <= k < b && Probe(start, k, |marks|) == j && marks[j]
    decreases b - a
  {
    if a < b {
      ProbedMembers(marks, start, a + 1, b, j);
    }
  }

  lemma {:induction false} ProbedDistinct(marks: seq<bool>, start: nat, a: nat, b: nat)
    requires marks != [] && a <= b <= a + |marks|
    ensures Distinct(Probed(marks, start, a, b))
    decreases b - a
  {
    if a < b {
      ProbedDistinct(marks, start, a + 1, b);
      var p := Probe(start, a, |marks|);
      ProbedMembers(marks, start, a + 1, b, p);
      forall k | a + 1 <= k < b ensures Probe(start, k, |marks|) != p {
        ProbeInjective(start, a, k, |marks|);
      }
    }
  }

  /** The cyclic order lists every marked position exactly once, from any start. */
  lemma OrderIsAll(marks: seq<bool>, start: nat)
    requires marks != []
    ensures Distinct(CyclicOrder(marks, start))
    ensures forall j :: j in CyclicOrder(marks, start) <==> 0 <= j < |marks| && marks[j]
  {
    ProbedDistinct(marks, start, 0, |marks|);
    forall j: nat ensures j in CyclicOrder(marks, start) <==> j < |marks| && marks[j] {
      ProbedMembers(marks, start, 0, |marks|, j);
      if j < |marks| {
        var k := ProbeReaches(start, j, |marks|);
      }
    }
  }

  /** The order lists exactly the positions of proxies that are checked, alive, measured and past their cooldown, the nearest from `start` first. */
  lemma FirstReady(names: seq<string>, stats: map<string, ProxyStats>, now: int, start: nat)
    requires names != []
    ensures
      var order := CyclicOrder(Marks(names, stats, now), start);
      forall j :: j in order <==> (
        0 <= j < |names| && names[j] in stats
        && stats[names[j]].alive && stats[names[j]].responseTime > 0 && stats[names[j]].cooldownUntil < now)
    ensures
      var order := CyclicOrder(Marks(names, stats, now), start);
      forall j :: j in order ==> (order[0] - start) % |names| <= (j - start) % |names|
  {
    hide CyclicOrder;
    var marks := Marks(names, stats, now);
    OrderIsAll(marks, start);
    NearestFirst(marks, start);
  }

  lemma NearestFirst(marks: seq<bool>, start: nat)
    requires marks != []
    ensures
      var order := CyclicOrder(marks, start);
      forall j :: j in order ==> (order[0] - start) % |marks| <= (j - start) % |marks|
  {
    hide Probed, Probe;
    var order := CyclicOrder(marks, start);
    if order != [] {
      var i := FirstMarked(marks, start, 0, |marks|);
      Distance(start, i, |marks|);
      forall j | j in order ensures (order[0] - start) % |marks| <= (j - start) % |marks| {
        ProbedMembers(marks, start, 0, |marks|, j);
        var k :| 0 <= k < |marks| && Probe(start, k, |marks|) == j && marks[j];
        Distance(start, k, |marks|);
        if k < i {
          ProbedMembers(marks, start, 0, i + 1, j);
          assert false;
        }
      }
    }
  }

  lemma Distance(start: nat, k: nat, n: nat)
    requires k < n
    ensures (Probe(start, k, n) - start) % n == k
  {
    var q := (start + k) / n;
    assert Probe(start, k, n) - start == n * (-q) + k;
    ModUnique(Probe(start, k, n) - start, n, -q, k);
  }

  /** Entry i of a list read round and round. */
  function Around(order: seq<nat>, i: nat): nat
    requires order != []
  {
    order[i % |order|]
  }

  lemma AroundRotated(order: seq<nat>, i: nat)
    requires order != []
    ensures Around(order[1..] + [order[0]], i) == Around(order, i + 1)
    ensures Around(order, 0) == order[0]
  {
    NextIndex(i, |order|);
  }

  /** The i-th of m selections is the i-th entry of the cyclic order, read round and round. */
  lemma {:induction false} PicksCycle(marks: seq<bool>, start: nat, m: nat)
    requires marks != [] && CyclicOrder(marks, start) != []
    ensures
      var order, picks := CyclicOrder(marks, start), Picks(marks, start, m);
      |picks| == m && forall i :: 0 <= i < m ==> picks[i] == Around(order, i)
    decreases m
  {
    hide CyclicOrder, Around;
    if m > 0 {
      var order, picks := CyclicOrder(marks, start), Picks(marks, start, m);
      PickRotates(marks, start);
      var next := (order[0] + 1) % |marks|;
      PicksCycle(marks, next, m - 1);
      AroundRotated(order, 0);
      forall i | 0 < i < m ensures picks[i] == Around(order, i) {
        AroundRotated(order, i - 1);
      }
    }
  }

  lemma NextIndex(i: nat, k: nat)
    requires k > 0
    ensures (i + 1) % k == if i % k + 1 < k then i % k + 1 else 0
  {
    var q := i / k;
    if i % k + 1 < k {
      ModUnique(i + 1, k, q, i % k + 1);
    } else {
      assert k * (q + 1) == k * q + k;
      ModUnique(i + 1, k, q + 1, 0);
    }
  }

  /** As many selections as there are eligible positions return each of them exactly once, in cyclic order. */
  lemma OneRound(marks: seq<bool>, start: nat)
    requires marks != [] && CyclicOrder(marks, start) != []
    ensures var order := CyclicOrder(marks, start); Picks(marks, start, |order|) == order && Distinct(order)
    ensures forall j :: j in CyclicOrder(marks, start) <==> 0 <= j < |marks| && marks[j]
  {
    hide CyclicOrder;
    var order := CyclicOrder(marks, start);
    PicksCycle(marks, start, |order|);
    forall i | 0 <= i < |order| ensures Around(order, i) == order[i] {
      ModUnique(i, |order|, 0, i);
    }
    OrderIsAll(marks, start);
  }

  function CountOf(s: seq<nat>, x: nat): nat {
    if s == [] then 0 else CountOf(s[..|s| - 1], x) + (if s[|s| - 1] == x then 1 else 0)
  }

  /** How often entry e of a list of length k occurs when the list is read round and round m times. */
  function Share(m: nat, k: nat, e: nat): nat
    requires k > 0
  {
    m / k + (if e < m % k then 1 else 0)
  }

  lemma {:induction false} CountRound(order: seq<nat>, picks: seq<nat>, e: nat)
    requires Distinct(order) && e < |order| && forall i :: 0 <= i < |picks| ==> picks[i] == Around(order, i)
    ensures CountOf(picks, order[e]) == Share(|picks|, |order|, e)
    decreases |picks|
  {
    hide Share, Around;
    if picks == [] {
      ShareOfNone(|order|, e);
    } else {
      var m := |picks| - 1;
      CountRound(order, picks[..m], e);
      ShareStep(order, m, e);
    }
  }

  lemma ShareOfNone(k: nat, e: nat)
    requires k > 0
    ensures Share(0, k, e) == 0
  {
  }

  /** One more step round the list changes the share of entry e only when the step lands on e. */
  lemma ShareStep(order: seq<nat>, m: nat, e: nat)
    requires Distinct(order) && e < |order|
    ensures Share(m + 1, |order|, e) == Share(m, |order|, e) + (if Around(order, m) == order[e] then 1 else 0)
  {
    var k, q := |order|, m / |order|;
    assert order[m % k] == order[e] <==> m % k == e;
    if m % k + 1 < k {
      DivUnique(m + 1, k, q, m % k + 1);
    } else {
      assert k * (q + 1) == k * q + k;
      DivUnique(m + 1, k, q + 1, 0);
    }
  }

  lemma DivUnique(x: int, n: int, q: int, r: int)
    requires n > 0 && 0 <= r < n && x == n * q + r
    ensures x / n == q && x % n == r
  {
    ModUnique(x, n, q, r);
    var d := q - x / n;
    assert n * d == 0;
    assert d >= 1 ==> n * d >= n;
    assert d <= -1 ==> n * d <= -n;
  }

  /** In any m selections from any start, two eligible positions are taken equally often up to one. */
  lemma Fair(marks: seq<bool>, start: nat, m: nat, i: nat, j: nat)
    requires i < |marks| && j < |marks| && marks[i] && marks[j]
    ensures -1 <= CountOf(Picks(marks, start, m), i) - CountOf(Picks(marks, start, m), j) <= 1
  {
    hide CyclicOrder, CountOf;
    OrderIsAll(marks, start);
    var order := CyclicOrder(marks, start);
    assert i in order && j in order;
    var e, f :| 0 <= e < |order| && 0 <= f < |order| && order[e] == i && order[f] == j;
    PicksCycle(marks, start, m);
    CountRound(order, Picks(marks, start, m), e);
    CountRound(order, Picks(marks, start, m), f);
  }
}
