/**
 levenshtein: the two-row dynamic program computes the least cost over all alignments, and
 with symmetric positive costs that least cost is a metric.
 */
module EditDistance {
  import opened Basics

  /** Costs: `left` for a byte of the first string alone, `right` for one of the second alone, `both` for a mismatch. */
  datatype Costs = Costs(left: int, both: int, right: int)

  /** An alignment of two prefixes, built from its last column back. */
  datatype Alignment = Empty | Both(init: Alignment) | Left(init: Alignment) | Right(init: Alignment)

  predicate Aligns(a: Alignment, i: nat, j: nat) {
    match a
    case Empty => i == 0 && j == 0
    case Both(init) => i > 0 && j > 0 && Aligns(init, i - 1, j - 1)
    case Left(init) => i > 0 && Aligns(init, i - 1, j)
    case Right(init) => j > 0 && Aligns(init, i, j - 1)
  }

  function Mismatch(c: Costs, x: char, y: char): int {
    if x == y then 0 else c.both
  }

  function Cost(c: Costs, s: string, t: string, a: Alignment, i: nat, j: nat): int
    requires i <= |s| && j <= |t| && Aligns(a, i, j)
  {
    match a
    case Empty => 0
    case Both(init) => Cost(c, s, t, init, i - 1, j - 1) + Mismatch(c, s[i - 1], t[j - 1])
    case Left(init) => Cost(c, s, t, init, i - 1, j) + c.left
    case Right(init) => Cost(c, s, t, init, i, j - 1) + c.right
  }

  /** The cost of n bytes on one side. */
  function Times(n: nat, cost: int): int {
    n * cost
  }

  /** The recurrence the rows are filled by. */
  function Distance(c: Costs, s: string, t: string, i: nat, j: nat): int
    requires i <= |s| && j <= |t|
  {
    if i == 0 then Times(j, c.right)
    else if j == 0 then Times(i, c.left)
    else
      Min(Distance(c, s, t, i - 1, j - 1) + Mismatch(c, s[i - 1], t[j - 1]),
          Min(Distance(c, s, t, i - 1, j) + c.left, Distance(c, s, t, i, j - 1) + c.right))
  }

  lemma DistanceStep(c: Costs, s: string, t: string, i: nat, j: nat)
    requires 0 < i <= |s| && 0 < j <= |t|
    ensures Distance(c, s, t, i, j)
         == Min(Distance(c, s, t, i - 1, j - 1) + Mismatch(c, s[i - 1], t[j - 1]),
                Min(Distance(c, s, t, i - 1, j) + c.left, Distance(c, s, t, i, j - 1) + c.right))
  {
  }

  // ----- the dynamic program

  /** The row loops of levenshtein. */
  method LastRow(s: string, t: string, c: Costs) returns (prev: array<int>)
    ensures prev.Length == |t| + 1
    ensures forall j :: 0 <= j <= |t| ==> prev[j] == Distance(c, s, t, |s|, j)
  {
    hide Times;
    prev := new int[|t| + 1];
    for j := 0 to |t| + 1
      invariant forall k :: 0 <= k < j ==> prev[k] == Distance(c, s, t, 0, k)
    {
      prev[j] := Times(j, c.right);
    }
    for i := 1 to |s| + 1
      invariant prev.Length == |t| + 1
      invariant forall j :: 0 <= j <= |t| ==> prev[j] == Distance(c, s, t, i - 1, j)
    {
      prev := NextRow(prev, s, t, c, i);
    }
  }

  lemma FirstColumn(c: Costs, s: string, t: string, i: nat)
    requires 1 <= i <= |s|
    ensures Distance(c, s, t, i, 0) == Times(i, c.left)
  {
  }

  method NextRow(prev: array<int>, s: string, t: string, c: Costs, i: nat) returns (cur: array<int>)
    requires 1 <= i <= |s| && prev.Length == |t| + 1
    requires forall j :: 0 <= j <= |t| ==> prev[j] == Distance(c, s, t, i - 1, j)
    ensures cur.Length == |t| + 1 && fresh(cur)
    ensures forall j :: 0 <= j <= |t| ==> cur[j] == Distance(c, s, t, i, j)
  {
    hide Distance;
    cur := new int[|t| + 1];
    cur[0] := Times(i, c.left);
    FirstColumn(c, s, t, i);
    for j := 1 to |t| + 1
      invariant forall k :: 0 <= k < j ==> cur[k] == Distance(c, s, t, i, k)
    {
      var cost := 0;
      if s[i - 1] != t[j - 1] {
        cost := c.both;
      }
      var v := prev[j - 1] + cost;
      if prev[j] + c.left < v {
        v := prev[j] + c.left;
      }
      if cur[j - 1] + c.right < v {
        v := cur[j - 1] + c.right;
      }
      cur[j] := v;
      DistanceStep(c, s, t, i, j);
    }
  }

  /** levenshtein: distances above 255 are reported as -1. */
  method Levenshtein(s: string, t: string, c: Costs) returns (r: int)
    ensures var d := Distance(c, s, t, |s|, |t|); r == if d > 255 then -1 else d
  {
    var row := LastRow(s, t, c);
    r := if row[|t|] > 255 then -1 else row[|t|];
  }

  // ----- the recurrence is the least cost

  lemma TimesNext(n: nat, cost: int)
    requires n > 0
    ensures Times(n, cost) == Times(n - 1, cost) + cost
    ensures Times(0, cost) == 0
  {
  }

  lemma {:induction false} NoAlignmentIsCheaper(c: Costs, s: string, t: string, a: Alignment, i: nat, j: nat)
    requires i <= |s| && j <= |t| && Aligns(a, i, j)
    ensures Distance(c, s, t, i, j) <= Cost(c, s, t, a, i, j)
    decreases a
  {
    hide Times;
    TimesNext(1, c.right);
    match a {
      case Empty =>
      case Both(init) => NoAlignmentIsCheaper(c, s, t, init, i - 1, j - 1);
      case Left(init) =>
        NoAlignmentIsCheaper(c, s, t, init, i - 1, j);
        TimesNext(i, c.left);
      case Right(init) =>
        NoAlignmentIsCheaper(c, s, t, init, i, j - 1);
        TimesNext(j, c.right);
    }
  }

  /** An alignment of that cost. */
  function Best(c: Costs, s: string, t: string, i: nat, j: nat): (a: Alignment)
    requires i <= |s| && j <= |t|
    ensures Aligns(a, i, j)
  {
    if i == 0 && j == 0 then Empty
    else if i == 0 then Right(Best(c, s, t, i, j - 1))
    else if j == 0 then Left(Best(c, s, t, i - 1, j))
    else
      var d := Distance(c, s, t, i, j);
      if d == Distance(c, s, t, i - 1, j - 1) + Mismatch(c, s[i - 1], t[j - 1]) then Both(Best(c, s, t, i - 1, j - 1))
      else if d == Distance(c, s, t, i - 1, j) + c.left then Left(Best(c, s, t, i - 1, j))
      else Right(Best(c, s, t, i, j - 1))
  }

  lemma {:induction false} BestCost(c: Costs, s: string, t: string, i: nat, j: nat)
    requires i <= |s| && j <= |t|
    ensures Cost(c, s, t, Best(c, s, t, i, j), i, j) == Distance(c, s, t, i, j)
  {
    hide Distance, Best, Cost;
    if i == 0 || j == 0 {
      BestEdge(c, s, t, i, j);
    } else {
      BestCost(c, s, t, i - 1, j - 1);
      BestCost(c, s, t, i - 1, j);
      BestCost(c, s, t, i, j - 1);
      DistanceStep(c, s, t, i, j);
      BestStep(c, s, t, i, j);
    }
  }

  lemma BestStep(c: Costs, s: string, t: string, i: nat, j: nat)
    requires 0 < i <= |s| && 0 < j <= |t|
    ensures
      var d, best := Distance(c, s, t, i, j), Cost(c, s, t, Best(c, s, t, i, j), i, j);
      var both := Distance(c, s, t, i - 1, j - 1) + Mismatch(c, s[i - 1], t[j - 1]);
      if d == both then best == Cost(c, s, t, Best(c, s, t, i - 1, j - 1), i - 1, j - 1) + Mismatch(c, s[i - 1], t[j - 1])
      else if d == Distance(c, s, t, i - 1, j) + c.left then best == Cost(c, s, t, Best(c, s, t, i - 1, j), i - 1, j) + c.left
      else best == Cost(c, s, t, Best(c, s, t, i, j - 1), i, j - 1) + c.right
  {
  }

  lemma {:induction false} BestEdge(c: Costs, s: string, t: string, i: nat, j: nat)
    requires i <= |s| && j <= |t| && (i == 0 || j == 0)
    ensures Cost(c, s, t, Best(c, s, t, i, j), i, j) == Distance(c, s, t, i, j)
  {
    hide Times;
    TimesNext(1, c.right);
    if i > 0 {
      BestEdge(c, s, t, i - 1, j);
      TimesNext(i, c.left);
      TimesNext(1, c.left);
    } else if j > 0 {
      BestEdge(c, s, t, i, j - 1);
      TimesNext(j, c.right);
    }
  }

  /** Every entry of every row is the least cost over all alignments of the two prefixes, whatever the costs. */
  lemma DistanceIsLeastCost(c: Costs, s: string, t: string, i: nat, j: nat)
    requires i <= |s| && j <= |t|
    ensures forall a :: Aligns(a, i, j) ==> Distance(c, s, t, i, j) <= Cost(c, s, t, a, i, j)
    ensures exists a :: Aligns(a, i, j) && Cost(c, s, t, a, i, j) == Distance(c, s, t, i, j)
  {
    forall a | Aligns(a, i, j) ensures Distance(c, s, t, i, j) <= Cost(c, s, t, a, i, j) {
      NoAlignmentIsCheaper(c, s, t, a, i, j);
    }
    BestCost(c, s, t, i, j);
  }

  // ----- a metric

  function Between(c: Costs, s: string, t: string): int {
    Distance(c, s, t, |s|, |t|)
  }

  /** Aligning s with t and t with u aligns s with u. */
  function Compose(p: Alignment, q: Alignment, i: nat, j: nat, k: nat): (a: Alignment)
    requires Aligns(p, i, j) && Aligns(q, j, k)
    ensures Aligns(a, i, k)
    decreases p, q
  {
    match (p, q)
    case (Left(p1), _) => Left(Compose(p1, q, i - 1, j, k))
    case (_, Right(q1)) => Right(Compose(p, q1, i, j, k - 1))
    case (Both(p1), Both(q1)) => Both(Compose(p1, q1, i - 1, j - 1, k - 1))
    case (Both(p1), Left(q1)) => Left(Compose(p1, q1, i - 1, j - 1, k))
    case (Right(p1), Both(q1)) => Right(Compose(p1, q1, i, j - 1, k - 1))
    case (Right(p1), Left(q1)) => Compose(p1, q1, i, j - 1, k)
    case _ => Empty
  }

  lemma {:induction false} ComposeCost(c: Costs, s: string, t: string, u: string, p: Alignment, q: Alignment,
                                       i: nat, j: nat, k: nat)
    requires c.both >= 0 && c.left + c.right >= 0
    requires i <= |s| && j <= |t| && k <= |u| && Aligns(p, i, j) && Aligns(q, j, k)
    ensures Cost(c, s, u, Compose(p, q, i, j, k), i, k) <= Cost(c, s, t, p, i, j) + Cost(c, t, u, q, j, k)
    decreases p, q
  {
    match (p, q) {
      case (Left(p1), _) => ComposeCost(c, s, t, u, p1, q, i - 1, j, k);
      case (_, Right(q1)) => ComposeCost(c, s, t, u, p, q1, i, j, k - 1);
      case (Both(p1), Both(q1)) => ComposeCost(c, s, t, u, p1, q1, i - 1, j - 1, k - 1);
      case (Both(p1), Left(q1)) => ComposeCost(c, s, t, u, p1, q1, i - 1, j - 1, k);
      case (Right(p1), Both(q1)) => ComposeCost(c, s, t, u, p1, q1, i, j - 1, k - 1);
      case (Right(p1), Left(q1)) => ComposeCost(c, s, t, u, p1, q1, i, j - 1, k);
      case _ =>
    }
  }

  lemma TriangleInequality(c: Costs, s: string, t: string, u: string)
    requires c.both >= 0 && c.left + c.right >= 0
    ensures Between(c, s, u) <= Between(c, s, t) + Between(c, t, u)
  {
    var p, q := Best(c, s, t, |s|, |t|), Best(c, t, u, |t|, |u|);
    BestCost(c, s, t, |s|, |t|);
    BestCost(c, t, u, |t|, |u|);
    ComposeCost(c, s, t, u, p, q, |s|, |t|, |u|);
    NoAlignmentIsCheaper(c, s, u, Compose(p, q, |s|, |t|, |u|), |s|, |u|);
  }

  lemma {:induction false} DistanceSymmetric(c: Costs, s: string, t: string, i: nat, j: nat)
    requires i <= |s| && j <= |t| && c.left == c.right
    ensures Distance(c, s, t, i, j) == Distance(c, t, s, j, i)
  {
    hide Distance;
    if i > 0 && j > 0 {
      DistanceSymmetric(c, s, t, i - 1, j - 1);
      DistanceSymmetric(c, s, t, i - 1, j);
      DistanceSymmetric(c, s, t, i, j - 1);
      DistanceStep(c, s, t, i, j);
      DistanceStep(c, t, s, j, i);
    } else {
      EdgeSymmetric(c, s, t, i, j);
    }
  }

  lemma EdgeSymmetric(c: Costs, s: string, t: string, i: nat, j: nat)
    requires i <= |s| && j <= |t| && c.left == c.right && (i == 0 || j == 0)
    ensures Distance(c, s, t, i, j) == Distance(c, t, s, j, i)
  {
  }

  /** Distances are not negative, and only equal prefixes are at distance zero. */
  lemma {:induction false} DistancePositive(c: Costs, s: string, t: string, i: nat, j: nat)
    requires i <= |s| && j <= |t| && c.left > 0 && c.both > 0 && c.right > 0
    ensures Distance(c, s, t, i, j) >= 0
    ensures Distance(c, s, t, i, j) == 0 <==> s[..i] == t[..j]
  {
    hide Times, Distance;
    if i == 0 || j == 0 {
      DistanceEdge(c, s, t, i, j);
    } else {
      DistanceStep(c, s, t, i, j);
      DistancePositive(c, s, t, i - 1, j - 1);
      DistancePositive(c, s, t, i - 1, j);
      DistancePositive(c, s, t, i, j - 1);
    }
  }

  lemma DistanceEdge(c: Costs, s: string, t: string, i: nat, j: nat)
    requires i <= |s| && j <= |t| && (i == 0 || j == 0) && c.left > 0 && c.right > 0
    ensures Distance(c, s, t, i, j) >= 0
    ensures Distance(c, s, t, i, j) == 0 <==> s[..i] == t[..j]
  {
  }

  /** With positive costs, equal for the two sides, the value before the 255 cut is a metric. */
  lemma IsMetric(c: Costs, s: string, t: string, u: string)
    requires c.left == c.right > 0 && c.both > 0
    ensures Between(c, s, t) >= 0
    ensures Between(c, s, t) == 0 <==> s == t
    ensures Between(c, s, t) == Between(c, t, s)
    ensures Between(c, s, u) <= Between(c, s, t) + Between(c, t, u)
  {
    DistancePositive(c, s, t, |s|, |t|);
    assert s[..|s|] == s && t[..|t|] == t;
    DistanceSymmetric(c, s, t, |s|, |t|);
    TriangleInequality(c, s, t, u);
  }
}
