/**
 strnatcmp: strings compare as sequences of tokens, a run of digits being one token with the
 value that 64-bit arithmetic gives it.
 */
module NaturalOrder {
  import opened Basics
  import opened Decimal

  const TWO64 := 0x1_0000_0000_0000_0000

  /** int64 arithmetic wraps around. */
  function Wrap(x: int): int {
    (x + 0x8000_0000_0000_0000) % TWO64 - 0x8000_0000_0000_0000
  }

  /** The accumulation of parseLeadingNumber, from n on. */
  function Accumulate(n: int, s: string): int
    decreases |s|
  {
    if s != "" && IsDigit(s[0]) then Accumulate(Wrap(n * 10 + DigitValue(s[0])), s[1..]) else n
  }

  datatype Token = Number(v: int) | Byte(c: char)

  function Tokens(s: string): seq<Token>
    decreases |s|
  {
    if s == "" then []
    else if IsDigit(s[0]) then
      var n := DigitSpan(s);
      assert n > 0;
      [Number(Accumulate(0, s))] + Tokens(s[n..])
    else [Byte(s[0])] + Tokens(s[1..])
  }

  /** Numbers compare by value; a number and another byte compare as a digit and that byte. */
  function CompareToken(x: Token, y: Token): int {
    match (x, y)
    case (Number(v), Number(w)) => Sign(v < w, v > w)
    case (Byte(c), Byte(d)) => Sign(c < d, c > d)
    case (Number(_), Byte(d)) => Sign('0' < d, '0' > d)
    case (Byte(c), Number(_)) => Sign(c < '0', c > '0')
  }

  /** Lexicographic comparison; a proper prefix is smaller. */
  function Compare(xs: seq<Token>, ys: seq<Token>): int {
    if xs == [] && ys == [] then 0
    else if xs == [] then -1
    else if ys == [] then 1
    else if CompareToken(xs[0], ys[0]) != 0 then CompareToken(xs[0], ys[0])
    else Compare(xs[1..], ys[1..])
  }

  method ParseLeadingNumber(s: string) returns (n: int)
    ensures n == Accumulate(0, s)
  {
    n := 0;
    var i := 0;
    while i < |s|
      invariant 0 <= i <= |s|
      invariant Accumulate(n, s[i..]) == Accumulate(0, s)
    {
      if s[i] < '0' || s[i] > '9' {
        break;
      }
      assert s[i..][1..] == s[i + 1..];
      n := Wrap(n * 10 + (s[i] as int - '0' as int));
      i := i + 1;
    }
  }

  lemma DigitSpanDigits(s: string)
    ensures forall i :: 0 <= i < DigitSpan(s) ==> IsDigit(s[i])
    ensures DigitSpan(s) < |s| ==> !IsDigit(s[DigitSpan(s)])
  {
  }

  /** Skips the digits at i. */
  method SkipDigits(s: string, i: nat) returns (j: nat)
    requires i <= |s|
    ensures i <= j <= |s| && j == i + DigitSpan(s[i..])
  {
    j := i;
    while j < |s| && IsDigit(s[j])
      invariant i <= j <= |s|
      invariant i + DigitSpan(s[i..]) == j + DigitSpan(s[j..])
    {
      assert s[j..][1..] == s[j + 1..];
      j := j + 1;
    }
  }

  /** naturalCompare */
  method NaturalCompare(a: string, b: string) returns (r: int)
    ensures r == Compare(Tokens(a), Tokens(b))
  {
    hide Tokens, Accumulate, DigitSpan;
    var ia, ib := 0, 0;
    assert a[0..] == a && b[0..] == b;
    while ia < |a| && ib < |b|
      invariant 0 <= ia <= |a| && 0 <= ib <= |b|
      invariant Compare(Tokens(a[ia..]), Tokens(b[ib..])) == Compare(Tokens(a), Tokens(b))
      decreases |a| - ia
    {
      TokensAt(a, ia);
      TokensAt(b, ib);
      if IsDigit(a[ia]) && IsDigit(b[ib]) {
        var na := ParseLeadingNumber(a[ia..]);
        var nb := ParseLeadingNumber(b[ib..]);
        if na < nb {
          return -1;
        }
        if na > nb {
          return 1;
        }
        ia := SkipDigits(a, ia);
        ib := SkipDigits(b, ib);
        continue;
      }
      if a[ia] < b[ib] {
        return -1;
      }
      if a[ia] > b[ib] {
        return 1;
      }
      ia := ia + 1;
      ib := ib + 1;
    }
    NoTokens();
    assert ia == |a| ==> a[ia..] == "";
    assert ib == |b| ==> b[ib..] == "";
    if ia < |a| {
      TokensAt(a, ia);
      return 1;
    }
    if ib < |b| {
      TokensAt(b, ib);
      return -1;
    }
    return 0;
  }

  lemma NoTokens()
    ensures Tokens("") == []
  {
  }

  lemma TokensAt(s: string, i: nat)
    requires i < |s|
    ensures IsDigit(s[i]) ==> i < i + DigitSpan(s[i..]) <= |s|
    ensures Tokens(s[i..])
         == if IsDigit(s[i]) then [Number(Accumulate(0, s[i..]))] + Tokens(s[i + DigitSpan(s[i..])..])
            else [Byte(s[i])] + Tokens(s[i + 1..])
  {
  }

  // ----- the order

  /** Digits are numbers, so a byte token is never a digit. */
  predicate Lexed(xs: seq<Token>) {
    forall i :: 0 <= i < |xs| && xs[i].Byte? ==> !IsDigit(xs[i].c)
  }

  lemma {:induction false} TokensLexed(s: string)
    ensures Lexed(Tokens(s))
    decreases |s|
  {
    if s != "" {
      TokensLexed(if IsDigit(s[0]) then s[DigitSpan(s)..] else s[1..]);
    }
  }

  lemma {:induction false} Antisymmetric(xs: seq<Token>, ys: seq<Token>)
    ensures Compare(xs, ys) == -Compare(ys, xs)
    ensures -1 <= Compare(xs, ys) <= 1
  {
    if xs != [] && ys != [] {
      Antisymmetric(xs[1..], ys[1..]);
    }
  }

  lemma {:induction false} ZeroIsEqual(xs: seq<Token>, ys: seq<Token>)
    requires Lexed(xs) && Lexed(ys)
    ensures Compare(xs, ys) == 0 <==> xs == ys
  {
    if xs != [] && ys != [] {
      assert xs == [xs[0]] + xs[1..] && ys == [ys[0]] + ys[1..];
      ZeroIsEqual(xs[1..], ys[1..]);
    }
  }

  lemma {:induction false} Transitive(xs: seq<Token>, ys: seq<Token>, zs: seq<Token>)
    requires Lexed(xs) && Lexed(ys) && Lexed(zs)
    requires Compare(xs, ys) <= 0 && Compare(ys, zs) <= 0
    ensures Compare(xs, zs) <= 0
  {
    if xs != [] && ys != [] && zs != [] {
      if CompareToken(xs[0], zs[0]) == 0 {
        Transitive(xs[1..], ys[1..], zs[1..]);
      }
    }
  }

  /** strnatcmp on all byte strings: a total preorder, zero exactly on equal token lists. */
  lemma NaturalOrderLaws(a: string, b: string, c: string)
    ensures var cmp := (s, t) => Compare(Tokens(s), Tokens(t));
      && cmp(a, a) == 0
      && cmp(a, b) == -cmp(b, a)
      && (cmp(a, b) <= 0 && cmp(b, c) <= 0 ==> cmp(a, c) <= 0)
      && (cmp(a, b) == 0 <==> Tokens(a) == Tokens(b))
  {
    TokensLexed(a);
    TokensLexed(b);
    TokensLexed(c);
    ZeroIsEqual(Tokens(a), Tokens(a));
    ZeroIsEqual(Tokens(a), Tokens(b));
    Antisymmetric(Tokens(a), Tokens(b));
    if Compare(Tokens(a), Tokens(b)) <= 0 && Compare(Tokens(b), Tokens(c)) <= 0 {
      Transitive(Tokens(a), Tokens(b), Tokens(c));
    }
  }

  // ----- what equal tokens mean for digit runs

  lemma WrapStep(n: int, d: int)
    ensures Wrap(Wrap(n) * 10 + d) == Wrap(n * 10 + d)
  {
  }

  /** A digit run stands for its decimal value modulo 2^64, taken as a signed number. */
  lemma {:induction false} RunValue(s: string, k: nat)
    requires k <= DigitSpan(s)
    ensures k <= |s| && AllDigits(s[..k])
    ensures Accumulate(0, s) == Accumulate(Wrap(DigitsValue(s[..k])), s[k..])
    decreases k
  {
    DigitSpanDigits(s);
    if k == 0 {
      assert s[0..] == s && s[..0] == "";
    } else {
      RunValue(s, k - 1);
      assert s[..k][..k - 1] == s[..k - 1];
      assert s[k - 1..][0] == s[k - 1] && s[k - 1..][1..] == s[k..];
      WrapStep(DigitsValue(s[..k - 1]), DigitValue(s[k - 1]));
    }
  }

  lemma LeadingValue(s: string)
    ensures AllDigits(s[..DigitSpan(s)])
    ensures Accumulate(0, s) == Wrap(DigitsValue(s[..DigitSpan(s)]))
  {
    RunValue(s, DigitSpan(s));
    DigitSpanDigits(s);
  }

  /**
   Two digit runs are one and the same to strnatcmp if and only if their values differ by a
   multiple of 2^64; runs of different length and value can therefore compare as equal.
   */
  lemma RunsCompareEqual(s: string, t: string)
    requires s != "" && t != "" && AllDigits(s) && AllDigits(t)
    ensures Compare(Tokens(s), Tokens(t)) == 0 <==> (DigitsValue(s) - DigitsValue(t)) % TWO64 == 0
  {
    RunTokens(s);
    RunTokens(t);
    TokensLexed(s);
    TokensLexed(t);
    ZeroIsEqual(Tokens(s), Tokens(t));
    WrapEqual(DigitsValue(s), DigitsValue(t));
  }

  lemma RunTokens(s: string)
    requires s != "" && AllDigits(s)
    ensures Tokens(s) == [Number(Wrap(DigitsValue(s)))]
  {
    AllSpan(s);
    LeadingValue(s);
    assert s[..|s|] == s;
    assert Tokens(s[|s|..]) == [];
  }

  lemma {:induction false} AllSpan(s: string)
    requires AllDigits(s)
    ensures DigitSpan(s) == |s|
  {
    if s != "" {
      AllSpan(s[1..]);
    }
  }

  lemma WrapEqual(x: int, y: int)
    ensures Wrap(x) == Wrap(y) <==> (x - y) % TWO64 == 0
  {
  }

  // ----- the order of digit runs

  predicate IsRun(s: string) {
    s != "" && AllDigits(s)
  }

  /** Digit runs up to a value compare as the numbers they write. */
  ghost predicate ByValueUpTo(bound: nat) {
    forall s, t :: IsRun(s) && IsRun(t) && DigitsValue(s) <= bound && DigitsValue(t) <= bound ==>
      Compare(Tokens(s), Tokens(t)) == Sign(DigitsValue(s) < DigitsValue(t), DigitsValue(s) > DigitsValue(t))
  }

  /** Two digit runs compare as their values wrapped to 64 bits. */
  lemma RunsCompare(s: string, t: string)
    requires IsRun(s) && IsRun(t)
    ensures
      var (v, w) := (Wrap(DigitsValue(s)), Wrap(DigitsValue(t)));
      Compare(Tokens(s), Tokens(t)) == Sign(v < w, v > w)
  {
    hide Tokens, Wrap;
    RunTokens(s);
    RunTokens(t);
  }

  lemma WrapsNot(x: nat)
    ensures Wrap(x) == x <==> x <= MAX_INT64
    ensures x == MAX_INT64 + 1 ==> Wrap(x) < 0
  {
  }

  /** strnatcmp orders digit runs by value exactly as long as the values fit in 63 bits. */
  lemma ByValueExactly(bound: nat)
    ensures ByValueUpTo(bound) <==> bound <= MAX_INT64
  {
    hide Tokens, Wrap, Compare, DigitsValue;
    if bound <= MAX_INT64 {
      forall s, t | IsRun(s) && IsRun(t) && DigitsValue(s) <= bound && DigitsValue(t) <= bound
        ensures Compare(Tokens(s), Tokens(t)) == Sign(DigitsValue(s) < DigitsValue(t), DigitsValue(s) > DigitsValue(t))
      {
        RunsCompare(s, t);
        WrapsNot(DigitsValue(s));
        WrapsNot(DigitsValue(t));
      }
    } else {
      var s, t := FormatNat(MAX_INT64 + 1), FormatNat(0);
      DigitsOfFormatNat(MAX_INT64 + 1);
      DigitsOfFormatNat(0);
      RunsCompare(s, t);
      WrapsNot(MAX_INT64 + 1);
      WrapsNot(0);
      assert DigitsValue(s) <= bound && DigitsValue(t) <= bound;
    }
  }
}
