/**
 Decimal text of signed 64-bit integers: strconv.FormatInt / Itoa, strconv.ParseInt and
 the array-key test of the PHP serializer. Strings are byte strings; a byte is a `char`.
 */
module Decimal {
  import opened Wrappers

  const MIN_INT64 := -0x8000_0000_0000_0000
  const MAX_INT64 := 0x7FFF_FFFF_FFFF_FFFF

  predicate IsInt64(n: int) {
    MIN_INT64 <= n <= MAX_INT64
  }

  predicate IsDigit(c: char) {
    '0' <= c <= '9'
  }

  predicate AllDigits(s: string) {
    forall i :: 0 <= i < |s| ==> IsDigit(s[i])
  }

  /** The length of the run of digits at the front. */
  function DigitSpan(r: string): (n: nat)
    ensures n <= |r|
  {
    if r != "" && IsDigit(r[0]) then 1 + DigitSpan(r[1..]) else 0
  }

  lemma {:induction false} SpanIsDigits(s: string)
    ensures AllDigits(s[..DigitSpan(s)])
  {
    if s != "" && IsDigit(s[0]) {
      SpanIsDigits(s[1..]);
      assert s[..DigitSpan(s)] == [s[0]] + s[1..][..DigitSpan(s[1..])];
    }
  }

  /** A run of digits ends where something else follows. */
  lemma {:induction false} DigitSpanAt(s: string, rest: string)
    requires AllDigits(s) && (rest == "" || !IsDigit(rest[0]))
    ensures DigitSpan(s + rest) == |s|
  {
    if s == "" {
      assert s + rest == rest;
    } else {
      assert (s + rest)[1..] == s[1..] + rest;
      DigitSpanAt(s[1..], rest);
    }
  }

  function DigitChar(d: nat): (c: char)
    requires d < 10
    ensures IsDigit(c) && DigitValue(c) == d
  {
    ('0' as int + d) as char
  }

  function DigitValue(c: char): nat
    requires IsDigit(c)
  {
    c as int - '0' as int
  }

  /** The number written by a run of digits, leading zeros allowed. */
  function DigitsValue(s: string): nat
    requires AllDigits(s)
  {
    if s == "" then 0 else DigitsValue(s[..|s| - 1]) * 10 + DigitValue(s[|s| - 1])
  }

  function FormatNat(n: nat): (s: string)
    ensures s != "" && AllDigits(s)
  {
    if n < 10 then [DigitChar(n)] else FormatNat(n / 10) + [DigitChar(n % 10)]
  }

  function FormatInt(n: int): string {
    if n < 0 then "-" + FormatNat(-n) else FormatNat(n)
  }

  predicate IsSign(c: char) {
    c == '-' || c == '+'
  }

  /** strconv.ParseInt(s, 10, 64): an optional sign, then digits; None when out of range. */
  function ParseInt64(s: string): Option<int> {
    var body := if s != "" && IsSign(s[0]) then s[1..] else s;
    if body == "" || !AllDigits(body) then
      None
    else
      var n: int := if s[0] == '-' then 0 - DigitsValue(body) else DigitsValue(body);
      if IsInt64(n) then Some(n) else None
  }

  lemma {:induction false} DigitsOfFormatNat(n: nat)
    ensures DigitsValue(FormatNat(n)) == n
    ensures FormatNat(n)[0] == '0' ==> n == 0 && |FormatNat(n)| == 1
  {
    if n >= 10 {
      DigitsOfFormatNat(n / 10);
      var s := FormatNat(n);
      assert s[..|s| - 1] == FormatNat(n / 10);
    }
  }

  /** A digit run without a superfluous leading zero is the decimal text of its value. */
  lemma {:induction false} FormatNatOfDigits(s: string)
    requires s != "" && AllDigits(s) && (s[0] == '0' ==> |s| == 1)
    ensures FormatNat(DigitsValue(s)) == s
    ensures DigitsValue(s) == 0 ==> s == "0"
  {
    var p, c := s[..|s| - 1], s[|s| - 1];
    assert s == p + [c] && AllDigits(p) && IsDigit(c);
    assert DigitsValue(s) == DigitsValue(p) * 10 + DigitValue(c);
    if p != "" {
      assert p[0] == s[0];
      FormatNatOfDigits(p);
      assert p[0] != '0' ==> DigitsValue(p) > 0;
      hide DigitsValue;
      LastDigit(DigitsValue(p), DigitValue(c));
      assert DigitChar(DigitValue(c)) == c;
    } else {
      assert DigitsValue(p) == 0;
    }
  }

  lemma LastDigit(n: nat, d: nat)
    requires n > 0 && d < 10
    ensures FormatNat(n * 10 + d) == FormatNat(n) + [DigitChar(d)]
  {
  }

  /** ParseInt inverts FormatInt on every int64. */
  lemma ParseFormatInt(n: int)
    requires IsInt64(n)
    ensures ParseInt64(FormatInt(n)) == Some(n)
  {
    DigitsOfFormatNat(if n < 0 then -n else n);
    if n < 0 {
      assert FormatInt(n)[1..] == FormatNat(-n);
    }
  }

  // ----- the canonical-integer test on array keys

  /** The part of a key after its optional minus sign. */
  function KeyDigits(k: string): string {
    if k != "" && k[0] == '-' then k[1..] else k
  }

  /** The keys that the printer writes as integers, and the integer written. */
  function ArrayIntKey(k: string): Option<int> {
    var digits := KeyDigits(k);
    if digits == "" || !AllDigits(digits) || (digits[0] == '0' && |digits| > 1) then None else ParseInt64(k)
  }

  /** phpArrayIntKey: the byte loop decides the same keys as the declarative test. */
  method ComputeArrayIntKey(k: string) returns (r: Option<int>)
    ensures r == ArrayIntKey(k)
  {
    if k == "" {
      return None;
    }
    var i := 0;
    if k[0] == '-' {
      i := 1;
    }
    if i >= |k| {
      return None;
    }
    ghost var digits := KeyDigits(k);
    assert digits == k[i..];
    if k[i] == '0' && |k| - i > 1 {
      return None;
    }
    ghost var start := i;
    while i < |k|
      invariant start <= i <= |k|
      invariant forall j :: start <= j < i ==> IsDigit(k[j])
    {
      if k[i] < '0' || k[i] > '9' {
        assert digits[i - start] == k[i];
        return None;
      }
      i := i + 1;
    }
    r := ParseInt64(k);
  }

  /** An integer key prints back as the same text, with the single exception of "-0". */
  lemma IntKeyText(k: string)
    requires ArrayIntKey(k).Some?
    ensures IsInt64(ArrayIntKey(k).value)
    ensures FormatInt(ArrayIntKey(k).value) == k <==> k != "-0"
  {
    FormatNatOfDigits(KeyDigits(k));
    if k[0] == '-' {
      assert k == "-" + KeyDigits(k);
      if k != "-0" {
        assert DigitsValue(KeyDigits(k)) != 0;
      } else {
        assert KeyDigits(k) == "0";
        assert DigitsValue(KeyDigits(k)) == 0;
      }
    }
  }

  /** The array keys that print as integers are the decimal texts of the int64 numbers, and "-0". */
  lemma IntKeysExactly(k: string)
    ensures ArrayIntKey(k).Some? <==> k == "-0" || exists n :: IsInt64(n) && k == FormatInt(n)
  {
    hide FormatNat, DigitsValue;
    if ArrayIntKey(k).Some? {
      IntKeyText(k);
    }
    if n :| IsInt64(n) && k == FormatInt(n) {
      ParseFormatInt(n);
      DigitsOfFormatNat(if n < 0 then -n else n);
      assert KeyDigits(k) == FormatNat(if n < 0 then -n else n);
    }
    if k == "-0" {
      MinusZeroKey();
    }
  }

  lemma MinusZeroKey()
    ensures ArrayIntKey("-0") == Some(0)
  {
    hide ParseInt64, DigitsValue;
    ZeroValue();
    assert "-0"[1..] == "0" && "-" + "0" == "-0";
    SignedTexts("0");
  }

  lemma ZeroValue()
    ensures AllDigits("0") && DigitsValue("0") == 0
  {
    assert DigitsValue("0"[..0]) == 0;
  }

  // ----- decimal notation

  /** Each further digit multiplies by ten and adds itself. */
  lemma DigitValues(s: string, c: char)
    requires AllDigits(s) && c in "0123456789"
    ensures AllDigits(s + [c]) && DigitsValue("") == 0
    ensures DigitsValue(s + [c]) == 10 * DigitsValue(s) + (c as int - 48)
  {
    assert (s + [c])[..|s|] == s;
  }

  lemma OneDigit(d: nat)
    requires d < 10
    ensures FormatInt(d) == ["0123456789"[d]]
  {
    assert DigitChar(d) == "0123456789"[d];
  }

  /** A number is written with its last digit behind the text of its tenth, and a minus sign in front when it is negative. */
  lemma DigitTexts(n: nat, d: nat)
    requires d < 10
    ensures n == 0 ==> FormatInt(10 * n + d) == ["0123456789"[d]]
    ensures n > 0 ==> FormatInt(10 * n + d) == FormatInt(n) + ["0123456789"[d]]
    ensures n > 0 ==> FormatInt(0 - n) == "-" + FormatInt(n)
  {
    OneDigit(d);
    if n > 0 {
      LastDigit(n, d);
    }
  }

  /** A text is read as a number when it is an optional sign in front of digits, and the number fits 64 bits. */
  lemma SignedTexts(digits: string)
    requires digits != "" && AllDigits(digits)
    ensures
      var n := DigitsValue(digits);
      && ParseInt64(digits) == ParseInt64("+" + digits) == (if n <= 9223372036854775807 then Some(n) else None)
      && ParseInt64("-" + digits) == (if n <= 9223372036854775808 then Some(0 - n) else None)
  {
    hide DigitsValue;
    assert ("+" + digits)[1..] == digits && ("-" + digits)[1..] == digits;
    assert !IsSign(digits[0]);
  }
}
