/** How version_compare ranks the tokens of a version, and how it takes a version text apart. */
module VersionForms {
  import opened Basics
  import opened Decimal
  import opened VersionOrder

  // ----- the ranking

  /** The ranking from the lowest: dev, alpha, beta, rc, then 0 and any other word, then a patch level, then the other numbers. */
  predicate OnRung(t: Token, i: nat) {
    match t
    case Number(v) => if v == 0 then i == 4 else v > 0 && i == 6
    case Word(w) =>
      if w == "dev" then i == 0
      else if w in ["alpha", "a"] then i == 1
      else if w in ["beta", "b"] then i == 2
      else if w == "rc" then i == 3
      else if w in ["pl", "p"] then i == 5
      else i == 4
  }

  lemma HigherRung(x: Token, y: Token, i: nat, j: nat)
    requires OnRung(x, i) && OnRung(y, j) && i < j
    ensures CompareToken(x, y) == -1 && CompareToken(y, x) == 1
  {
    hide CompareText;
  }

  /** On one rung numbers compare by value, words as texts, and 0 is equal to any word outside the ranking. */
  lemma SameRung(x: Token, y: Token, i: nat)
    requires OnRung(x, i) && OnRung(y, i)
    ensures x.Number? && y.Number? ==> CompareToken(x, y) == Sign(x.val < y.val, x.val > y.val)
    ensures x.Word? && y.Word? ==> CompareToken(x, y) == CompareText(x.word, y.word)
    ensures x.Number? != y.Number? ==> CompareToken(x, y) == 0
  {
    if x.Word? && y.Word? {
      TextLaws(x.word, y.word, "");
    }
  }

  /** Texts compare at the first difference; a text comes after its beginnings. */
  lemma {:induction false} TextOrder(p: string, c: char, d: char, s: string, t: string)
    ensures c < d ==> CompareText(p + [c] + s, p + [d] + t) == -1 && CompareText(p + [d] + t, p + [c] + s) == 1
    ensures CompareText(p, p + [c] + s) == -1 && CompareText(p + [c] + s, p) == 1 && CompareText(p, p) == 0
  {
    var u, v := p + [c] + s, p + [d] + t;
    if p != "" {
      TextOrder(p[1..], c, d, s, t);
      assert u[1..] == p[1..] + [c] + s && v[1..] == p[1..] + [d] + t;
    }
  }

  /** The first token that differs decides, and a version that has ended goes on with zeros. */
  lemma {:induction false} FirstDifference(ts: seq<Token>, x: Token, y: Token, xs: seq<Token>, ys: seq<Token>)
    requires CompareToken(x, y) != 0
    ensures Compare(ts + [x] + xs, ts + [y] + ys) == CompareToken(x, y)
    ensures x == Number(0) ==> Compare(ts, ts + [y] + ys) == CompareToken(x, y)
    ensures y == Number(0) ==> Compare(ts + [x] + xs, ts) == CompareToken(x, y)
    decreases |ts|
  {
    hide CompareToken;
    var us, vs := ts + [x] + xs, ts + [y] + ys;
    if ts != [] {
      TokenAntisymmetric(ts[0], ts[0]);
      FirstDifference(ts[1..], x, y, xs, ys);
      assert us[1..] == ts[1..] + [x] + xs && vs[1..] == ts[1..] + [y] + ys;
    }
  }

  /** After a common beginning, whatever follows: a token of a higher rung makes the later version. */
  lemma LaterVersion(ts: seq<Token>, x: Token, y: Token, xs: seq<Token>, ys: seq<Token>, i: nat, j: nat)
    requires OnRung(x, i) && OnRung(y, j) && i < j
    ensures Compare(ts + [x] + xs, ts + [y] + ys) == -1 && Compare(ts + [y] + ys, ts + [x] + xs) == 1
    ensures j > 4 ==> Compare(ts, ts + [y] + ys) == -1
    ensures i < 4 ==> Compare(ts + [x] + xs, ts) == -1
  {
    hide CompareToken, Compare;
    HigherRung(x, y, i, j);
    FirstDifference(ts, x, y, xs, ys);
    FirstDifference(ts, y, x, ys, xs);
    assert OnRung(Number(0), 4);
    if j > 4 {
      HigherRung(Number(0), y, 4, j);
      FirstDifference(ts, Number(0), y, [], ys);
    }
    if i < 4 {
      HigherRung(x, Number(0), i, 4);
      FirstDifference(ts, x, Number(0), xs, []);
    }
  }

  // ----- the text

  /** The letters of words; every other character that is no digit separates. */
  lemma Letters(c: char)
    ensures IsLower(c) <==> c in "abcdefghijklmnopqrstuvwxyz"
    ensures IsDigit(c) <==> c in "0123456789"
  {
    LetterAt(c);
    DigitAt(c);
  }

  lemma LetterAt(c: char)
    ensures IsLower(c) <==> c in "abcdefghijklmnopqrstuvwxyz"
  {
    var s := "abcdefghijklmnopqrstuvwxyz";
    assert forall i :: 0 <= i < 26 ==> s[i] as int == 97 + i;
    if IsLower(c) {
      assert s[c as int - 97] == c;
    }
  }

  lemma DigitAt(c: char)
    ensures IsDigit(c) <==> c in "0123456789"
  {
    var s := "0123456789";
    assert forall i :: 0 <= i < 10 ==> s[i] as int == 48 + i;
    if IsDigit(c) {
      assert s[c as int - 48] == c;
    }
  }

  predicate NoDigitFirst(s: string) {
    s == "" || !IsDigit(s[0])
  }

  predicate NoLetterFirst(s: string) {
    s == "" || !IsLower(s[0])
  }

  /** A whole run of digits is one number, the largest int64 when it is larger. */
  lemma NumberToken(d: string, rest: string)
    requires d != "" && AllDigits(d) && NoDigitFirst(rest)
    ensures TokensOf(d + rest)
         == [Number(if DigitsValue(d) <= 9223372036854775807 then DigitsValue(d) else 9223372036854775807)] + TokensOf(rest)
  {
    hide DigitsValue;
    var s := d + rest;
    DigitSpanAt(d, rest);
    assert s[..|d|] == d && s[|d|..] == rest;
  }

  /** A whole run of letters is one word. */
  lemma WordToken(w: string, rest: string)
    requires IsWord(w) && NoLetterFirst(rest)
    ensures TokensOf(w + rest) == [Word(w)] + TokensOf(rest)
  {
    var s := w + rest;
    LetterRun(w, rest);
    assert s[..|w|] == w && s[|w|..] == rest && IsLower(s[0]);
  }

  lemma {:induction false} LetterRun(w: string, rest: string)
    requires (forall i :: 0 <= i < |w| ==> IsLower(w[i])) && NoLetterFirst(rest)
    ensures LetterSpan(w + rest) == |w|
  {
    if w == "" {
      assert w + rest == rest;
    } else {
      assert (w + rest)[1..] == w[1..] + rest;
      LetterRun(w[1..], rest);
    }
  }

  lemma Separator(c: char, rest: string)
    requires !IsDigit(c) && !IsLower(c)
    ensures TokensOf([c] + rest) == TokensOf(rest)
  {
    assert ([c] + rest)[1..] == rest;
  }

  /** A `v` in front of a digit goes, and no other. */
  lemma LeadingV(c: char, s: string)
    ensures IsDigit(c) ==> Version(['v', c] + s) == TokensOf([c] + s) == Version([c] + s)
    ensures !IsDigit(c) ==> Version(['v', c] + s) == TokensOf(['v', c] + s)
    ensures c != 'v' ==> Version([c] + s) == TokensOf([c] + s)
    ensures Version("v") == [Word("v")] && Version("") == []
  {
    hide TokensOf;
    NoTokens();
    assert (['v', c] + s)[1..] == [c] + s;
    assert "v" + "" == "v";
    WordToken("v", "");
  }

  /** The version "v1.20-rc3" is 1, 20, rc, 3. */
  lemma VersionText()
    ensures Version("v1.20-rc3") == [Number(1), Number(20), Word("rc"), Number(3)]
  {
    hide TokensOf, DigitsValue;
    NoTokens();
    Values();
    assert "v1.20-rc3" == ['v', '1'] + ".20-rc3" && "1.20-rc3" == ['1'] + ".20-rc3" == "1" + (['.'] + "20-rc3");
    LeadingV('1', ".20-rc3");
    NumberToken("1", ['.'] + "20-rc3");
    Separator('.', "20-rc3");
    assert "20-rc3" == "20" + (['-'] + "rc3");
    NumberToken("20", ['-'] + "rc3");
    Separator('-', "rc3");
    assert "rc3" == "rc" + "3" && "3" == "3" + "";
    WordToken("rc", "3");
    NumberToken("3", "");
  }

  lemma Values()
    ensures DigitsValue("1") == 1 && DigitsValue("20") == 20 && DigitsValue("3") == 3
  {
    assert "1"[..0] == "" == "3"[..0] && "20"[..1] == "2" && "2"[..0] == "";
    assert DigitsValue("") == 0;
    assert DigitsValue("2") == 2;
  }
}
