/**
 version_compare: a version is a list of numbers and qualifier words; lists compare token by
 token, the shorter one padded with the number 0.
 */
module VersionOrder {
  import opened Basics
  import opened Decimal

  datatype Token = Number(val: int) | Word(word: string)

  predicate IsLower(c: char) {
    'a' <= c <= 'z'
  }

  function LetterSpan(s: string): (n: nat)
    ensures n <= |s|
  {
    if s != "" && IsLower(s[0]) then 1 + LetterSpan(s[1..]) else 0
  }

  /** strconv.ParseInt with its error ignored: too large a number becomes the largest int64. */
  function ClampedValue(s: string): int
    requires AllDigits(s)
  {
    if DigitsValue(s) <= MAX_INT64 then DigitsValue(s) else MAX_INT64
  }

  /** Runs of digits and of letters, separators dropped; the text is lower case already. */
  function TokensOf(s: string): seq<Token>
    decreases |s|
  {
    if s == "" then []
    else if IsDigit(s[0]) then
      SpanIsDigits(s);
      var n := DigitSpan(s);
      assert n > 0;
      [Number(ClampedValue(s[..n]))] + TokensOf(s[n..])
    else if IsLower(s[0]) then
      var n := LetterSpan(s);
      assert n > 0;
      [Word(s[..n])] + TokensOf(s[n..])
    else TokensOf(s[1..])
  }

  /** A leading `v` before a digit is not a qualifier. */
  function WithoutV(s: string): string {
    if |s| > 1 && s[0] == 'v' && IsDigit(s[1]) then s[1..] else s
  }

  /** One round of the scan: what the first byte of the remaining text makes the next token. */
  lemma TokensStep(v: string, i: nat)
    requires i < |v|
    ensures IsDigit(v[i]) ==>
      var j := i + DigitSpan(v[i..]);
      i < j <= |v| && AllDigits(v[i..j]) && TokensOf(v[i..]) == [Number(ClampedValue(v[i..j]))] + TokensOf(v[j..])
    ensures IsLower(v[i]) ==>
      var j := i + LetterSpan(v[i..]);
      i < j <= |v| && TokensOf(v[i..]) == [Word(v[i..j])] + TokensOf(v[j..])
    ensures !IsDigit(v[i]) && !IsLower(v[i]) ==> TokensOf(v[i..]) == TokensOf(v[i + 1..])
  {
    hide ClampedValue;
    var s := v[i..];
    if IsDigit(v[i]) {
      var n := DigitSpan(s);
      SpanIsDigits(s);
      assert s[..n] == v[i..i + n] && s[n..] == v[i + n..];
    } else if IsLower(v[i]) {
      var n := LetterSpan(s);
      assert s[..n] == v[i..i + n] && s[n..] == v[i + n..];
    } else {
      assert s[1..] == v[i + 1..];
    }
  }

  method SkipDigits(v: string, i: nat) returns (j: nat)
    requires i < |v|
    ensures j == i + DigitSpan(v[i..])
  {
    j := i;
    while j < |v| && IsDigit(v[j])
      invariant i <= j <= |v|
      invariant DigitSpan(v[i..]) == j - i + DigitSpan(v[j..])
    {
      assert v[j..][1..] == v[j + 1..];
      j := j + 1;
    }
  }

  method SkipLetters(v: string, i: nat) returns (j: nat)
    requires i < |v|
    ensures j == i + LetterSpan(v[i..])
  {
    j := i;
    while j < |v| && IsLower(v[j])
      invariant i <= j <= |v|
      invariant LetterSpan(v[i..]) == j - i + LetterSpan(v[j..])
    {
      assert v[j..][1..] == v[j + 1..];
      j := j + 1;
    }
  }

  /** phpVersionTokens, on the trimmed and lower-cased text. */
  method VersionTokens(text: string) returns (toks: seq<Token>)
    ensures toks == TokensOf(WithoutV(text))
  {
    hide TokensOf, DigitSpan, LetterSpan, ClampedValue;
    var v := text;
    if |v| > 1 && v[0] == 'v' && IsDigit(v[1]) {
      v := v[1..];
    }
    toks := [];
    var i := 0;
    assert v[0..] == v;
    ghost var want := TokensOf(v);
    while i < |v|
      invariant 0 <= i <= |v|
      invariant toks + TokensOf(v[i..]) == want
      decreases |v| - i
    {
      TokensStep(v, i);
      var c := v[i];
      if !IsLower(c) && !IsDigit(c) {
        i := i + 1;
        continue;
      }
      var j;
      var tok;
      if IsDigit(c) {
        j := SkipDigits(v, i);
        tok := Number(ClampedValue(v[i..j]));
      } else {
        j := SkipLetters(v, i);
        tok := Word(v[i..j]);
      }
      Cat(toks, [tok], TokensOf(v[j..]));
      toks := toks + [tok];
      i := j;
    }
    NoTokens();
    assert v[i..] == "";
  }

  lemma NoTokens()
    ensures TokensOf("") == []
  {
  }

  // ----- comparing tokens

  const STABLE := 4

  function WordRank(w: string): nat {
    if w == "dev" then 0
    else if w == "alpha" || w == "a" then 1
    else if w == "beta" || w == "b" then 2
    else if w == "rc" then 3
    else if w == "pl" || w == "p" then 5
    else STABLE
  }

  /** strings.Compare */
  function CompareText(s: string, t: string): int {
    if s == "" && t == "" then 0
    else if s == "" then -1
    else if t == "" then 1
    else if s[0] != t[0] then Sign(s[0] < t[0], s[0] > t[0])
    else CompareText(s[1..], t[1..])
  }

  function CompareStableWord(w: string): int {
    var r := WordRank(w);
    if r == STABLE then 0 else if r < STABLE then 1 else -1
  }

  /** cmpVersionToken on two tokens that are both there. */
  function CompareToken(a: Token, b: Token): int {
    match (a, b)
    case (Number(v), Number(w)) => Sign(v < w, v > w)
    case (Number(v), Word(w)) => if v != 0 then 1 else CompareStableWord(w)
    case (Word(v), Number(w)) => if w != 0 then -1 else -CompareStableWord(v)
    case (Word(v), Word(w)) =>
      var r1, r2 := WordRank(v), WordRank(w);
      if r1 != r2 then Sign(r1 < r2, r1 > r2) else if v == w then 0 else CompareText(v, w)
  }

  const ZERO := Number(0)

  /** The token at the front, the padding token when the list has ended. */
  function Front(ts: seq<Token>): Token {
    if ts == [] then ZERO else ts[0]
  }

  function Rest(ts: seq<Token>): seq<Token> {
    if ts == [] then [] else ts[1..]
  }

  function Compare(xs: seq<Token>, ys: seq<Token>): int
    decreases |xs| + |ys|
  {
    if xs == [] && ys == [] then 0
    else if CompareToken(Front(xs), Front(ys)) != 0 then CompareToken(Front(xs), Front(ys))
    else Compare(Rest(xs), Rest(ys))
  }

  /** phpVersionCmp on token lists: the index loop over the longer length. */
  method VersionCompare(ta: seq<Token>, tb: seq<Token>) returns (r: int)
    ensures r == Compare(ta, tb)
  {
    var n := |ta|;
    if |tb| > n {
      n := |tb|;
    }
    var i := 0;
    assert From(ta, 0) == ta && From(tb, 0) == tb;
    while i < n
      invariant 0 <= i <= n
      invariant Compare(From(ta, i), From(tb, i)) == Compare(ta, tb)
    {
      var pa := if i < |ta| then ta[i] else ZERO;
      var pb := if i < |tb| then tb[i] else ZERO;
      var c := CompareToken(pa, pb);
      if c != 0 {
        return c;
      }
      i := i + 1;
    }
    return 0;
  }

  function From(ts: seq<Token>, i: nat): seq<Token> {
    if i <= |ts| then ts[i..] else []
  }

  // ----- the order on known qualifiers

  /** Numbers are not negative and words are qualifiers the ranking knows. */
  predicate Known(t: Token) {
    match t
    case Number(v) => v >= 0
    case Word(w) => WordRank(w) != STABLE
  }

  predicate AllKnown(ts: seq<Token>) {
    forall i :: 0 <= i < |ts| ==> Known(ts[i])
  }

  lemma {:induction false} TextLaws(s: string, t: string, u: string)
    ensures CompareText(s, t) == -CompareText(t, s)
    ensures CompareText(s, t) == 0 <==> s == t
    ensures CompareText(s, t) <= 0 && CompareText(t, u) <= 0 ==> CompareText(s, u) <= 0
    ensures CompareText(s, t) <= 0 && CompareText(t, u) <= 0 && CompareText(s, u) == 0 ==>
      CompareText(s, t) == 0 && CompareText(t, u) == 0
    decreases |s| + |t| + |u|
  {
    if s != "" && t != "" {
      assert s == [s[0]] + s[1..] && t == [t[0]] + t[1..];
      if u != "" {
        TextLaws(s[1..], t[1..], u[1..]);
      } else {
        TextLaws(s[1..], t[1..], u);
      }
    }
  }

  function WordOf(t: Token): string {
    if t.Word? then t.word else ""
  }

  lemma TokenLaws(x: Token, y: Token, z: Token)
    requires Known(x) && Known(y) && Known(z)
    ensures CompareToken(x, y) == -CompareToken(y, x)
    ensures CompareToken(x, y) == 0 <==> x == y
    ensures CompareToken(x, y) <= 0 && CompareToken(y, z) <= 0 ==> CompareToken(x, z) <= 0
    ensures CompareToken(x, y) <= 0 && CompareToken(y, z) <= 0 && CompareToken(x, z) == 0 ==> x == y == z
  {
    hide WordRank, CompareText;
    TextLaws(WordOf(x), WordOf(y), WordOf(z));
    TextLaws(WordOf(x), WordOf(z), WordOf(y));
  }

  lemma RestKnown(ts: seq<Token>)
    requires AllKnown(ts)
    ensures AllKnown(Rest(ts)) && Known(Front(ts))
  {
  }

  /** Whatever the words, swapping the operands swaps the sign. */
  lemma {:induction false} Antisymmetric(xs: seq<Token>, ys: seq<Token>)
    ensures Compare(xs, ys) == -Compare(ys, xs)
    decreases |xs| + |ys|
  {
    hide CompareToken;
    if xs != [] || ys != [] {
      TokenAntisymmetric(Front(xs), Front(ys));
      Antisymmetric(Rest(xs), Rest(ys));
    }
  }

  lemma TokenAntisymmetric(x: Token, y: Token)
    ensures CompareToken(x, y) == -CompareToken(y, x)
  {
    hide WordRank, CompareText;
    TextLaws(WordOf(x), WordOf(y), "");
  }

  lemma ZeroKnown()
    ensures Known(ZERO)
  {
  }

  lemma {:induction false} Transitive(xs: seq<Token>, ys: seq<Token>, zs: seq<Token>)
    requires AllKnown(xs) && AllKnown(ys) && AllKnown(zs)
    requires Compare(xs, ys) <= 0 && Compare(ys, zs) <= 0
    ensures Compare(xs, zs) <= 0
    decreases |xs| + |ys| + |zs|
  {
    hide CompareToken, Known;
    if xs != [] || ys != [] || zs != [] {
      RestKnown(xs);
      RestKnown(ys);
      RestKnown(zs);
      TokenLaws(Front(xs), Front(ys), Front(zs));
      if CompareToken(Front(xs), Front(zs)) == 0 {
        Transitive(Rest(xs), Rest(ys), Rest(zs));
      }
    }
  }

  /** The list without its trailing zeros. */
  function Stripped(ts: seq<Token>): seq<Token> {
    if ts == [] then []
    else if ts[|ts| - 1] == ZERO then Stripped(ts[..|ts| - 1])
    else ts
  }

  /** Stripping from the front: what remains of the rest decides. */
  lemma {:induction false} StrippedCons(t: Token, ts: seq<Token>)
    ensures Stripped([t] + ts) == if Stripped(ts) == [] && t == ZERO then [] else [t] + Stripped(ts)
    decreases |ts|
  {
    var all := [t] + ts;
    if ts == [] {
      assert all[..|all| - 1] == [];
      assert all == [t];
    } else if ts[|ts| - 1] == ZERO {
      assert all[..|all| - 1] == [t] + ts[..|ts| - 1];
      StrippedCons(t, ts[..|ts| - 1]);
    }
  }

  lemma {:induction false} ZeroIsStrippedEqual(xs: seq<Token>, ys: seq<Token>)
    requires AllKnown(xs) && AllKnown(ys)
    ensures Compare(xs, ys) == 0 <==> Stripped(xs) == Stripped(ys)
    decreases |xs| + |ys|
  {
    hide CompareToken, Known, Stripped;
    if xs != [] || ys != [] {
      RestKnown(xs);
      RestKnown(ys);
      ZeroKnown();
      TokenLaws(Front(xs), Front(ys), ZERO);
      ZeroIsStrippedEqual(Rest(xs), Rest(ys));
      StrippedFront(xs);
      StrippedFront(ys);
      var a, b := Stripped(xs), Stripped(ys);
      assert a == [Front(xs)] + Stripped(Rest(xs)) ==> a[0] == Front(xs) && a[1..] == Stripped(Rest(xs));
      assert b == [Front(ys)] + Stripped(Rest(ys)) ==> b[0] == Front(ys) && b[1..] == Stripped(Rest(ys));
    } else {
      StrippedFront([]);
    }
  }

  /** The padding token in front of nothing strips to nothing. */
  lemma StrippedFront(ts: seq<Token>)
    ensures Stripped(ts) == if Stripped(Rest(ts)) == [] && Front(ts) == ZERO then [] else [Front(ts)] + Stripped(Rest(ts))
  {
    if ts != [] {
      assert ts == [ts[0]] + ts[1..];
      StrippedCons(ts[0], ts[1..]);
    }
  }

  /** The numbers in a token list are never negative. */
  lemma {:induction false} NumbersNotNegative(s: string)
    ensures forall t :: t in TokensOf(s) && t.Number? ==> t.val >= 0
    decreases |s|
  {
    if s != "" {
      SpanIsDigits(s);
      NumbersNotNegative(if IsDigit(s[0]) then s[DigitSpan(s)..] else if IsLower(s[0]) then s[LetterSpan(s)..] else s[1..]);
    }
  }

  /** On lists of known tokens: a total preorder, zero exactly when the lists agree up to trailing zeros. */
  lemma VersionOrderLaws(xs: seq<Token>, ys: seq<Token>, zs: seq<Token>)
    requires AllKnown(xs) && AllKnown(ys) && AllKnown(zs)
    ensures Compare(xs, xs) == 0
    ensures Compare(xs, ys) == -Compare(ys, xs)
    ensures Compare(xs, ys) <= 0 && Compare(ys, zs) <= 0 ==> Compare(xs, zs) <= 0
    ensures Compare(xs, ys) == 0 <==> Stripped(xs) == Stripped(ys)
  {
    Antisymmetric(xs, ys);
    ZeroIsStrippedEqual(xs, xs);
    ZeroIsStrippedEqual(xs, ys);
    if Compare(xs, ys) <= 0 && Compare(ys, zs) <= 0 {
      Transitive(xs, ys, zs);
    }
  }

  // ----- one word outside the ranking

  predicate Unknown(w: string) {
    WordRank(w) == STABLE
  }

  /** Tokens whose words are known, or the one unknown word w. */
  predicate KnownBut(t: Token, w: string) {
    Known(t) || t == Word(w)
  }

  predicate AllKnownBut(ts: seq<Token>, w: string) {
    forall i :: 0 <= i < |ts| ==> KnownBut(ts[i], w)
  }

  /** An unknown word stands where the number 0 stands. */
  function AsZero(t: Token, w: string): Token {
    if t == Word(w) && Unknown(w) then ZERO else t
  }

  function AllAsZero(ts: seq<Token>, w: string): (r: seq<Token>)
    ensures |r| == |ts|
    ensures AllKnownBut(ts, w) ==> AllKnown(r)
  {
    if ts == [] then [] else [AsZero(ts[0], w)] + AllAsZero(ts[1..], w)
  }

  lemma TokenAsZero(x: Token, y: Token, w: string)
    requires KnownBut(x, w) && KnownBut(y, w)
    ensures CompareToken(x, y) == CompareToken(AsZero(x, w), AsZero(y, w))
  {
    hide WordRank, CompareText;
    assert WordRank(w) == STABLE || WordRank(w) != STABLE;
    TextLaws(w, w, w);
  }

  lemma {:induction false} CompareAsZero(xs: seq<Token>, ys: seq<Token>, w: string)
    requires AllKnownBut(xs, w) && AllKnownBut(ys, w)
    ensures Compare(xs, ys) == Compare(AllAsZero(xs, w), AllAsZero(ys, w))
    decreases |xs| + |ys|
  {
    hide CompareToken, Known, AsZero;
    if xs != [] || ys != [] {
      FrontAsZero(xs, w);
      FrontAsZero(ys, w);
      TokenAsZero(Front(xs), Front(ys), w);
      CompareAsZero(Rest(xs), Rest(ys), w);
    }
  }

  lemma FrontAsZero(ts: seq<Token>, w: string)
    requires AllKnownBut(ts, w)
    ensures KnownBut(Front(ts), w) && AllKnownBut(Rest(ts), w)
    ensures Front(AllAsZero(ts, w)) == AsZero(Front(ts), w) && Rest(AllAsZero(ts, w)) == AllAsZero(Rest(ts), w)
  {
  }

  /** The laws with at most one word outside the ranking, which then counts as 0. */
  lemma LawsButOne(xs: seq<Token>, ys: seq<Token>, zs: seq<Token>, w: string)
    requires AllKnownBut(xs, w) && AllKnownBut(ys, w) && AllKnownBut(zs, w)
    ensures Compare(xs, xs) == 0
    ensures Compare(xs, ys) == -Compare(ys, xs)
    ensures Compare(xs, ys) <= 0 && Compare(ys, zs) <= 0 ==> Compare(xs, zs) <= 0
    ensures Compare(xs, ys) == 0 <==> Stripped(AllAsZero(xs, w)) == Stripped(AllAsZero(ys, w))
  {
    hide Compare, Known, Stripped;
    CompareAsZero(xs, xs, w);
    CompareAsZero(xs, ys, w);
    CompareAsZero(ys, zs, w);
    CompareAsZero(xs, zs, w);
    Antisymmetric(xs, ys);
    VersionOrderLaws(AllAsZero(xs, w), AllAsZero(ys, w), AllAsZero(zs, w));
  }

  // ----- version texts

  /** phpVersionTokens as a function. */
  function Version(text: string): seq<Token> {
    TokensOf(WithoutV(text))
  }

  /** Every word of the version text is in the vocabulary. */
  predicate TextOver(vocabulary: set<string>, text: string) {
    forall t :: t in Version(text) && t.Word? ==> t.word in vocabulary
  }

  lemma OverKnownBut(vocabulary: set<string>, text: string, w: string)
    requires TextOver(vocabulary, text) && forall v :: v in vocabulary && Unknown(v) ==> v == w
    ensures AllKnownBut(Version(text), w)
  {
    hide TokensOf, WordRank, WithoutV;
    NumbersNotNegative(WithoutV(text));
    var ts := Version(text);
    forall i | 0 <= i < |ts| ensures KnownBut(ts[i], w) {
      assert ts[i] in ts;
    }
  }

  /** version_compare on texts over a vocabulary with at most one word, w, outside the ranking. */
  lemma VersionCompareLaws(vocabulary: set<string>, w: string, a: string, b: string, c: string)
    requires forall v :: v in vocabulary && Unknown(v) ==> v == w
    requires TextOver(vocabulary, a) && TextOver(vocabulary, b) && TextOver(vocabulary, c)
    ensures
      var xs, ys, zs := Version(a), Version(b), Version(c);
      && Compare(xs, xs) == 0
      && Compare(xs, ys) == -Compare(ys, xs)
      && (Compare(xs, ys) <= 0 && Compare(ys, zs) <= 0 ==> Compare(xs, zs) <= 0)
      && (Compare(xs, ys) == 0 <==> Stripped(AllAsZero(xs, w)) == Stripped(AllAsZero(ys, w)))
  {
    hide Version, Compare, Stripped, AllAsZero, TextOver, Unknown;
    OverKnownBut(vocabulary, a, w);
    OverKnownBut(vocabulary, b, w);
    OverKnownBut(vocabulary, c, w);
    LawsButOne(Version(a), Version(b), Version(c), w);
  }

  predicate TransitiveAt(a: string, b: string, c: string) {
    Compare(Version(a), Version(b)) <= 0 && Compare(Version(b), Version(c)) <= 0 ==> Compare(Version(a), Version(c)) <= 0
  }

  ghost predicate TransitiveOver(vocabulary: set<string>) {
    forall a, b, c :: TextOver(vocabulary, a) && TextOver(vocabulary, b) && TextOver(vocabulary, c) ==> TransitiveAt(a, b, c)
  }

  /** A nonempty run of letters, as a word of a version is. */
  predicate IsWord(w: string) {
    w != "" && forall i :: 0 <= i < |w| ==> IsLower(w[i])
  }

  lemma {:induction false} LettersSpan(w: string)
    requires forall i :: 0 <= i < |w| ==> IsLower(w[i])
    ensures LetterSpan(w) == |w|
  {
    if w != "" {
      LettersSpan(w[1..]);
    }
  }

  lemma WordVersion(w: string)
    requires IsWord(w)
    ensures Version(w) == [Word(w)]
  {
    LettersSpan(w);
    assert w[..|w|] == w && w[|w|..] == "";
    assert IsLower(w[0]) && (|w| > 1 ==> IsLower(w[1]));
    NoTokens();
    assert WithoutV(w) == w;
    assert TokensOf(w) == [Word(w[..|w|])] + TokensOf(w[|w|..]);
  }

  lemma ZeroVersion(zero: string)
    requires zero == "0"
    ensures Version(zero) == [ZERO]
  {
    TokensStep(zero, 0);
    NoTokens();
    assert zero[0..] == zero && zero[1..] == "" && zero[..0] == "" && zero[0..1] == zero;
    assert DigitSpan(zero) == 1;
    assert DigitsValue(zero[..0]) == 0 && DigitsValue(zero) == 0;
    hide TokensOf, DigitSpan, DigitsValue;
    assert TokensOf(zero) == [ZERO] && WithoutV(zero) == zero;
  }

  /** Two different words outside the ranking break transitivity around "0": both compare equal to it, and not to each other. */
  lemma TwoUnknownBreak(v: string, w: string)
    requires IsWord(v) && IsWord(w) && Unknown(v) && Unknown(w) && v != w
    ensures !TransitiveAt(v, "0", w) || !TransitiveAt(w, "0", v)
  {
    hide TokensOf, WordRank, WithoutV, Version, CompareText, Compare;
    WordVersion(v);
    WordVersion(w);
    ZeroVersion("0");
    TextLaws(v, w, "");
    assert CompareToken(Word(v), Word(w)) == CompareText(v, w) && CompareToken(Word(w), Word(v)) == CompareText(w, v);
    SingleCompare(Word(v), Word(w));
    SingleCompare(Word(w), Word(v));
    SingleCompare(Word(v), ZERO);
    SingleCompare(ZERO, Word(w));
    SingleCompare(Word(w), ZERO);
    SingleCompare(ZERO, Word(v));
  }

  lemma SingleCompare(x: Token, y: Token)
    ensures Compare([x], [y]) == CompareToken(x, y)
  {
  }

  /** version_compare is transitive on the texts over a vocabulary if and only if it holds at most one word outside the ranking. */
  lemma TransitiveExactly(vocabulary: set<string>)
    requires forall w :: w in vocabulary ==> IsWord(w)
    ensures TransitiveOver(vocabulary) <==> forall v, w :: v in vocabulary && w in vocabulary && Unknown(v) && Unknown(w) ==> v == w
  {
    hide Version, Compare, Unknown, IsWord;
    if v, w :| v in vocabulary && w in vocabulary && Unknown(v) && Unknown(w) && v != w {
      TwoUnknownBreak(v, w);
      WordVersion(v);
      WordVersion(w);
      ZeroVersion("0");
      assert TextOver(vocabulary, v) && TextOver(vocabulary, "0") && TextOver(vocabulary, w);
    } else {
      var w := if u :| u in vocabulary && Unknown(u) then u else "";
      forall a, b, c | TextOver(vocabulary, a) && TextOver(vocabulary, b) && TextOver(vocabulary, c) ensures TransitiveAt(a, b, c) {
        VersionCompareLaws(vocabulary, w, a, b, c);
      }
    }
  }

  /** For one input: "y" <= "0" and "0" <= "x", and yet "y" > "x". */
  lemma UnknownWordsNotTransitive()
    ensures Compare(Version("y"), Version("0")) <= 0 && Compare(Version("0"), Version("x")) <= 0
    ensures Compare(Version("y"), Version("x")) > 0
  {
    hide Version;
    WordVersion("y");
    WordVersion("x");
    ZeroVersion("0");
    assert CompareText("y", "x") == 1;
  }
}
