/**
 The texts that unserialize reads. A form is a text taken apart: how its numbers are written,
 what its lengths and counts say, and what it contains. Its meaning is a document.
 */
module UnserializeGrammar {
  import opened Wrappers
  import opened Decimal
  import opened SerializeSpec
  import opened UnserializeSpec
  import opened SerializeSyntax

  /** A number as written: an optional sign, then digits, leading zeros allowed. */
  datatype Numeral = Numeral(sign: string, digits: string)

  datatype Form =
    | FNull
    | FBool(n: Numeral)
    | FInt(n: Numeral)
    | FFloat(text: string)
    | FStr(length: Numeral, s: string)
    | FRef(letter: char, id: Numeral)
    | FArray(count: Numeral, entries: Forms)
    | FObject(length: Numeral, cls: string, count: Numeral, entries: Forms)

  datatype Forms = Nothing | More(key: Form, val: Form, rest: Forms)

  function NumberText(m: Numeral): string {
    m.sign + m.digits
  }

  function Amount(m: Numeral): int
    requires AllDigits(m.digits)
  {
    var n: int := DigitsValue(m.digits);
    if m.sign == "-" then -n else n
  }

  predicate Number(m: Numeral) {
    m.sign in ["", "-", "+"] && m.digits != "" && AllDigits(m.digits) && IsInt64(Amount(m))
  }

  function Written(f: Form): string {
    match f
    case FNull => "N;"
    case FBool(n) => "b:" + NumberText(n) + ";"
    case FInt(n) => "i:" + NumberText(n) + ";"
    case FFloat(text) => "d:" + text + ";"
    case FStr(length, s) => "s:" + NumberText(length) + ":\"" + s + "\";"
    case FRef(letter, id) => [letter] + ":" + NumberText(id) + ";"
    case FArray(count, entries) => "a:" + NumberText(count) + ":{" + WrittenAll(entries) + "}"
    case FObject(length, cls, count, entries) =>
      "O:" + NumberText(length) + ":\"" + cls + "\":" + NumberText(count) + ":{" + WrittenAll(entries) + "}"
  }

  function WrittenAll(fs: Forms): string {
    match fs
    case Nothing => ""
    case More(key, val, rest) => Written(key) + Written(val) + WrittenAll(rest)
  }

  function Size(fs: Forms): nat {
    match fs
    case Nothing => 0
    case More(_, _, rest) => 1 + Size(rest)
  }

  /** A length is exact; a count is exact, or negative when there are no entries. */
  predicate Proper(f: Form) {
    match f
    case FNull => true
    case FBool(n) => Number(n)
    case FInt(n) => Number(n)
    case FFloat(text) => ';' !in text
    case FStr(length, s) => Number(length) && Amount(length) == |s|
    case FRef(letter, id) => Number(id) && letter in "Rr"
    case FArray(count, entries) => Counts(count, entries) && AllProper(entries)
    case FObject(length, cls, count, entries) =>
      Number(length) && Amount(length) == |cls| && Counts(count, entries) && AllProper(entries)
  }

  predicate Counts(count: Numeral, entries: Forms) {
    Number(count) && (Amount(count) == Size(entries) || (Amount(count) < 0 && entries == Nothing))
  }

  predicate AllProper(fs: Forms) {
    match fs
    case Nothing => true
    case More(key, val, rest) => Proper(key) && Proper(val) && AllProper(rest)
  }

  function Meaning(f: Form): Doc
    requires Proper(f)
  {
    match f
    case FNull => DNull
    case FBool(n) => DBool(Amount(n) != 0)
    case FInt(n) => DInt(Amount(n))
    case FFloat(text) => DFloat(text)
    case FStr(_, s) => DStr(s)
    case FRef(letter, id) => DRef(letter == 'R', if Amount(id) < 0 then 0 else Amount(id))
    case FArray(_, entries) => DArray(MeaningAll(entries))
    case FObject(_, cls, _, entries) => DObject(cls, MeaningAll(entries))
  }

  function MeaningAll(fs: Forms): Items
    requires AllProper(fs)
  {
    match fs
    case Nothing => End
    case More(key, val, rest) => Entry(Meaning(key), Meaning(val), MeaningAll(rest))
  }

  // ----- numbers

  predicate EndsNumber(rest: string) {
    rest == "" || !IsDigit(rest[0])
  }

  lemma ReadNumber(m: Numeral, rest: string)
    requires Number(m) && EndsNumber(rest)
    ensures ReadInt(NumberText(m) + rest) == Some((Amount(m), rest))
  {
    hide DigitSpan, DigitsValue;
    var r := NumberText(m) + rest;
    assert !IsSign(m.digits[0]);
    assert r[|m.sign|..] == m.digits + rest;
    assert r[..|m.sign| + |m.digits|] == NumberText(m);
    assert r[|m.sign| + |m.digits|..] == rest;
    assert r[0] == (if m.sign == "" then m.digits[0] else m.sign[0]);
    DigitSpanAt(m.digits, rest);
    ParseNumber(m);
  }

  lemma ParseNumber(m: Numeral)
    requires Number(m)
    ensures ParseInt64(NumberText(m)) == Some(Amount(m))
  {
    hide DigitsValue;
    assert !IsSign(m.digits[0]);
    var s := NumberText(m);
    if m.sign == "" {
      assert s == m.digits;
    } else {
      assert s[1..] == m.digits && s[0] == m.sign[0];
    }
  }

  lemma NumberRead(r: string) returns (m: Numeral)
    requires ReadInt(r).Some?
    ensures Number(m) && Amount(m) == ReadInt(r).value.0 && r == NumberText(m) + ReadInt(r).value.1
  {
    hide DigitSpan, DigitsValue;
    var sign := if r != "" && IsSign(r[0]) then 1 else 0;
    var n := DigitSpan(r[sign..]);
    m := Numeral(r[..sign], r[sign..sign + n]);
    SpanIsDigits(r[sign..]);
    assert r[sign..][..n] == m.digits;
    var s := r[..sign + n];
    assert s == NumberText(m) && r == s + r[sign + n..];
    assert sign == 1 ==> s[0] == r[0] && s[1..] == m.digits && m.sign == [r[0]];
    assert sign == 0 ==> s == m.digits && !IsSign(s[0]) && m.sign == "";
  }

  lemma ReadHead(m: Numeral, c: char, rest: string)
    requires Number(m) && !IsDigit(c)
    ensures ReadHeader(":" + NumberText(m) + ([c] + rest), c) == Some((Amount(m), rest))
  {
    hide ReadInt, NumberText, Amount;
    var tail := [c] + rest;
    var r := ":" + NumberText(m) + tail;
    assert r[1..] == NumberText(m) + tail;
    ReadNumber(m, tail);
    assert tail[1..] == rest;
  }

  lemma HeadRead(r: string, c: char) returns (m: Numeral)
    requires ReadHeader(r, c).Some?
    ensures Number(m) && Amount(m) == ReadHeader(r, c).value.0
    ensures r == ":" + NumberText(m) + ([c] + ReadHeader(r, c).value.1)
  {
    hide ReadInt, NumberText, Amount;
    m := NumberRead(r[1..]);
    var r2 := ReadInt(r[1..]).value.1;
    assert r == [r[0]] + r[1..] && r2 == [c] + r2[1..];
  }

  lemma ReadString(m: Numeral, s: string, rest: string)
    requires Number(m) && Amount(m) == |s|
    ensures ReadQuoted(":" + NumberText(m) + (":\"" + s + "\"" + rest)) == Some((s, rest))
  {
    hide ReadHeader, NumberText, Amount;
    var tail := "\"" + rest;
    var text := s + tail;
    assert ":\"" + s + "\"" + rest == ":" + ("\"" + text);
    ReadHead(m, ':', "\"" + text);
    assert ("\"" + text)[1..] == text;
    assert text[..|s|] == s && text[|s|..] == tail;
    assert tail[1..] == rest;
  }

  lemma StringRead(r: string) returns (m: Numeral)
    requires ReadQuoted(r).Some?
    ensures
      var (s, rest) := ReadQuoted(r).value;
      Number(m) && Amount(m) == |s| && r == ":" + NumberText(m) + (":\"" + s + "\"" + rest)
  {
    hide ReadHeader, NumberText, Amount;
    m := HeadRead(r, ':');
    var (n, r1) := ReadHeader(r, ':').value;
    var r2 := r1[1..];
    var (s, rest) := ReadQuoted(r).value;
    assert r2[n..] == "\"" + rest;
    assert r2 == s + r2[n..];
    assert r1 == "\"" + r2;
    assert ":" + r1 == ":\"" + s + "\"" + rest;
  }

  lemma UntilRead(r: string, c: char)
    requires ReadUntil(r, c).Some?
    ensures
      var (tok, rest) := ReadUntil(r, c).value;
      c !in tok && r == tok + ([c] + rest)
  {
    if r[0] != c {
      UntilRead(r[1..], c);
    }
  }

  // ----- every form is read as its meaning

  lemma ReadsScalar(opt: Options, f: Form, rest: string, st: State)
    requires Proper(f) && (f.FNull? || f.FBool? || f.FInt?)
    ensures ParseValue(opt, Written(f) + rest, st) == Outcome(Eval(opt, Meaning(f), st), rest)
  {
    hide ReadHeader, ReadQuoted, ParseRef, ParseArray, ParseObject, ParseFloatTail, NumberText, Amount;
    var r := Written(f) + rest;
    if !f.FNull? {
      assert r[1..] == ":" + NumberText(f.n) + ([';'] + rest);
      ReadHead(f.n, ';', rest);
    }
  }

  lemma ReadsFloat(opt: Options, f: Form, rest: string, st: State)
    requires Proper(f) && f.FFloat?
    ensures ParseValue(opt, Written(f) + rest, st) == Outcome(Eval(opt, Meaning(f), st), rest)
  {
    hide ReadHeader, ReadQuoted, ParseRef, ParseArray, ParseObject, ReadUntil;
    var r := Written(f) + rest;
    assert r[1..] == ":" + (f.text + ([';'] + rest));
    assert r[1..][1..] == f.text + ([';'] + rest);
    ReadUntilOf(f.text, ';', rest);
  }

  lemma ReadsStr(opt: Options, f: Form, rest: string, st: State)
    requires Proper(f) && f.FStr?
    ensures ParseValue(opt, Written(f) + rest, st) == Outcome(Eval(opt, Meaning(f), st), rest)
  {
    hide ReadHeader, ReadQuoted, ParseRef, ParseArray, ParseObject, ParseFloatTail, NumberText, Amount;
    var r := Written(f) + rest;
    assert r[1..] == ":" + NumberText(f.length) + (":\"" + f.s + "\"" + (";" + rest));
    ReadString(f.length, f.s, ";" + rest);
    assert (";" + rest)[1..] == rest;
  }

  lemma ReadsRef(opt: Options, f: Form, rest: string, st: State)
    requires Proper(f) && f.FRef?
    ensures ParseValue(opt, Written(f) + rest, st) == Outcome(Eval(opt, Meaning(f), st), rest)
  {
    hide ReadHeader, ReadQuoted, ParseArray, ParseObject, ParseFloatTail, NumberText, Amount;
    var r := Written(f) + rest;
    assert r[1..] == ":" + NumberText(f.id) + ([';'] + rest);
    ReadHead(f.id, ';', rest);
  }

  lemma ReadsArrayHead(opt: Options, count: Numeral, body: string, st: State)
    requires Number(count)
    ensures ParseValue(opt, "a:" + NumberText(count) + ":{" + body, st)
         == if TooDeep(opt, st) then None else ParseBody(opt, body, OpenArray(st), |st.refs|, Amount(count))
  {
    hide ReadHeader, ReadQuoted, ParseRef, ParseObject, ParseFloatTail, ParseBody, NumberText, Amount;
    var r, tail := "a:" + NumberText(count) + ":{" + body, "{" + body;
    assert r[1..] == ":" + NumberText(count) + ([':'] + tail);
    ReadHead(count, ':', tail);
    assert tail[1..] == body;
  }

  lemma ReadsObjectHead(opt: Options, length: Numeral, cls: string, count: Numeral, body: string, st: State)
    requires Number(length) && Amount(length) == |cls| && Number(count)
    ensures ParseValue(opt, "O:" + NumberText(length) + ":\"" + cls + "\":" + NumberText(count) + ":{" + body, st)
         == if TooDeep(opt, st) then None else ParseBody(opt, body, OpenObject(opt, st, cls), |st.refs|, Amount(count))
  {
    hide ReadHeader, ReadQuoted, ParseRef, ParseArray, ParseFloatTail, ParseBody, NumberText, Amount;
    var r := "O:" + NumberText(length) + ":\"" + cls + "\":" + NumberText(count) + ":{" + body;
    var tail := "{" + body;
    var middle := ":" + NumberText(count) + ([':'] + tail);
    assert r[1..] == ":" + NumberText(length) + (":\"" + cls + "\"" + middle);
    ReadString(length, cls, middle);
    ReadHead(count, ':', tail);
    assert tail[1..] == body;
  }

  /** Whatever follows it, a proper form is read as its meaning. */
  lemma {:induction false} FormIsRead(opt: Options, f: Form, rest: string, st: State)
    requires Proper(f)
    ensures ParseValue(opt, Written(f) + rest, st) == Outcome(Eval(opt, Meaning(f), st), rest)
    decreases f, 2
  {
    hide ParseValue, ParseBody, NumberText, Amount, Number;
    match f {
      case FNull => ReadsScalar(opt, f, rest, st);
      case FBool(n) => ReadsScalar(opt, f, rest, st);
      case FInt(n) => ReadsScalar(opt, f, rest, st);
      case FFloat(text) => ReadsFloat(opt, f, rest, st);
      case FStr(length, s) => ReadsStr(opt, f, rest, st);
      case FRef(letter, id) => ReadsRef(opt, f, rest, st);
      case FArray(count, entries) =>
        var body := WrittenAll(entries) + ("}" + rest);
        assert Written(f) + rest == "a:" + NumberText(count) + ":{" + body;
        ReadsArrayHead(opt, count, body, st);
        if !TooDeep(opt, st) {
          BodyIsRead(opt, count, entries, rest, OpenArray(st), |st.refs|);
        }
      case FObject(length, cls, count, entries) =>
        var body := WrittenAll(entries) + ("}" + rest);
        assert Written(f) + rest == "O:" + NumberText(length) + ":\"" + cls + "\":" + NumberText(count) + ":{" + body;
        ReadsObjectHead(opt, length, cls, count, body, st);
        if !TooDeep(opt, st) {
          BodyIsRead(opt, count, entries, rest, OpenObject(opt, st, cls), |st.refs|);
        }
    }
  }

  lemma {:induction false} BodyIsRead(opt: Options, count: Numeral, fs: Forms, rest: string, st: State, k: nat)
    requires AllProper(fs) && Counts(count, fs) && k < |st.refs| && st.depth > 0
    ensures ParseBody(opt, WrittenAll(fs) + ("}" + rest), st, k, Amount(count)) == Outcome(EvalBody(opt, MeaningAll(fs), st, k), rest)
    decreases fs, 1
  {
    hide ParseEntries, EvalEntries, WrittenAll, Amount;
    var r := "}" + rest;
    EntriesAreRead(opt, fs, r, st, k);
    NoEntries(opt, WrittenAll(fs) + r, st, k, Amount(count));
    NoEntries(opt, WrittenAll(fs) + r, st, k, Size(fs));
    assert r[1..] == rest;
  }

  lemma NoEntries(opt: Options, r: string, st: State, k: nat, n: int)
    requires k < |st.refs|
    ensures n <= 0 ==> ParseEntries(opt, r, st, k, n) == Some((r, st))
  {
  }

  lemma {:induction false} EntriesAreRead(opt: Options, fs: Forms, rest: string, st: State, k: nat)
    requires AllProper(fs) && k < |st.refs|
    ensures ParseEntries(opt, WrittenAll(fs) + rest, st, k, Size(fs))
         == match EvalEntries(opt, MeaningAll(fs), st, k) case None => None case Some(st') => Some((rest, st'))
    decreases fs, 0
  {
    hide ParseValue, Eval, Put, Written, Meaning;
    match fs {
      case Nothing =>
        assert WrittenAll(fs) + rest == rest;
      case More(key, val, more) =>
        var afterKey := Written(val) + (WrittenAll(more) + rest);
        assert WrittenAll(fs) + rest == Written(key) + afterKey;
        FormIsRead(opt, key, afterKey, st);
        if Eval(opt, Meaning(key), st).Some? {
          var (kv, st1) := Eval(opt, Meaning(key), st).value;
          FormIsRead(opt, val, WrittenAll(more) + rest, st1);
          if Eval(opt, Meaning(val), st1).Some? {
            var (v, st2) := Eval(opt, Meaning(val), st1).value;
            PutKeepsLength(opt, st2, k, kv, v);
            EntriesAreRead(opt, more, rest, Put(opt, st2, k, kv, v), k);
          }
        }
    }
  }

  // ----- everything that is read is a form

  /** f is the form that a successful parse of r has read. */
  predicate IsForm(opt: Options, r: string, st: State, f: Form)
    requires ParseValue(opt, r, st).Some?
  {
    Proper(f) && r == Written(f) + ParseValue(opt, r, st).value.rest
  }

  lemma NullForm(opt: Options, r: string, st: State)
    requires ParseValue(opt, r, st).Some? && r[0] == 'N'
    ensures IsForm(opt, r, st, FNull)
  {
    hide ReadHeader, ReadQuoted, ParseRef, ParseArray, ParseObject, ParseFloatTail;
    assert r == "N;" + ParseValue(opt, r, st).value.rest;
  }

  lemma NumberForm(opt: Options, r: string, st: State) returns (f: Form)
    requires ParseValue(opt, r, st).Some? && r[0] in "bi"
    ensures IsForm(opt, r, st, f)
  {
    hide ParseValue, ReadHeader, NumberText, Amount, Number;
    NumberTail(opt, r, st);
    var m := HeadRead(r[1..], ';');
    var rest := ParseValue(opt, r, st).value.rest;
    f := if r[0] == 'b' then FBool(m) else FInt(m);
    assert r == [r[0]] + r[1..];
    assert [r[0]] + (":" + NumberText(m) + ([';'] + rest)) == [r[0]] + ":" + NumberText(m) + ";" + rest;
  }

  lemma NumberTail(opt: Options, r: string, st: State)
    requires ParseValue(opt, r, st).Some? && r[0] in "bi"
    ensures ReadHeader(r[1..], ';').Some? && ReadHeader(r[1..], ';').value.1 == ParseValue(opt, r, st).value.rest
  {
    hide ReadHeader, ReadQuoted, ParseRef, ParseArray, ParseObject, ParseFloatTail;
  }

  lemma FloatForm(opt: Options, r: string, st: State) returns (f: Form)
    requires ParseValue(opt, r, st).Some? && r[0] == 'd'
    ensures IsForm(opt, r, st, f)
  {
    hide ReadHeader, ReadQuoted, ParseRef, ParseArray, ParseObject, ReadUntil;
    UntilRead(r[2..], ';');
    assert r[1..][1..] == r[2..] && r == "d:" + r[2..];
    f := FFloat(ReadUntil(r[2..], ';').value.0);
  }

  lemma StrForm(opt: Options, r: string, st: State) returns (f: Form)
    requires ParseValue(opt, r, st).Some? && r[0] == 's'
    ensures IsForm(opt, r, st, f)
  {
    hide ReadHeader, ReadQuoted, ParseRef, ParseArray, ParseObject, ParseFloatTail, NumberText, Amount;
    var m := StringRead(r[1..]);
    var (s, r1) := ReadQuoted(r[1..]).value;
    assert r == [r[0]] + r[1..] && r1 == ";" + r1[1..];
    f := FStr(m, s);
  }

  lemma RefForm(opt: Options, r: string, st: State) returns (f: Form)
    requires ParseValue(opt, r, st).Some? && r[0] in "Rr"
    ensures IsForm(opt, r, st, f)
  {
    hide ReadHeader, ReadQuoted, ParseArray, ParseObject, ParseFloatTail, NumberText, Amount;
    var m := HeadRead(r[1..], ';');
    assert r == [r[0]] + r[1..];
    f := FRef(r[0], m);
  }

  lemma ArrayHeadRead(opt: Options, r: string, st: State) returns (count: Numeral, body: string)
    requires ParseValue(opt, r, st).Some? && r[0] == 'a'
    ensures Number(count) && r == "a:" + NumberText(count) + ":{" + body
  {
    hide ReadHeader, ReadQuoted, ParseRef, ParseObject, ParseFloatTail, ParseBody, NumberText, Amount;
    count := HeadRead(r[1..], ':');
    var r1 := ReadHeader(r[1..], ':').value.1;
    body := r1[1..];
    assert r == [r[0]] + r[1..] && r1 == "{" + body;
  }

  lemma ObjectHeadRead(opt: Options, r: string, st: State)
    returns (length: Numeral, cls: string, count: Numeral, body: string)
    requires ParseValue(opt, r, st).Some? && r[0] == 'O'
    ensures Number(length) && Amount(length) == |cls| && Number(count)
    ensures r == "O:" + NumberText(length) + ":\"" + cls + "\":" + NumberText(count) + ":{" + body
  {
    hide ReadHeader, ReadQuoted, ParseRef, ParseArray, ParseFloatTail, ParseBody, NumberText, Amount;
    length := StringRead(r[1..]);
    var (name, r1) := ReadQuoted(r[1..]).value;
    cls := name;
    count := HeadRead(r1, ':');
    var r2 := ReadHeader(r1, ':').value.1;
    body := r2[1..];
    assert r == [r[0]] + r[1..] && r2 == "{" + body;
  }

  /** What is read in front of the unread rest is a proper form. */
  lemma {:induction false} ReadIsForm(opt: Options, r: string, st: State) returns (f: Form)
    requires ParseValue(opt, r, st).Some?
    ensures IsForm(opt, r, st, f)
    decreases |r|, 0
  {
    hide ParseValue, ParseBody, NumberText, Amount, Number, Counts;
    KnownLetter(opt, r, st);
    if r[0] == 'N' {
      NullForm(opt, r, st);
      f := FNull;
    } else if r[0] in "bi" {
      f := NumberForm(opt, r, st);
    } else if r[0] == 'd' {
      f := FloatForm(opt, r, st);
    } else if r[0] == 's' {
      f := StrForm(opt, r, st);
    } else if r[0] in "Rr" {
      f := RefForm(opt, r, st);
    } else if r[0] == 'a' {
      var count, body := ArrayHeadRead(opt, r, st);
      ReadsArrayHead(opt, count, body, st);
      var fs := ReadIsBody(opt, body, OpenArray(st), |st.refs|, count);
      var rest := ParseValue(opt, r, st).value.rest;
      f := FArray(count, fs);
      assert Written(f) + rest == "a:" + NumberText(count) + ":{" + (WrittenAll(fs) + ("}" + rest));
    } else {
      var length, cls, count, body := ObjectHeadRead(opt, r, st);
      ReadsObjectHead(opt, length, cls, count, body, st);
      var fs := ReadIsBody(opt, body, OpenObject(opt, st, cls), |st.refs|, count);
      var rest := ParseValue(opt, r, st).value.rest;
      f := FObject(length, cls, count, fs);
      assert Written(f) + rest
          == "O:" + NumberText(length) + ":\"" + cls + "\":" + NumberText(count) + ":{" + (WrittenAll(fs) + ("}" + rest));
    }
  }

  lemma KnownLetter(opt: Options, r: string, st: State)
    requires ParseValue(opt, r, st).Some?
    ensures r != "" && r[0] in "NbidsaORr"
  {
    hide ReadHeader, ReadQuoted, ParseRef, ParseArray, ParseObject, ParseFloatTail;
  }

  lemma {:induction false} ReadIsBody(opt: Options, r: string, st: State, k: nat, count: Numeral) returns (fs: Forms)
    requires k < |st.refs| && st.depth > 0 && Number(count) && ParseBody(opt, r, st, k, Amount(count)).Some?
    ensures AllProper(fs) && Counts(count, fs)
    ensures r == WrittenAll(fs) + ("}" + ParseBody(opt, r, st, k, Amount(count)).value.rest)
    decreases |r|, 2
  {
    hide ParseEntries, Proper, Written, NumberText, Amount;
    fs := ReadIsEntries(opt, r, st, k, Amount(count));
    var r1 := ParseEntries(opt, r, st, k, Amount(count)).value.0;
    assert r1 == "}" + r1[1..];
  }

  lemma {:induction false} ReadIsEntries(opt: Options, r: string, st: State, k: nat, n: int) returns (fs: Forms)
    requires k < |st.refs| && ParseEntries(opt, r, st, k, n).Some?
    ensures AllProper(fs) && (Size(fs) == n || (n < 0 && fs == Nothing))
    ensures r == WrittenAll(fs) + ParseEntries(opt, r, st, k, n).value.0
    decreases |r|, 1
  {
    hide ParseValue, Put, Proper, Written;
    if n <= 0 {
      fs := Nothing;
    } else {
      var key := ParseValue(opt, r, st).value;
      var val := ParseValue(opt, key.rest, key.st).value;
      var kf := ReadIsForm(opt, r, st);
      var vf := ReadIsForm(opt, key.rest, key.st);
      PutKeepsLength(opt, val.st, k, key.v, val.v);
      var more := ReadIsEntries(opt, val.rest, Put(opt, val.st, k, key.v, val.v), k, n - 1);
      fs := More(kf, vf, more);
    }
  }
}
