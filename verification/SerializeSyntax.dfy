/**
 The printed text is unambiguous: parsing the text of a document, whatever follows it, is
 the same as interpreting the document directly.
 */
module SerializeSyntax {
  import opened Wrappers
  import opened Decimal
  import opened PhpValues
  import opened SerializeSpec
  import opened UnserializeSpec

  // ----- interpreting a document

  function Eval(opt: Options, d: Doc, st: State): (res: Option<(Value, State)>)
    ensures res.Some? ==> |res.value.1.refs| >= |st.refs| && res.value.1.depth == st.depth
    decreases d
  {
    match d
    case DNull => Some((Null, st))
    case DBool(b) => Some((Bool(b), st))
    case DInt(n) => Some((Int(n), st))
    case DFloat(text) =>
      var f :- opt.parseFloat(text);
      Some((Float(f), st))
    case DStr(s) => Some((Str(s), st))
    case DRef(_, id) =>
      var v :- BackRef(st, id);
      Some((v, st))
    case DArray(items) => if TooDeep(opt, st) then None else EvalBody(opt, items, OpenArray(st), |st.refs|)
    case DObject(cls, items) =>
      if TooDeep(opt, st) then None else EvalBody(opt, items, OpenObject(opt, st, cls), |st.refs|)
  }

  function EvalBody(opt: Options, items: Items, st: State, k: nat): (res: Option<(Value, State)>)
    requires k < |st.refs| && st.depth > 0
    ensures res.Some? ==> |res.value.1.refs| >= |st.refs| && res.value.1.depth == st.depth - 1
    decreases items, 1
  {
    var st1 :- EvalEntries(opt, items, st, k);
    Some((st1.refs[k], st1.(depth := st1.depth - 1)))
  }

  function EvalEntries(opt: Options, items: Items, st: State, k: nat): (res: Option<State>)
    requires k < |st.refs|
    ensures res.Some? ==> |res.value.refs| >= |st.refs| && res.value.depth == st.depth
    decreases items, 0
  {
    match items
    case End => Some(st)
    case Entry(key, val, rest) =>
      var (kv, st1) :- Eval(opt, key, st);
      var (v, st2) :- Eval(opt, val, st1);
      EvalEntries(opt, rest, Put(opt, st2, k, kv, v), k)
  }

  // ----- documents whose numbers fit an int64

  predicate WellFormed(d: Doc) {
    match d
    case DNull => true
    case DBool(_) => true
    case DInt(n) => IsInt64(n)
    case DFloat(text) => ';' !in text
    case DStr(s) => |s| <= MAX_INT64
    case DRef(_, id) => id <= MAX_INT64
    case DArray(items) => Count(items) <= MAX_INT64 && WellFormedItems(items)
    case DObject(cls, items) => |cls| <= MAX_INT64 && Count(items) <= MAX_INT64 && WellFormedItems(items)
  }

  predicate WellFormedItems(items: Items) {
    match items
    case End => true
    case Entry(key, val, rest) => WellFormed(key) && WellFormed(val) && WellFormedItems(rest)
  }

  // ----- numbers and quoted strings

  lemma ReadIntOf(n: int, rest: string)
    requires IsInt64(n) && (rest == "" || !IsDigit(rest[0]))
    ensures ReadInt(FormatInt(n) + rest) == Some((n, rest))
  {
    hide ParseInt64, FormatNat, DigitSpan;
    ParseFormatInt(n);
    var r := FormatInt(n) + rest;
    var sign := if n < 0 then 1 else 0;
    var body := FormatNat(if n < 0 then -n else n);
    assert r[sign..] == body + rest;
    assert r[0] == if n < 0 then '-' else body[0];
    DigitSpanAt(body, rest);
    var m := sign + |body|;
    assert r[..m] == FormatInt(n) && r[m..] == rest;
  }

  lemma ReadHeaderOf(n: int, c: char, rest: string)
    requires IsInt64(n) && !IsDigit(c)
    ensures ReadHeader(Header(n, c) + rest, c) == Some((n, rest))
  {
    hide ReadInt, FormatInt;
    var r, tail := Header(n, c) + rest, [c] + rest;
    assert r[0] == ':' && r[1..] == FormatInt(n) + tail;
    ReadIntOf(n, tail);
    assert tail[1..] == rest;
  }

  lemma ReadQuotedOf(s: string, rest: string)
    requires |s| <= MAX_INT64
    ensures ReadQuoted(Quoted(s) + rest) == Some((s, rest))
  {
    hide ReadHeader, Header;
    var tail := "\"" + rest;
    var text := s + tail;
    assert Quoted(s) + rest == Header(|s|, ':') + ("\"" + text);
    ReadHeaderOf(|s|, ':', "\"" + text);
    assert ("\"" + text)[1..] == text;
    assert text[..|s|] == s && text[|s|..] == tail;
    assert tail[1..] == rest;
  }

  lemma {:induction false} ReadUntilOf(tok: string, c: char, rest: string)
    requires c !in tok
    ensures ReadUntil(tok + ([c] + rest), c) == Some((tok, rest))
  {
    var r := tok + ([c] + rest);
    if tok == "" {
      assert r == [c] + rest && r[1..] == rest;
    } else {
      assert r[1..] == tok[1..] + ([c] + rest);
      ReadUntilOf(tok[1..], c, rest);
      assert [tok[0]] + tok[1..] == tok;
    }
  }

  // ----- one lemma for each kind of document

  function Outcome(e: Option<(Value, State)>, rest: string): Option<Parsed> {
    match e
    case None => None
    case Some((v, st)) => Some(Parsed(v, rest, st))
  }

  lemma ParsePrintedNull(opt: Options, rest: string, st: State)
    ensures ParseValue(opt, "N;" + rest, st) == Some(Parsed(Null, rest, st))
  {
  }

  lemma ParsePrintedInt(opt: Options, n: int, rest: string, st: State)
    requires IsInt64(n)
    ensures ParseValue(opt, PrintInt(n) + rest, st) == Some(Parsed(Int(n), rest, st))
  {
    hide ReadHeader, ReadQuoted, ParseRef, ParseArray, ParseObject, ParseFloatTail, Header;
    var r := PrintInt(n) + rest;
    assert r[0] == 'i' && r[1..] == Header(n, ';') + rest;
    ReadHeaderOf(n, ';', rest);
  }

  lemma ParsePrintedBool(opt: Options, b: bool, rest: string, st: State)
    ensures ParseValue(opt, PrintBool(b) + rest, st) == Some(Parsed(Bool(b), rest, st))
  {
    hide ReadHeader, ReadQuoted, ParseRef, ParseArray, ParseObject, ParseFloatTail;
    var r := PrintBool(b) + rest;
    var n := if b then 1 else 0;
    assert FormatInt(n) == [DigitChar(n)];
    assert r[0] == 'b' && r[1..] == Header(n, ';') + rest;
    ReadHeaderOf(n, ';', rest);
  }

  lemma ParsePrintedStr(opt: Options, s: string, rest: string, st: State)
    requires |s| <= MAX_INT64
    ensures ParseValue(opt, PrintStr(s) + rest, st) == Some(Parsed(Str(s), rest, st))
  {
    hide ReadHeader, ReadQuoted, ParseRef, ParseArray, ParseObject, ParseFloatTail, Quoted;
    var r := PrintStr(s) + rest;
    assert r[0] == 's' && r[1..] == Quoted(s) + (";" + rest);
    ReadQuotedOf(s, ";" + rest);
    assert (";" + rest)[1..] == rest;
  }

  lemma ParsePrintedFloat(opt: Options, text: string, rest: string, st: State)
    requires ';' !in text
    ensures ParseValue(opt, PrintFloat(text) + rest, st) == Outcome(Eval(opt, DFloat(text), st), rest)
  {
    hide ReadHeader, ReadQuoted, ParseRef, ParseArray, ParseObject, ReadUntil;
    var r := PrintFloat(text) + rest;
    assert r[0] == 'd' && r[1..] == ":" + (text + ([';'] + rest));
    assert r[1..][1..] == text + ([';'] + rest);
    ReadUntilOf(text, ';', rest);
  }

  lemma ParsePrintedRef(opt: Options, isArray: bool, id: nat, rest: string, st: State)
    requires id <= MAX_INT64
    ensures ParseValue(opt, PrintRef(isArray, id) + rest, st) == Outcome(Eval(opt, DRef(isArray, id), st), rest)
  {
    hide ReadHeader, ReadQuoted, ParseArray, ParseObject, ParseFloatTail, Header;
    var r := PrintRef(isArray, id) + rest;
    assert r[0] == (if isArray then 'R' else 'r') && r[1..] == Header(id, ';') + rest;
    ReadHeaderOf(id, ';', rest);
  }

  lemma ArrayHeadOf(opt: Options, count: nat, body: string, st: State)
    requires count <= MAX_INT64
    ensures ParseValue(opt, ArrayHead(count) + body, st)
         == if TooDeep(opt, st) then None else ParseBody(opt, body, OpenArray(st), |st.refs|, count)
  {
    hide ReadHeader, ReadQuoted, ParseRef, ParseObject, ParseFloatTail, Header, ParseBody;
    var r, tail := ArrayHead(count) + body, "{" + body;
    assert r[0] == 'a' && r[1..] == Header(count, ':') + tail;
    ReadHeaderOf(count, ':', tail);
    assert tail[1..] == body;
  }

  lemma ObjectHeadOf(opt: Options, cls: string, count: nat, body: string, st: State)
    requires |cls| <= MAX_INT64 && count <= MAX_INT64
    ensures ParseValue(opt, ObjectHead(cls, count) + body, st)
         == if TooDeep(opt, st) then None else ParseBody(opt, body, OpenObject(opt, st, cls), |st.refs|, count)
  {
    hide ReadHeader, ReadQuoted, ParseRef, ParseArray, ParseFloatTail, Quoted, Header, ParseBody;
    var r, tail := ObjectHead(cls, count) + body, "{" + body;
    assert r[0] == 'O' && r[1..] == Quoted(cls) + (Header(count, ':') + tail);
    ReadQuotedOf(cls, Header(count, ':') + tail);
    ReadHeaderOf(count, ':', tail);
    assert tail[1..] == body;
  }

  // ----- the theorem

  /** Parsing the text of a document is interpreting the document, for every text that follows. */
  lemma {:induction false} ParsePrint(opt: Options, d: Doc, rest: string, st: State)
    requires WellFormed(d)
    ensures ParseValue(opt, Print(d) + rest, st) == Outcome(Eval(opt, d, st), rest)
    decreases d, 2
  {
    hide ParseValue, ParseBody, PrintInt, PrintBool, PrintStr, PrintFloat, PrintRef, ArrayHead, ObjectHead;
    match d {
      case DNull =>
        assert Print(d) == "N;";
        ParsePrintedNull(opt, rest, st);
      case DBool(b) => ParsePrintedBool(opt, b, rest, st);
      case DInt(n) => ParsePrintedInt(opt, n, rest, st);
      case DFloat(text) => ParsePrintedFloat(opt, text, rest, st);
      case DStr(s) => ParsePrintedStr(opt, s, rest, st);
      case DRef(isArray, id) => ParsePrintedRef(opt, isArray, id, rest, st);
      case DArray(items) =>
        var body := PrintItems(items) + ("}" + rest);
        assert Print(d) + rest == ArrayHead(Count(items)) + body;
        ArrayHeadOf(opt, Count(items), body, st);
        if !TooDeep(opt, st) {
          ParsePrintBody(opt, items, rest, OpenArray(st), |st.refs|);
        }
      case DObject(cls, items) =>
        var body := PrintItems(items) + ("}" + rest);
        assert Print(d) + rest == ObjectHead(cls, Count(items)) + body;
        ObjectHeadOf(opt, cls, Count(items), body, st);
        if !TooDeep(opt, st) {
          ParsePrintBody(opt, items, rest, OpenObject(opt, st, cls), |st.refs|);
        }
    }
  }

  lemma {:induction false} ParsePrintBody(opt: Options, items: Items, rest: string, st: State, k: nat)
    requires WellFormedItems(items) && k < |st.refs| && st.depth > 0
    ensures ParseBody(opt, PrintItems(items) + ("}" + rest), st, k, Count(items))
         == Outcome(EvalBody(opt, items, st, k), rest)
    decreases items, 1
  {
    hide ParseEntries, EvalEntries, PrintItems;
    ParsePrintEntries(opt, items, "}" + rest, st, k);
    assert ("}" + rest)[1..] == rest;
  }

  lemma {:induction false} ParsePrintEntries(opt: Options, items: Items, rest: string, st: State, k: nat)
    requires WellFormedItems(items) && k < |st.refs|
    ensures ParseEntries(opt, PrintItems(items) + rest, st, k, Count(items))
         == match EvalEntries(opt, items, st, k) case None => None case Some(st') => Some((rest, st'))
    decreases items, 0
  {
    hide ParseValue, Eval, Put, Print;
    match items {
      case End =>
        assert PrintItems(items) + rest == rest;
      case Entry(key, val, more) =>
        var afterKey := Print(val) + (PrintItems(more) + rest);
        assert PrintItems(items) + rest == Print(key) + afterKey;
        ParsePrint(opt, key, afterKey, st);
        if Eval(opt, key, st).Some? {
          var (kv, st1) := Eval(opt, key, st).value;
          ParsePrint(opt, val, PrintItems(more) + rest, st1);
          if Eval(opt, val, st1).Some? {
            var (v, st2) := Eval(opt, val, st1).value;
            PutKeepsLength(opt, st2, k, kv, v);
            ParsePrintEntries(opt, more, rest, Put(opt, st2, k, kv, v), k);
          }
        }
    }
  }

  lemma PutKeepsLength(opt: Options, st: State, k: nat, key: Value, val: Value)
    requires k < |st.refs|
    ensures |Put(opt, st, k, key, val).refs| == |st.refs| && Put(opt, st, k, key, val).depth == st.depth
  {
  }
}
