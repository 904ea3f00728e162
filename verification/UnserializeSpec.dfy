/**
 What unserialize does with a text. The parser reads the remaining text from its front and
 threads a state: the heap it builds, the container variables opened so far (the targets of
 back-references, in opening order), and its nesting depth.
 */
module UnserializeSpec {
  import opened Wrappers
  import opened Decimal
  import opened OrderedMaps
  import opened PhpValues

  /** The options of unserialize, with the library functions it calls on floats. */
  datatype Options = Options(
    allowed: string -> bool, maxDepth: int, parseFloat: string -> Option<int>, floatText: int -> string)

  datatype State = State(heap: Heap, refs: seq<Value>, depth: nat)

  datatype Parsed = Parsed(v: Value, rest: string, st: State)

  const INCOMPLETE_CLASS := "__PHP_Incomplete_Class"
  const INCOMPLETE_NAME := "__PHP_Incomplete_Class_Name"

  // ----- reading characters

  /** expectByte */
  function Expect(r: string, c: char): Option<string> {
    if r != "" && r[0] == c then Some(r[1..]) else None
  }

  /** readInt: the longest run of digits after an optional sign. */
  function ReadInt(r: string): (res: Option<(int, string)>)
    ensures res.Some? ==> |res.value.1| < |r|
  {
    var sign := if r != "" && IsSign(r[0]) then 1 else 0;
    var n := DigitSpan(r[sign..]);
    if n == 0 then
      None
    else
      var x :- ParseInt64(r[..sign + n]);
      Some((x, r[sign + n..]))
  }

  /** readUntil: the text before the next c, and the text after it. */
  function ReadUntil(r: string, c: char): (res: Option<(string, string)>)
    ensures res.Some? ==> |res.value.1| < |r|
  {
    if r == "" then None
    else if r[0] == c then Some(("", r[1..]))
    else
      var (tok, rest) :- ReadUntil(r[1..], c);
      Some(([r[0]] + tok, rest))
  }

  /** A colon, an integer, then the given character. */
  function ReadHeader(r: string, c: char): (res: Option<(int, string)>)
    ensures res.Some? ==> |res.value.1| < |r|
  {
    var r1 :- Expect(r, ':');
    var (n, r2) :- ReadInt(r1);
    var r3 :- Expect(r2, c);
    Some((n, r3))
  }

  /** A declared length n, then n bytes between double quotes. */
  function ReadQuoted(r: string): (res: Option<(string, string)>)
    ensures res.Some? ==> |res.value.1| < |r|
  {
    var (n, r1) :- ReadHeader(r, ':');
    var r2 :- Expect(r1, '"');
    if n < 0 || n > |r2| then
      None
    else
      var r3 :- Expect(r2[n..], '"');
      Some((r2[..n], r3))
  }

  // ----- building values

  /** A fresh pointer: pointers are handed out 1, 2, ... with the containers. */
  function Fresh(st: State): Ptr {
    |st.refs| + 1
  }

  function OpenArray(st: State): State {
    var p := Fresh(st);
    State(st.heap[p := ArrayNode(map[])], st.refs + [Array(p, [])], st.depth + 1)
  }

  /** A class that is not allowed becomes an incomplete object that remembers the name. */
  function OpenObject(opt: Options, st: State, cls: string): State {
    var p := Fresh(st);
    var node := if opt.allowed(cls) then ObjectNode(cls, map[], [])
                else ObjectNode(INCOMPLETE_CLASS, map[INCOMPLETE_NAME := Str(cls)], [INCOMPLETE_NAME]);
    State(st.heap[p := node], st.refs + [Object(p)], st.depth + 1)
  }

  /** ArraySet or SetProp on the k-th container variable. */
  function Put(opt: Options, st: State, k: nat, key: Value, val: Value): State
    requires k < |st.refs|
  {
    var name := ToString(st.heap, key, opt.floatText);
    match st.refs[k]
    case Array(p, keys) =>
      if p in st.heap && st.heap[p].ArrayNode? then
        var entries := st.heap[p].entries;
        st.(heap := st.heap[p := ArrayNode(entries[name := val])],
            refs := st.refs[k := Array(p, AppendKey(entries, keys, name))])
      else st
    case Object(p) =>
      if p in st.heap && st.heap[p].ObjectNode? then
        var node := st.heap[p];
        st.(heap := st.heap[p := ObjectNode(node.cls, node.entries[name := val],
                                            AppendKey(node.entries, node.propKeys, name))])
      else st
    case _ => st
  }

  predicate TooDeep(opt: Options, st: State) {
    opt.maxDepth > 0 && st.depth + 1 > opt.maxDepth
  }

  function BackRef(st: State, id: int): Option<Value> {
    if 1 <= id <= |st.refs| then Some(st.refs[id - 1]) else None
  }

  // ----- the parser

  /** parseValue: None is a format error. */
  function ParseValue(opt: Options, r: string, st: State): (res: Option<Parsed>)
    ensures res.Some? ==> |res.value.rest| < |r| && |res.value.st.refs| >= |st.refs| && res.value.st.depth == st.depth
    decreases |r|, 1, 0
  {
    if r == "" then None else
    match r[0]
    case 'N' => var r1 :- Expect(r[1..], ';'); Some(Parsed(Null, r1, st))
    case 'b' => var (n, r1) :- ReadHeader(r[1..], ';'); Some(Parsed(Bool(n != 0), r1, st))
    case 'i' => var (n, r1) :- ReadHeader(r[1..], ';'); Some(Parsed(Int(n), r1, st))
    case 'd' => ParseFloatTail(opt, r[1..], st)
    case 's' =>
      var (s, r1) :- ReadQuoted(r[1..]);
      var r2 :- Expect(r1, ';');
      Some(Parsed(Str(s), r2, st))
    case 'a' => ParseArray(opt, r[1..], st)
    case 'O' => ParseObject(opt, r[1..], st)
    case 'R' => ParseRef(r[1..], st)
    case 'r' => ParseRef(r[1..], st)
    case _ => None
  }

  function ParseFloatTail(opt: Options, r: string, st: State): (res: Option<Parsed>)
    ensures res.Some? ==> |res.value.rest| < |r| && res.value.st == st
  {
    var r1 :- Expect(r, ':');
    var (tok, r2) :- ReadUntil(r1, ';');
    var f :- opt.parseFloat(tok);
    Some(Parsed(Float(f), r2, st))
  }

  function ParseRef(r: string, st: State): (res: Option<Parsed>)
    ensures res.Some? ==> |res.value.rest| < |r| && res.value.st == st
  {
    var (id, r1) :- ReadHeader(r, ';');
    var v :- BackRef(st, id);
    Some(Parsed(v, r1, st))
  }

  function ParseArray(opt: Options, r: string, st: State): (res: Option<Parsed>)
    ensures res.Some? ==> |res.value.rest| < |r| && |res.value.st.refs| >= |st.refs| && res.value.st.depth == st.depth
    decreases |r|, 3, 0
  {
    var (n, r1) :- ReadHeader(r, ':');
    var r2 :- Expect(r1, '{');
    if TooDeep(opt, st) then None else ParseBody(opt, r2, OpenArray(st), |st.refs|, n)
  }

  function ParseObject(opt: Options, r: string, st: State): (res: Option<Parsed>)
    ensures res.Some? ==> |res.value.rest| < |r| && |res.value.st.refs| >= |st.refs| && res.value.st.depth == st.depth
    decreases |r|, 3, 0
  {
    var (cls, r1) :- ReadQuoted(r);
    var (n, r2) :- ReadHeader(r1, ':');
    var r3 :- Expect(r2, '{');
    if TooDeep(opt, st) then None else ParseBody(opt, r3, OpenObject(opt, st, cls), |st.refs|, n)
  }

  /** The n entries of the k-th container and its closing brace. */
  function ParseBody(opt: Options, r: string, st: State, k: nat, n: int): (res: Option<Parsed>)
    requires k < |st.refs| && st.depth > 0
    ensures res.Some? ==>
      |res.value.rest| < |r| && |res.value.st.refs| >= |st.refs| && res.value.st.depth == st.depth - 1
    decreases |r|, 2, 1
  {
    var (r1, st1) :- ParseEntries(opt, r, st, k, n);
    var r2 :- Expect(r1, '}');
    Some(Parsed(st1.refs[k], r2, st1.(depth := st1.depth - 1)))
  }

  function ParseEntries(opt: Options, r: string, st: State, k: nat, n: int): (res: Option<(string, State)>)
    requires k < |st.refs|
    ensures res.Some? ==> |res.value.0| <= |r| && |res.value.1.refs| >= |st.refs| && res.value.1.depth == st.depth
    decreases |r|, 2, 0
  {
    if n <= 0 then
      Some((r, st))
    else
      var key :- ParseValue(opt, r, st);
      var val :- ParseValue(opt, key.rest, key.st);
      ParseEntries(opt, val.rest, Put(opt, val.st, k, key.v, val.v), k, n - 1)
  }

  /** The three bytes of a blank from U+1680, U+2000 to U+200A, U+2028, U+2029, U+202F, U+205F and U+3000. */
  predicate WideBlank(a: char, b: char, c: char) {
    || (a == '\U{e1}' && b == '\U{9a}' && c == '\U{80}')
    || (a == '\U{e2}' && b == '\U{80}' && ('\U{80}' <= c <= '\U{8a}' || c in "\U{a8}\U{a9}\U{af}"))
    || (a == '\U{e2}' && b == '\U{81}' && c == '\U{9f}')
    || (a == '\U{e3}' && b == '\U{80}' && c == '\U{80}')
  }

  /** How many bytes the white space character at the front takes in UTF-8; 0 when there is none. */
  function BlankLength(s: string): (n: nat)
    ensures n <= |s|
  {
    if s != "" && s[0] in " \t\n\U{b}\U{c}\r" then 1
    else if |s| > 1 && s[0] == '\U{c2}' && s[1] in "\U{85}\U{a0}" then 2
    else if |s| > 2 && WideBlank(s[0], s[1], s[2]) then 3
    else 0
  }

  /** strings.TrimSpace leaves nothing. */
  predicate AllSpace(s: string)
    decreases |s|
  {
    s == "" || (BlankLength(s) > 0 && AllSpace(s[BlankLength(s)..]))
  }

  const START := State(map[], [], 0)

  /** phpUnserialize: one value, then nothing but white space. */
  function Unserialize(opt: Options, s: string): Option<(Value, Heap)> {
    var p :- ParseValue(opt, s, START);
    if AllSpace(p.rest) then Some((p.v, p.st.heap)) else None
  }
}
