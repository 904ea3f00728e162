/**
 Which texts unserialize accepts, what their containers hold, and which classes come to life.
 */
module UnserializeMeaning {
  import opened Wrappers
  import opened Decimal
  import opened PhpValues
  import opened SerializeSpec
  import opened UnserializeSpec
  import opened SerializeSyntax
  import opened SerializeEval
  import opened UnserializeGrammar

  // ----- acceptance

  /** How many containers a document opens. */
  function Containers(d: Doc): nat {
    match d
    case DArray(items) => 1 + ContainersIn(items)
    case DObject(_, items) => 1 + ContainersIn(items)
    case _ => 0
  }

  function ContainersIn(items: Items): nat {
    match items
    case End => 0
    case Entry(key, val, rest) => Containers(key) + Containers(val) + ContainersIn(rest)
  }

  /** How many containers stand inside each other. */
  function Depth(d: Doc): nat {
    match d
    case DArray(items) => 1 + DepthIn(items)
    case DObject(_, items) => 1 + DepthIn(items)
    case _ => 0
  }

  function DepthIn(items: Items): nat {
    match items
    case End => 0
    case Entry(key, val, rest) => Max(Max(Depth(key), Depth(val)), DepthIn(rest))
  }

  function Max(a: nat, b: nat): nat {
    if a < b then b else a
  }

  /** Every float can be read, and every reference names one of the containers opened before it. */
  predicate Sound(opt: Options, d: Doc, before: nat) {
    match d
    case DFloat(text) => opt.parseFloat(text).Some?
    case DRef(_, id) => 1 <= id <= before
    case DArray(items) => SoundIn(opt, items, before + 1)
    case DObject(_, items) => SoundIn(opt, items, before + 1)
    case _ => true
  }

  predicate SoundIn(opt: Options, items: Items, before: nat) {
    match items
    case End => true
    case Entry(key, val, rest) =>
      && Sound(opt, key, before)
      && Sound(opt, val, before + Containers(key))
      && SoundIn(opt, rest, before + Containers(key) + Containers(val))
  }

  /** The nesting limit; a limit that is not positive is none. */
  predicate Within(opt: Options, depth: nat, more: nat) {
    opt.maxDepth <= 0 || more == 0 || depth + more <= opt.maxDepth
  }

  lemma {:induction false} EvalAccepts(opt: Options, d: Doc, st: State)
    ensures Eval(opt, d, st).Some? <==> Sound(opt, d, |st.refs|) && Within(opt, st.depth, Depth(d))
    ensures Eval(opt, d, st).Some? ==> |Eval(opt, d, st).value.1.refs| == |st.refs| + Containers(d)
    decreases d
  {
    hide EvalEntries, SoundIn, ContainersIn, DepthIn;
    match d {
      case DArray(items) =>
        if !TooDeep(opt, st) {
          EntriesAccept(opt, items, OpenArray(st), |st.refs|);
        }
      case DObject(cls, items) =>
        if !TooDeep(opt, st) {
          EntriesAccept(opt, items, OpenObject(opt, st, cls), |st.refs|);
        }
      case _ =>
    }
  }

  lemma {:induction false} EntriesAccept(opt: Options, items: Items, st: State, k: nat)
    requires k < |st.refs|
    ensures EvalEntries(opt, items, st, k).Some? <==> SoundIn(opt, items, |st.refs|) && Within(opt, st.depth, DepthIn(items))
    ensures EvalEntries(opt, items, st, k).Some? ==>
      |EvalEntries(opt, items, st, k).value.refs| == |st.refs| + ContainersIn(items)
    decreases items
  {
    hide Eval, Sound, Put, Containers, Depth;
    match items {
      case End =>
      case Entry(key, val, rest) =>
        EvalAccepts(opt, key, st);
        if Eval(opt, key, st).Some? {
          var (kv, st1) := Eval(opt, key, st).value;
          EvalAccepts(opt, val, st1);
          if Eval(opt, val, st1).Some? {
            var (v, st2) := Eval(opt, val, st1).value;
            PutKeepsLength(opt, st2, k, kv, v);
            EntriesAccept(opt, rest, Put(opt, st2, k, kv, v), k);
          }
        }
    }
  }

  /** s is a proper form, then blanks. */
  predicate Splits(s: string, f: Form, blanks: string) {
    Proper(f) && AllSpace(blanks) && s == Written(f) + blanks
  }

  lemma ReadsAsForm(opt: Options, s: string, f: Form, blanks: string)
    requires Splits(s, f, blanks)
    ensures Unserialize(opt, s)
         == match Eval(opt, Meaning(f), START) case None => None case Some((v, st)) => Some((v, st.heap))
  {
    hide ParseValue, Eval, AllSpace, Proper, Written;
    FormIsRead(opt, f, blanks, START);
  }

  /**
   The accepted texts: a proper form followed by blanks, with readable floats, references to
   containers opened before, and no more containers inside each other than the limit allows.
   */
  lemma AcceptedTexts(opt: Options, s: string)
    ensures Unserialize(opt, s).Some? <==>
      exists f, blanks :: Splits(s, f, blanks) && Sound(opt, Meaning(f), 0)
        && (opt.maxDepth <= 0 || Depth(Meaning(f)) <= opt.maxDepth)
  {
    hide ParseValue, Eval, AllSpace, Proper, Written, Meaning, Sound, Depth;
    if Unserialize(opt, s).Some? {
      var f := ReadIsForm(opt, s, START);
      var blanks := ParseValue(opt, s, START).value.rest;
      assert Splits(s, f, blanks);
      ReadsAsForm(opt, s, f, blanks);
      EvalAccepts(opt, Meaning(f), START);
    }
    forall f, blanks | Splits(s, f, blanks) && Sound(opt, Meaning(f), 0)
        && (opt.maxDepth <= 0 || Depth(Meaning(f)) <= opt.maxDepth)
      ensures Unserialize(opt, s).Some?
    {
      ReadsAsForm(opt, s, f, blanks);
      EvalAccepts(opt, Meaning(f), START);
    }
  }

  // ----- classes

  /** The object has an allowed class, or it is incomplete and has the property for the lost name. */
  predicate Tame(opt: Options, node: Node) {
    node.ObjectNode? ==>
      || opt.allowed(node.cls)
      || (node.cls == "__PHP_Incomplete_Class"
          && "__PHP_Incomplete_Class_Name" in node.entries
          && |node.propKeys| > 0 && node.propKeys[0] == "__PHP_Incomplete_Class_Name")
  }

  ghost predicate AllTame(opt: Options, h: Heap) {
    forall p :: p in h ==> Tame(opt, h[p])
  }

  lemma PutTame(opt: Options, st: State, k: nat, key: Value, val: Value)
    requires k < |st.refs| && AllTame(opt, st.heap)
    ensures AllTame(opt, Put(opt, st, k, key, val).heap)
  {
  }

  lemma OpenTame(opt: Options, st: State, cls: string)
    requires AllTame(opt, st.heap)
    ensures AllTame(opt, OpenArray(st).heap) && AllTame(opt, OpenObject(opt, st, cls).heap)
  {
  }

  lemma {:induction false} EvalTame(opt: Options, d: Doc, st: State)
    requires AllTame(opt, st.heap)
    ensures Eval(opt, d, st).Some? ==> AllTame(opt, Eval(opt, d, st).value.1.heap)
    decreases d
  {
    hide EvalEntries, AllTame, OpenArray, OpenObject;
    match d {
      case DArray(items) =>
        OpenTame(opt, st, "");
        if Eval(opt, d, st).Some? {
          OpenAdds(opt, st, "");
          EntriesTame(opt, items, OpenArray(st), |st.refs|);
        }
      case DObject(cls, items) =>
        OpenTame(opt, st, cls);
        if Eval(opt, d, st).Some? {
          OpenAdds(opt, st, cls);
          EntriesTame(opt, items, OpenObject(opt, st, cls), |st.refs|);
        }
      case _ =>
    }
  }

  lemma OpenAdds(opt: Options, st: State, cls: string)
    ensures |OpenArray(st).refs| == |st.refs| + 1 == |OpenObject(opt, st, cls).refs|
    ensures OpenArray(st).depth == st.depth + 1 == OpenObject(opt, st, cls).depth
  {
  }

  lemma {:induction false} EntriesTame(opt: Options, items: Items, st: State, k: nat)
    requires k < |st.refs| && AllTame(opt, st.heap)
    ensures EvalEntries(opt, items, st, k).Some? ==> AllTame(opt, EvalEntries(opt, items, st, k).value.heap)
    decreases items
  {
    hide Eval, Put, AllTame;
    match items {
      case End =>
      case Entry(key, val, rest) =>
        if EvalEntries(opt, items, st, k).Some? {
          var (kv, st1) := Eval(opt, key, st).value;
          EvalTame(opt, key, st);
          var (v, st2) := Eval(opt, val, st1).value;
          EvalTame(opt, val, st1);
          PutTame(opt, st2, k, kv, v);
          PutKeepsLength(opt, st2, k, kv, v);
          EntriesTame(opt, rest, Put(opt, st2, k, kv, v), k);
        }
    }
  }

  /** Whatever the text, no object of a class that is not allowed comes to life. */
  lemma OnlyAllowedClasses(opt: Options, s: string)
    requires Unserialize(opt, s).Some?
    ensures
      var h := Unserialize(opt, s).value.1;
      forall p :: p in h && h[p].ObjectNode? ==> opt.allowed(h[p].cls) || h[p].cls == "__PHP_Incomplete_Class"
    ensures
      var h := Unserialize(opt, s).value.1;
      forall p :: p in h && h[p].ObjectNode? && !opt.allowed(h[p].cls) ==> "__PHP_Incomplete_Class_Name" in h[p].entries
  {
    hide ParseValue, Eval, AllSpace, Proper, Written, Meaning;
    var f := ReadIsForm(opt, s, START);
    ReadsAsForm(opt, s, f, ParseValue(opt, s, START).value.rest);
    EvalTame(opt, Meaning(f), START);
  }

  // ----- what a container holds

  /** The name and the value of each entry of container k, in order. */
  function Puts(opt: Options, items: Items, st: State, k: nat): seq<(string, Value)>
    requires k < |st.refs| && EvalEntries(opt, items, st, k).Some?
    decreases items
  {
    match items
    case End => []
    case Entry(key, val, rest) =>
      var (kv, st1) := Eval(opt, key, st).value;
      var (v, st2) := Eval(opt, val, st1).value;
      [(ToString(st2.heap, kv, opt.floatText), v)] + Puts(opt, rest, Put(opt, st2, k, kv, v), k)
  }

  /** An ordered map after storing values under names one by one: a name keeps its first place and its last value. */
  function Stored(entries: map<string, Value>, keys: seq<string>, puts: seq<(string, Value)>): (map<string, Value>, seq<string>)
    decreases |puts|
  {
    if puts == [] then (entries, keys)
    else
      var (name, v) := puts[0];
      Stored(entries[name := v], if name in entries then keys else keys + [name], puts[1..])
  }

  predicate NameIn(puts: seq<(string, Value)>, name: string) {
    exists i :: 0 <= i < |puts| && puts[i].0 == name
  }

  /** The last put under a name is the i-th. */
  predicate LastPut(puts: seq<(string, Value)>, name: string, i: nat) {
    i < |puts| && puts[i].0 == name && forall j :: i < j < |puts| ==> puts[j].0 != name
  }

  lemma {:induction false} StoredKeeps(entries: map<string, Value>, keys: seq<string>, puts: seq<(string, Value)>, name: string)
    ensures name in entries && !NameIn(puts, name) ==>
      name in Stored(entries, keys, puts).0 && Stored(entries, keys, puts).0[name] == entries[name]
    ensures keys <= Stored(entries, keys, puts).1
    decreases |puts|
  {
    if puts != [] {
      var (first, v) := puts[0];
      StoredKeeps(entries[first := v], if first in entries then keys else keys + [first], puts[1..], name);
      if NameIn(puts[1..], name) {
        var i :| 0 <= i < |puts[1..]| && puts[1..][i].0 == name;
        assert puts[i + 1].0 == name;
      }
      assert first == name ==> NameIn(puts, name);
    }
  }

  lemma {:induction false} StoredLast(entries: map<string, Value>, keys: seq<string>, puts: seq<(string, Value)>, name: string, i: nat)
    requires LastPut(puts, name, i)
    ensures name in Stored(entries, keys, puts).0 && Stored(entries, keys, puts).0[name] == puts[i].1
    decreases |puts|
  {
    var (first, v) := puts[0];
    var keys' := if first in entries then keys else keys + [first];
    assert forall j :: 0 <= j < |puts| - 1 ==> puts[1..][j] == puts[j + 1];
    if i > 0 {
      StoredLast(entries[first := v], keys', puts[1..], name, i - 1);
    } else {
      assert !NameIn(puts[1..], name);
      StoredKeeps(entries[first := v], keys', puts[1..], name);
    }
  }

  /** The map and the keys of container k. */
  function HeldBy(st: State, k: nat): (map<string, Value>, seq<string>)
    requires k < |st.refs| && k + 1 in st.heap
  {
    match st.heap[k + 1]
    case ArrayNode(entries) => (entries, if st.refs[k].Array? then st.refs[k].keys else [])
    case ObjectNode(_, entries, propKeys) => (entries, propKeys)
  }

  lemma PutHeld(opt: Options, st: State, k: nat, key: Value, val: Value)
    requires Numbered(st) && k < |st.refs|
    ensures
      var (entries, keys) := HeldBy(st, k);
      var name := ToString(st.heap, key, opt.floatText);
      var st' := Put(opt, st, k, key, val);
      && k < |st'.refs| && k + 1 in st'.heap
      && HeldBy(st', k) == (entries[name := val], if name in entries then keys else keys + [name])
  {
    assert NumberedAt(st, k);
  }

  lemma SameHeld(st: State, st': State, k: nat)
    requires k < |st.refs| <= |st'.refs| && SameAt(st, st', k)
    ensures HeldBy(st', k) == HeldBy(st, k)
  {
  }

  lemma {:induction false} EntriesHeld(opt: Options, items: Items, st: State, k: nat)
    requires Numbered(st) && k < |st.refs| && EvalEntries(opt, items, st, k).Some?
    ensures k + 1 in st.heap && k + 1 in EvalEntries(opt, items, st, k).value.heap
    ensures
      var (entries, keys) := HeldBy(st, k);
      HeldBy(EvalEntries(opt, items, st, k).value, k) == Stored(entries, keys, Puts(opt, items, st, k))
    decreases items
  {
    hide Eval, Put, HeldBy, ToString;
    assert NumberedAt(st, k);
    match items {
      case End =>
      case Entry(key, val, rest) =>
        var (kv, st1) := Eval(opt, key, st).value;
        EvalFrame(opt, key, st);
        var (v, st2) := Eval(opt, val, st1).value;
        EvalFrame(opt, val, st1);
        assert SameAt(st, st1, k) && SameAt(st1, st2, k);
        SameHeld(st, st1, k);
        SameHeld(st1, st2, k);
        PutHeld(opt, st2, k, kv, v);
        PutNumbered(opt, st2, k, kv, v);
        var puts := Puts(opt, items, st, k);
        assert puts[1..] == Puts(opt, rest, Put(opt, st2, k, kv, v), k);
        EntriesHeld(opt, rest, Put(opt, st2, k, kv, v), k);
    }
  }

  /** The class, the first properties and the first keys of a new object. */
  function Named(opt: Options, cls: string): (string, map<string, Value>, seq<string>) {
    if opt.allowed(cls) then (cls, map[], [])
    else ("__PHP_Incomplete_Class", map["__PHP_Incomplete_Class_Name" := Str(cls)], ["__PHP_Incomplete_Class_Name"])
  }

  /** An array is a new container with its entries stored in order; no container that was open changes. */
  lemma ArrayRead(opt: Options, items: Items, st: State)
    requires Numbered(st) && Eval(opt, DArray(items), st).Some?
    ensures EvalEntries(opt, items, OpenArray(st), |st.refs|).Some?
    ensures
      var p := |st.refs| + 1;
      var (entries, keys) := Stored(map[], [], Puts(opt, items, OpenArray(st), |st.refs|));
      var (v, st') := Eval(opt, DArray(items), st).value;
      && v == Array(p, keys) && p in st'.heap && st'.heap[p] == ArrayNode(entries)
      && st'.refs[|st.refs|] == v && SameExcept(st, st', |st.refs|, -1)
  {
    hide EvalEntries, Puts, Stored;
    EvalFrame(opt, DArray(items), st);
    OpenNumbered(opt, st, "");
    OpenAdds(opt, st, "");
    EntriesHeld(opt, items, OpenArray(st), |st.refs|);
    EvalEntriesFrame(opt, items, OpenArray(st), |st.refs|);
    var st2 := EvalEntries(opt, items, OpenArray(st), |st.refs|).value;
    assert NumberedAt(st2, |st.refs|);
  }

  /**
   An object is a new container of its class, or, when the class is not allowed, of the incomplete
   class with the name as its first property; then its entries are stored in order.
   */
  lemma ObjectRead(opt: Options, cls: string, items: Items, st: State)
    requires Numbered(st) && Eval(opt, DObject(cls, items), st).Some?
    ensures EvalEntries(opt, items, OpenObject(opt, st, cls), |st.refs|).Some?
    ensures
      var p := |st.refs| + 1;
      var (class', first, firstKeys) := Named(opt, cls);
      var (entries, keys) := Stored(first, firstKeys, Puts(opt, items, OpenObject(opt, st, cls), |st.refs|));
      var (v, st') := Eval(opt, DObject(cls, items), st).value;
      && v == Object(p) && p in st'.heap && st'.heap[p] == ObjectNode(class', entries, keys)
      && SameExcept(st, st', |st.refs|, -1)
  {
    hide EvalEntries, Puts, Stored;
    EvalFrame(opt, DObject(cls, items), st);
    OpenNumbered(opt, st, cls);
    OpenAdds(opt, st, cls);
    var st1 := OpenObject(opt, st, cls);
    EntriesHeld(opt, items, st1, |st.refs|);
    EvalEntriesFrame(opt, items, st1, |st.refs|);
    var st2 := EvalEntries(opt, items, st1, |st.refs|).value;
    assert NumberedAt(st2, |st.refs|) && NumberedAt(st1, |st.refs|);
    assert SameKindAt(st1, st2, |st.refs|);
  }

  lemma LastOf(puts: seq<(string, Value)>, name: string) returns (i: nat)
    requires NameIn(puts, name)
    ensures LastPut(puts, name, i)
  {
    i := |puts| - 1;
    while puts[i].0 != name
      invariant i < |puts|
      invariant exists j :: 0 <= j <= i && puts[j].0 == name
      invariant forall j :: i < j < |puts| ==> puts[j].0 != name
      decreases i
    {
      i := i - 1;
    }
  }

  /** An object of a lost class: its first property is the name, unless entries of that name replace it: then the last of them stays. */
  ghost predicate Incomplete(node: Node, cls: string, puts: seq<(string, Value)>) {
    && node.ObjectNode? && node.cls == "__PHP_Incomplete_Class"
    && ["__PHP_Incomplete_Class_Name"] <= node.propKeys
    && "__PHP_Incomplete_Class_Name" in node.entries
    && var kept := node.entries["__PHP_Incomplete_Class_Name"];
      if NameIn(puts, "__PHP_Incomplete_Class_Name")
      then exists i: nat :: LastPut(puts, "__PHP_Incomplete_Class_Name", i) && kept == puts[i].1
      else kept == Str(cls)
  }

  lemma NameStored(cls: string, puts: seq<(string, Value)>)
    ensures
      var (entries, keys) := Stored(map["__PHP_Incomplete_Class_Name" := Str(cls)], ["__PHP_Incomplete_Class_Name"], puts);
      Incomplete(ObjectNode("__PHP_Incomplete_Class", entries, keys), cls, puts)
  {
    hide Stored, NameIn;
    var name := "__PHP_Incomplete_Class_Name";
    StoredKeeps(map[name := Str(cls)], [name], puts, name);
    if NameIn(puts, name) {
      var i := LastOf(puts, name);
      StoredLast(map[name := Str(cls)], [name], puts, name, i);
    }
  }

  /** A class that is not allowed leaves its name in the object it could not open. */
  lemma RejectedClass(opt: Options, cls: string, items: Items, st: State)
    requires Numbered(st) && Eval(opt, DObject(cls, items), st).Some? && !opt.allowed(cls)
    ensures EvalEntries(opt, items, OpenObject(opt, st, cls), |st.refs|).Some?
    ensures
      var (v, st') := Eval(opt, DObject(cls, items), st).value;
      && v == Object(|st.refs| + 1) && |st.refs| + 1 in st'.heap
      && Incomplete(st'.heap[|st.refs| + 1], cls, Puts(opt, items, OpenObject(opt, st, cls), |st.refs|))
  {
    hide Eval, EvalEntries, Puts, Stored, Incomplete;
    ObjectRead(opt, cls, items, st);
    NameStored(cls, Puts(opt, items, OpenObject(opt, st, cls), |st.refs|));
  }

  /** The empty object of a class: a live object when the class is allowed, and otherwise only its name. */
  lemma EmptyObject(opt: Options, cls: string)
    requires |cls| <= MAX_INT64
    ensures Unserialize(opt, "O:" + FormatInt(|cls|) + ":\"" + cls + "\":0:{}") == Some((Object(1),
      if opt.allowed(cls) then map[1 := ObjectNode(cls, map[], [])]
      else map[1 := ObjectNode("__PHP_Incomplete_Class", map["__PHP_Incomplete_Class_Name" := Str(cls)], ["__PHP_Incomplete_Class_Name"])]))
  {
    hide ParseValue, FormatInt, ObjectHead;
    HeadIs(cls);
    var text := ObjectHead(cls, 0) + "}";
    assert text == "O:" + FormatInt(|cls|) + ":\"" + cls + "\":0:{}";
    ObjectHeadOf(opt, cls, 0, "}", START);
    if !TooDeep(opt, START) {
      assert "}"[1..] == "";
      BodyOf(opt, OpenObject(opt, START, cls));
    }
  }

  lemma HeadIs(cls: string)
    ensures ObjectHead(cls, 0) == "O:" + FormatInt(|cls|) + ":\"" + cls + "\":0:{"
  {
    var n := FormatInt(|cls|);
    hide FormatInt;
    OneDigit(0);
    assert ObjectHead(cls, 0) == "O" + (":" + n + ":" + "\"" + cls + "\"") + (":" + "0" + ":") + "{";
  }

  lemma BodyOf(opt: Options, st: State)
    requires st.depth > 0 && st.refs != []
    ensures ParseBody(opt, "}", st, 0, 0) == Some(Parsed(st.refs[0], "", st.(depth := st.depth - 1)))
  {
    assert "}"[1..] == "";
  }

  // ----- blanks and names

  /** The characters that Unicode counts as white space. */
  predicate White(c: nat) {
    || 9 <= c <= 13 || c == 32 || c == 0x85 || c == 0xA0 || c == 0x1680 || 0x2000 <= c <= 0x200A
    || c == 0x2028 || c == 0x2029 || c == 0x202F || c == 0x205F || c == 0x3000
  }

  /** The bytes of a character in UTF-8. */
  function Utf8(c: nat): string
    requires c < 0x10000
  {
    if c < 0x80 then [c as char]
    else if c < 0x800 then [(0xC0 + c / 64) as char, (0x80 + c % 64) as char]
    else [(0xE0 + c / 4096) as char, (0x80 + c / 64 % 64) as char, (0x80 + c % 64) as char]
  }

  predicate BeginsWhite(s: string, c: nat) {
    White(c) && Utf8(c) <= s
  }

  /** A text is nothing but white space exactly when it is empty or begins with a white character before such a text. */
  lemma BlankTexts(s: string)
    ensures AllSpace(s) <==> s == "" || exists c: nat :: BeginsWhite(s, c) && AllSpace(s[|Utf8(c)|..])
  {
    hide AllSpace, BlankLength, Utf8;
    BlankStep(s);
    if BlankLength(s) > 0 {
      var c := FirstWhite(s);
    }
    forall c: nat | BeginsWhite(s, c)
      ensures BlankLength(s) == |Utf8(c)| > 0
    {
      WhiteLength(s, c);
    }
  }

  lemma BlankStep(s: string)
    ensures AllSpace(s) <==> s == "" || (BlankLength(s) > 0 && AllSpace(s[BlankLength(s)..]))
  {
  }

  lemma FirstWhite(s: string) returns (c: nat)
    requires BlankLength(s) > 0
    ensures BeginsWhite(s, c) && |Utf8(c)| == BlankLength(s)
  {
    if BlankLength(s) == 1 {
      c := s[0] as int;
    } else if BlankLength(s) == 2 {
      c := s[1] as int;
      assert s[..2] == [s[0], s[1]];
    } else {
      c := WideWhite(s[0], s[1], s[2]);
      assert s[..3] == [s[0], s[1], s[2]];
    }
  }

  lemma WideWhite(x: char, y: char, z: char) returns (c: nat)
    requires WideBlank(x, y, z)
    ensures White(c) && Utf8(c) == [x, y, z]
  {
    c := (x as int - 0xE0) * 4096 + (y as int - 0x80) * 64 + (z as int - 0x80);
  }

  lemma WhiteLength(s: string, c: nat)
    requires BeginsWhite(s, c)
    ensures BlankLength(s) == |Utf8(c)| > 0
  {
    if |s| > 2 && c >= 0x800 {
      assert WideBlank(s[0], s[1], s[2]);
    }
  }

  /** The names that keys other than strings stand for. */
  lemma KeyNames(h: Heap, n: int, bits: int, s: string, p: Ptr, keys: seq<string>, floatText: int -> string)
    ensures ToString(h, Null, floatText) == "" == ToString(h, Bool(false), floatText)
    ensures ToString(h, Bool(true), floatText) == "1" && ToString(h, Int(n), floatText) == FormatInt(n)
    ensures ToString(h, Str(s), floatText) == s && ToString(h, Float(bits), floatText) == floatText(bits)
    ensures ToString(h, Array(p, keys), floatText) == "Array" && ToString(h, Resource, floatText) == "Resource"
    ensures p in h && h[p].ObjectNode? ==> ToString(h, Object(p), floatText) == h[p].cls
  {
  }
}
