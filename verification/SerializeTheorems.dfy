/**
 The main results about serialize and unserialize: the exact condition for a faithful round
 trip, its reading on finite trees, injectivity, and the bound on what is printed.
 */
module SerializeTheorems {
  import opened Basics
  import opened Wrappers
  import opened Decimal
  import opened PhpValues
  import opened SerializeSpec
  import opened UnserializeSpec
  import opened SerializeSyntax
  import opened SerializeEval
  import opened SerializeRoundTrip
  import Def = SerializeDefect

  // ----- each pointer is printed in full once

  ghost predicate Registered(h: Heap, reg: seq<Ptr>) {
    Distinct(reg) && forall p :: p in reg ==> p in h
  }

  /** The containers a document prints in full. */
  function Opens(d: Doc): nat {
    match d
    case DArray(items) => 1 + OpensIn(items)
    case DObject(_, items) => 1 + OpensIn(items)
    case _ => 0
  }

  function OpensIn(items: Items): nat {
    match items
    case End => 0
    case Entry(key, val, rest) => Opens(key) + Opens(val) + OpensIn(rest)
  }

  lemma {:induction false} DistinctSubset(reg: seq<Ptr>, s: set<Ptr>)
    requires Distinct(reg) && forall p :: p in reg ==> p in s
    ensures |reg| <= |s|
  {
    if reg != [] {
      var p := reg[0];
      assert forall q :: q in reg[1..] ==> q != p;
      DistinctSubset(reg[1..], s - {p});
    }
  }

  /** What a printed value satisfies: numbers in range, pointers registered once, one opening for each. */
  ghost predicate Printed(src: Source, reg: seq<Ptr>, d: Doc, reg': seq<Ptr>) {
    && WellFormed(d)
    && reg <= reg' && Registered(src.env.heap, reg')
    && Opens(d) == |reg'| - |reg|
  }

  ghost predicate PrintedItems(src: Source, reg: seq<Ptr>, items: Items, reg': seq<Ptr>) {
    && WellFormedItems(items)
    && reg <= reg' && Registered(src.env.heap, reg')
    && OpensIn(items) == |reg'| - |reg|
  }

  /**
   Every container pointer is opened at most once, cycles or not: the number of containers
   printed in full is the number of newly registered pointers.
   */
  lemma {:induction false} SerPrints(src: Source, value: Value, reg: seq<Ptr>, depth: nat)
    requires Good(src) && |src.env.heap| <= MAX_INT64 && GoodValue(src, value) && Registered(src.env.heap, reg)
    ensures Printed(src, reg, Ser(src.env, value, reg, depth).0, Ser(src.env, value, reg, depth).1)
    decreases MAX_NESTING + 1 - depth, 1, 0
  {
    hide SerItems, Good, KeysIn, KeysOf;
    var v := Deref(value);
    if depth + 1 <= MAX_NESTING {
      if v.Array? || v.Object? {
        IdOfIndex(reg, v.ptr);
        if v.ptr in reg {
          DistinctSubset(reg, src.env.heap.Keys);
        } else {
          SerPrintsContainer(src, v, reg, depth + 1);
        }
      }
    }
  }

  lemma {:induction false} SerPrintsContainer(src: Source, v: Value, reg: seq<Ptr>, depth: nat)
    requires Good(src) && |src.env.heap| <= MAX_INT64 && GoodValue(src, v) && Registered(src.env.heap, reg)
    requires (v.Array? || v.Object?) && v.ptr !in reg && depth <= MAX_NESTING
    ensures Printed(src, reg, SerContainer(src.env, v, reg, depth).0, SerContainer(src.env, v, reg, depth).1)
    decreases MAX_NESTING + 1 - depth, 3, 0
  {
    hide SerItems, KeysIn, KeysOf, SerContainer;
    assert GoodNode(src, v.ptr);
    var keys := KeysOf(src, v.ptr);
    ContainerDoc(src, v, reg, depth);
    assert [] + keys == keys;
    SerPrintsItems(src, v.ptr, [], keys, reg + [v.ptr], depth);
    var (items, reg') := SerItems(src.env, EntriesAt(src.env.heap, v.ptr), v.Array?, keys, reg + [v.ptr], depth);
    ItemsCount(src.env, EntriesAt(src.env.heap, v.ptr), v.Array?, keys, reg + [v.ptr], depth);
  }

  lemma {:induction false} SerPrintsItems(src: Source, p: Ptr, done: seq<string>, todo: seq<string>, reg: seq<Ptr>, depth: nat)
    requires Good(src) && |src.env.heap| <= MAX_INT64 && p in src.env.heap && done + todo == KeysOf(src, p)
    requires Registered(src.env.heap, reg) && depth <= MAX_NESTING
    ensures
      var (items, reg') := SerItems(src.env, EntriesAt(src.env.heap, p), src.env.heap[p].ArrayNode?, todo, reg, depth);
      PrintedItems(src, reg, items, reg')
    decreases MAX_NESTING + 1 - depth, 2, |todo|
  {
    hide Ser, KeysOf, GoodValue, KeyDoc, Good, Opens, Registered;
    if todo != [] {
      var key, isArray := todo[0], src.env.heap[p].ArrayNode?;
      ChildOf(src, p, done, todo);
      var child := src.env.heap[p].entries[key];
      SerPrints(src, child, reg, depth);
      KeyWellFormed(src, p, isArray, key);
      assert done + [key] + todo[1..] == done + todo;
      SerPrintsItems(src, p, done + [key], todo[1..], Ser(src.env, child, reg, depth).1, depth);
    }
  }

  lemma KeyWellFormed(src: Source, p: Ptr, isArray: bool, key: string)
    requires Good(src) && p in src.env.heap && key in src.env.heap[p].entries
    ensures WellFormed(KeyDoc(isArray, key)) && Opens(KeyDoc(isArray, key)) == 0
  {
  }

  // ----- the array key "-0" is never read back

  predicate MinusFree(d: Doc)
    decreases d
  {
    match d
    case DArray(items) => MinusFreeItems(true, items)
    case DObject(_, items) => MinusFreeItems(false, items)
    case _ => true
  }

  predicate MinusFreeItems(isArray: bool, items: Items)
    decreases items
  {
    match items
    case End => true
    case Entry(key, val, rest) =>
      && (isArray ==> key.DInt? || (key.DStr? && key.s != "-0"))
      && MinusFree(key) && MinusFree(val) && MinusFreeItems(isArray, rest)
  }

  ghost predicate NoMinusZero(st: State) {
    forall p :: p in st.heap && st.heap[p].ArrayNode? ==> "-0" !in st.heap[p].entries
  }

  lemma {:induction false} SerMinusFree(env: Env, value: Value, reg: seq<Ptr>, depth: nat)
    ensures MinusFree(Ser(env, value, reg, depth).0)
    decreases MAX_NESTING + 1 - depth, 1, 0
  {
    hide SerItems;
    var v := Deref(value);
    if depth + 1 <= MAX_NESTING {
      match v {
        case Array(p, keys) => SerItemsMinusFree(env, EntriesAt(env.heap, p), true, keys, Register(reg, p), depth + 1);
        case Object(p) =>
          SerItemsMinusFree(env, EntriesAt(env.heap, p), false, KeysIn(env, v), Register(reg, p), depth + 1);
        case _ =>
      }
    }
  }

  lemma {:induction false} SerItemsMinusFree(env: Env, entries: map<string, Value>, isArray: bool, keys: seq<string>,
                                             reg: seq<Ptr>, depth: nat)
    ensures MinusFreeItems(isArray, SerItems(env, entries, isArray, keys, reg, depth).0)
    decreases MAX_NESTING + 1 - depth, 2, |keys|
  {
    hide Ser;
    if keys != [] {
      SerMinusFree(env, Lookup(entries, keys[0]), reg, depth);
      SerItemsMinusFree(env, entries, isArray, keys[1..], Ser(env, Lookup(entries, keys[0]), reg, depth).1, depth);
      Def.KeyEvaluates(Options(_ => true, 0, _ => None, _ => ""), true, "-0", START);
    }
  }

  lemma FormatIntNotMinusZero(n: int)
    ensures FormatInt(n) != "-0"
  {
    DigitsOfFormatNat(if n < 0 then -n else n);
    if n < 0 {
      assert FormatInt(n)[1..] == FormatNat(-n);
      assert "-0"[1..] == "0";
    }
  }

  lemma {:induction false} EvalMinusFree(opt: Options, d: Doc, st: State)
    requires Numbered(st) && NoMinusZero(st) && MinusFree(d) && Eval(opt, d, st).Some?
    ensures NoMinusZero(Eval(opt, d, st).value.1)
    decreases d, 1
  {
    hide Numbered, EvalEntries;
    match d {
      case DArray(items) =>
        OpenNumbered(opt, st, "");
        EvalEntriesMinusFree(opt, true, items, OpenArray(st), |st.refs|);
      case DObject(cls, items) =>
        OpenNumbered(opt, st, cls);
        EvalEntriesMinusFree(opt, false, items, OpenObject(opt, st, cls), |st.refs|);
      case _ =>
    }
  }

  lemma {:induction false} EvalEntriesMinusFree(opt: Options, isArray: bool, items: Items, st: State, k: nat)
    requires Numbered(st) && NoMinusZero(st) && MinusFreeItems(isArray, items) && k < |st.refs|
    requires st.refs[k].Array? ==> isArray
    requires EvalEntries(opt, items, st, k).Some?
    ensures NoMinusZero(EvalEntries(opt, items, st, k).value)
    decreases items, 0
  {
    hide Numbered, Eval, Put, NoMinusZero;
    match items {
      case End =>
      case Entry(key, val, rest) =>
        var (kv, st1) := Eval(opt, key, st).value;
        var (v, st2) := Eval(opt, val, st1).value;
        EvalMinusFree(opt, key, st);
        EvalFrame(opt, key, st);
        EvalMinusFree(opt, val, st1);
        EvalFrame(opt, val, st1);
        assert SameAt(st, st1, k) && SameAt(st1, st2, k);
        PutNumbered(opt, st2, k, kv, v);
        KeyNotMinusZero(opt, isArray, key, st);
        PutMinusFree(opt, st2, k, kv, v);
        EvalEntriesMinusFree(opt, isArray, rest, Put(opt, st2, k, kv, v), k);
    }
  }

  lemma KeyNotMinusZero(opt: Options, isArray: bool, key: Doc, st: State)
    requires isArray ==> key.DInt? || (key.DStr? && key.s != "-0")
    requires Eval(opt, key, st).Some?
    ensures isArray ==> forall h, f :: ToString(h, Eval(opt, key, st).value.0, f) != "-0"
  {
    if key.DInt? {
      FormatIntNotMinusZero(key.n);
    }
  }

  lemma PutMinusFree(opt: Options, st: State, k: nat, name: Value, val: Value)
    requires Numbered(st) && NoMinusZero(st) && k < |st.refs|
    requires st.refs[k].Array? ==> ToString(st.heap, name, opt.floatText) != "-0"
    ensures NoMinusZero(Put(opt, st, k, name, val))
  {
  }

  // ----- the exact condition

  /** h' is the printed graph, renamed: same kinds, classes, keys and order, and same sharing. */
  ghost predicate IsCopy(src: Source, v: Value, v': Value, h': Heap) {
    var reg := Ser(src.env, v, [], 0).1;
    && CopyOf(reg, v, v')
    && (forall p :: p in h' <==> 1 <= p <= |reg|)
    && forall k {:trigger reg[k]} :: 0 <= k < |reg| ==>
         reg[k] in src.env.heap && CopyNode(src, reg, reg[k], h'[k + 1])
  }

  ghost predicate CopyNode(src: Source, reg: seq<Ptr>, p: Ptr, node: Node)
    requires p in src.env.heap
  {
    && CopiedEntries(src, reg, p, KeysOf(src, p), node.entries)
    && match src.env.heap[p] {
         case ArrayNode(_) => node.ArrayNode?
         case ObjectNode(cls, _, propKeys) => node.ObjectNode? && node.cls == cls && node.propKeys == propKeys
       }
  }

  /** The text of v is accepted, and what it is read as is a copy of v. */
  ghost predicate ReadsBackAsCopy(src: Source, v: Value) {
    match Unserialize(src.opt, Serialize(src.env, v))
    case None => false
    case Some((v', h')) => IsCopy(src, v, v', h')
  }

  lemma ReadBack(src: Source, v: Value)
    requires Good(src) && |src.env.heap| <= MAX_INT64 && GoodValue(src, v)
    ensures
      var e := Eval(src.opt, Ser(src.env, v, [], 0).0, START);
      Unserialize(src.opt, Serialize(src.env, v)) == match e case None => None case Some((v', st')) => Some((v', st'.heap))
  {
    hide Ser, Print, ParseValue, Eval;
    var d := Ser(src.env, v, [], 0).0;
    SerPrints(src, v, [], 0);
    ParsePrint(src.opt, d, "", START);
    assert Print(d) + "" == Print(d);
  }

  /** A clean walk is read back as a copy. */
  lemma RoundTrip(src: Source, v: Value)
    requires Good(src) && |src.env.heap| <= MAX_INT64 && GoodValue(src, v)
    requires Clean(src.env, v, [], {}, 0)
    ensures Unserialize(src.opt, Serialize(src.env, v)).Some? && ReadsBackAsCopy(src, v)
  {
    hide Ser, Clean, Unserialize, Serialize, Eval, CopiedEntries, CopyOf, Good, GoodValue;
    ReadBack(src, v);
    EvalSer(src, v, [], {}, 0, START);
    var (d, reg) := Ser(src.env, v, [], 0);
    var (v', st') := Eval(src.opt, d, START).value;
    forall k | 0 <= k < |reg| ensures reg[k] in src.env.heap && CopyNode(src, reg, reg[k], st'.heap[k + 1]) {
      assert Copied(src, reg, st', k);
    }
  }

  /** An unclean walk is still read back, but not as a copy. */
  lemma NoRoundTrip(src: Source, v: Value)
    requires Good(src) && |src.env.heap| <= MAX_INT64 && GoodValue(src, v)
    requires !Clean(src.env, v, [], {}, 0)
    ensures Unserialize(src.opt, Serialize(src.env, v)).Some? && !ReadsBackAsCopy(src, v)
  {
    hide Ser, Clean, Unserialize, Serialize, Eval, Good, CopyNode, MinusFree, KeysOf;
    ReadBack(src, v);
    Def.EvalSerAny(src, v, [], {}, 0, START);
    var (d, reg) := Ser(src.env, v, [], 0);
    var (v', st') := Eval(src.opt, d, START).value;
    SerMinusFree(src.env, v, [], 0);
    EvalMinusFree(src.opt, d, START);
    if Def.MinusZero(src, reg) {
      var k :| 0 <= k < |reg| && Def.HasMinusZero(src, reg[k]);
      MinusZeroNotCopied(src, reg, k, st');
    } else if Def.BadEntry(src, reg, st') {
      var k, key :| 0 <= k < |reg| && k + 1 in st'.heap && reg[k] in src.env.heap && Def.BadEntryAt(src, reg[k], st'.heap[k + 1], key);
      BadNotCopied(src, reg, reg[k], st'.heap[k + 1], key);
    }
  }

  lemma MinusZeroNotCopied(src: Source, reg: seq<Ptr>, k: nat, st: State)
    requires Good(src) && k < |reg| && Def.HasMinusZero(src, reg[k]) && NoMinusZero(st) && k + 1 in st.heap
    ensures !CopyNode(src, reg, reg[k], st.heap[k + 1])
  {
  }

  lemma BadNotCopied(src: Source, reg: seq<Ptr>, p: Ptr, node: Node, key: string)
    requires p in src.env.heap && Def.BadEntryAt(src, p, node, key)
    ensures !CopyNode(src, reg, p, node)
  {
  }

  /**
   unserialize(serialize(v)) is a copy of v if and only if the printer's walk over v never
   meets an array inside itself, drops no value to the nesting limit, and prints no array
   key "-0". Cycles through objects are copied.
   */
  lemma RoundTripExactly(src: Source, v: Value)
    requires Good(src) && |src.env.heap| <= MAX_INT64 && GoodValue(src, v)
    ensures Unserialize(src.opt, Serialize(src.env, v)).Some?
    ensures ReadsBackAsCopy(src, v) <==> Clean(src.env, v, [], {}, 0)
  {
    hide Clean, ReadsBackAsCopy, Unserialize, Serialize, Good, GoodValue;
    if Clean(src.env, v, [], {}, 0) {
      RoundTrip(src, v);
    } else {
      NoRoundTrip(src, v);
    }
  }
}
