/**
 unserialize(serialize(v)) is a copy of v: the same graph, sharing included, with the
 pointers renamed to the order in which the printer first met them.
 */
module SerializeRoundTrip {
  import opened Basics
  import opened Wrappers
  import opened Decimal
  import opened OrderedMaps
  import opened PhpValues
  import opened SerializeSpec
  import opened UnserializeSpec
  import opened SerializeSyntax
  import opened SerializeEval

  /** A heap to print, the Keys slice that goes with each array pointer, and how the text is read back. */
  datatype Source = Source(env: Env, arrayKeys: map<Ptr, seq<string>>, opt: Options)

  /** The keys of the container behind a pointer, in order. */
  function KeysOf(src: Source, p: Ptr): seq<string> {
    if p in src.env.heap && src.env.heap[p].ObjectNode? then src.env.heap[p].propKeys
    else if p in src.arrayKeys then src.arrayKeys[p]
    else []
  }

  /** A float text that the library reads back to the same float, and that does not contain the terminator. */
  ghost predicate GoodFloat(src: Source, bits: int) {
    var text := src.env.formatFloat(bits);
    ';' !in text && src.opt.parseFloat(text) == Some(bits)
  }

  /** Go's limits on integers and lengths, non-nil containers, and one Keys slice for each array pointer. */
  ghost predicate GoodValue(src: Source, value: Value) {
    match Deref(value)
    case Null => true
    case Bool(_) => true
    case Int(n) => IsInt64(n)
    case Float(bits) => GoodFloat(src, bits)
    case Str(s) => |s| <= MAX_INT64
    case Array(p, keys) => p != 0 && p in src.env.heap && src.env.heap[p].ArrayNode? && keys == KeysOf(src, p)
    case Object(p) => p != 0 && p in src.env.heap && src.env.heap[p].ObjectNode?
    case Resource => false
    case Ref(_) => false
  }

  /** The ordered-map invariant, and good keys and values below a pointer. */
  ghost predicate GoodNode(src: Source, p: Ptr)
    requires p in src.env.heap
  {
    var node := src.env.heap[p];
    && Ordered(node.entries, KeysOf(src, p))
    && |KeysOf(src, p)| <= MAX_INT64
    && (node.ObjectNode? ==> |node.cls| <= MAX_INT64)
    && forall k :: k in node.entries ==> |k| <= MAX_INT64 && GoodValue(src, node.entries[k])
  }

  /** Default options: every class allowed, no depth limit. */
  ghost predicate Good(src: Source) {
    && (forall p :: p in src.env.heap ==> GoodNode(src, p))
    && (forall cls :: src.opt.allowed(cls))
    && src.opt.maxDepth <= 0
  }

  // ----- when a walk over the graph prints faithfully

  /**
   The walk of the printer, saying whether it prints faithfully: it never meets an array that
   is still being printed, never drops a value to the nesting limit, and never prints the
   array key "-0".
   */
  predicate Clean(env: Env, value: Value, reg: seq<Ptr>, open: set<Ptr>, depth: nat)
    decreases MAX_NESTING + 1 - depth, 1, 0
  {
    var v := Deref(value);
    if depth + 1 > MAX_NESTING then
      v.Null?
    else
      match v
      case Array(p, keys) =>
        if IdOf(reg, p).Some? then
          p !in open
        else
          CleanItems(env, EntriesAt(env.heap, p), true, keys, Register(reg, p), open + {p}, depth + 1)
      case Object(p) =>
        if IdOf(reg, p).Some? then
          true
        else
          CleanItems(env, EntriesAt(env.heap, p), false, KeysIn(env, v), Register(reg, p), open + {p}, depth + 1)
      case _ => true
  }

  predicate CleanItems(env: Env, entries: map<string, Value>, isArray: bool, keys: seq<string>, reg: seq<Ptr>,
                       open: set<Ptr>, depth: nat)
    decreases MAX_NESTING + 1 - depth, 2, |keys|
  {
    keys == [] ||
    (&& (isArray ==> keys[0] != "-0")
     && Clean(env, Lookup(entries, keys[0]), reg, open, depth)
     && CleanItems(env, entries, isArray, keys[1..], Ser(env, Lookup(entries, keys[0]), reg, depth).1, open, depth))
  }

  // ----- copies

  /** The name of a pointer in the copy. */
  function Renamed(reg: seq<Ptr>, p: Ptr): Ptr {
    match IdOf(reg, p)
    case Some(id) => id
    case None => 0
  }

  function Image(reg: seq<Ptr>, value: Value): Value {
    match Deref(value)
    case Array(p, keys) => Array(Renamed(reg, p), keys)
    case Object(p) => Object(Renamed(reg, p))
    case v => v
  }

  ghost predicate CopyOf(reg: seq<Ptr>, value: Value, copy: Value) {
    var v := Deref(value);
    && (v.Array? || v.Object? ==> v.ptr in reg)
    && copy == Image(reg, value)
  }

  /** The entries of `copy` are copies of the entries of p under the keys `keys`, and there are no others. */
  ghost predicate CopiedEntries(src: Source, reg: seq<Ptr>, p: Ptr, keys: seq<string>, copy: map<string, Value>)
    requires p in src.env.heap
  {
    && (forall k :: k in copy <==> k in keys)
    && (forall k :: k in keys ==> k in src.env.heap[p].entries)
    && forall k {:trigger copy[k]} {:trigger k in copy} :: k in copy && k in src.env.heap[p].entries ==>
      CopyOf(reg, src.env.heap[p].entries[k], copy[k])
  }

  /** Container number k has so far copied the keys `done` of p. */
  ghost predicate Partial(src: Source, reg: seq<Ptr>, st: State, k: nat, p: Ptr, done: seq<string>) {
    && p in src.env.heap && k < |st.refs| && k + 1 in st.heap
    && CopiedEntries(src, reg, p, done, st.heap[k + 1].entries)
    && match src.env.heap[p] {
         case ArrayNode(_) => st.heap[k + 1].ArrayNode? && st.refs[k] == Array(k + 1, done)
         case ObjectNode(cls, _, _) =>
           && st.heap[k + 1].ObjectNode? && st.refs[k] == Object(k + 1)
           && st.heap[k + 1].cls == cls && st.heap[k + 1].propKeys == done
       }
  }

  /** Container number k is a complete copy of the k-th registered pointer. */
  ghost predicate Copied(src: Source, reg: seq<Ptr>, st: State, k: nat)
    requires k < |reg|
  {
    Partial(src, reg, st, k, reg[k], KeysOf(src, reg[k]))
  }

  /** The copy numbers its containers as the printer numbered the originals. */
  ghost predicate Matching(src: Source, reg: seq<Ptr>, st: State) {
    && Numbered(st) && |st.refs| == |reg| && Distinct(reg)
    && forall k {:trigger reg[k]} :: 0 <= k < |reg| ==>
      reg[k] != 0 && reg[k] in src.env.heap && (src.env.heap[reg[k]].ArrayNode? <==> st.refs[k].Array?)
  }

  /** Every container that is not open is copied. */
  ghost predicate Settled(src: Source, reg: seq<Ptr>, open: set<Ptr>, st: State) {
    forall k {:trigger reg[k]} :: 0 <= k < |reg| && reg[k] !in open ==> Copied(src, reg, st, k)
  }

  // ----- stability

  lemma RenamedStable(reg: seq<Ptr>, reg': seq<Ptr>, p: Ptr)
    requires reg <= reg' && Distinct(reg') && p in reg
    ensures p in reg' && Renamed(reg', p) == Renamed(reg, p)
  {
    IdOfIndex(reg, p);
    IdOfIndex(reg', p);
    assert reg'[IdOf(reg, p).value - 1] == p;
  }

  lemma CopyStable(reg: seq<Ptr>, reg': seq<Ptr>, value: Value, copy: Value)
    requires reg <= reg' && Distinct(reg') && CopyOf(reg, value, copy)
    ensures CopyOf(reg', value, copy)
  {
    var v := Deref(value);
    if v.Array? || v.Object? {
      RenamedStable(reg, reg', v.ptr);
    }
  }

  lemma CopiedEntriesStable(src: Source, reg: seq<Ptr>, reg': seq<Ptr>, p: Ptr, keys: seq<string>, copy: map<string, Value>)
    requires p in src.env.heap && reg <= reg' && Distinct(reg') && CopiedEntries(src, reg, p, keys, copy)
    ensures CopiedEntries(src, reg', p, keys, copy)
  {
    hide CopyOf;
    forall k | k in copy ensures CopyOf(reg', src.env.heap[p].entries[k], copy[k]) {
      CopyStable(reg, reg', src.env.heap[p].entries[k], copy[k]);
    }
  }

  /** A container that does not change stays as copied as it was while more pointers are registered. */
  lemma PartialStable(src: Source, reg: seq<Ptr>, reg': seq<Ptr>, st: State, st': State, k: nat, p: Ptr, done: seq<string>)
    requires reg <= reg' && Distinct(reg') && Partial(src, reg, st, k, p, done)
    requires k < |st.refs| <= |st'.refs| && SameAt(st, st', k)
    ensures Partial(src, reg', st', k, p, done)
  {
    hide CopiedEntries;
    CopiedEntriesStable(src, reg, reg', p, done, st.heap[k + 1].entries);
  }

  lemma SettledStable(src: Source, reg: seq<Ptr>, reg': seq<Ptr>, open: set<Ptr>, st: State, st': State, j: int)
    requires reg <= reg' && Distinct(reg') && Settled(src, reg, open, st)
    requires |reg| == |st.refs| <= |st'.refs| && SameExcept(st, st', |st.refs|, j)
    requires 0 <= j < |reg| ==> reg[j] in open
    ensures forall k {:trigger reg[k]} :: 0 <= k < |reg| && reg[k] !in open ==> Copied(src, reg', st', k)
  {
    hide Partial;
    forall k | 0 <= k < |reg| && reg[k] !in open ensures Copied(src, reg', st', k) {
      assert SameAt(st, st', k);
      PartialStable(src, reg, reg', st, st', k, reg[k], KeysOf(src, reg[k]));
    }
  }

  // ----- one entry

  /** A key other than "-0" reads back as itself. */
  lemma KeyReadsBack(opt: Options, isArray: bool, key: string, st: State)
    requires isArray ==> key != "-0"
    ensures Eval(opt, KeyDoc(isArray, key), st).Some?
    ensures Eval(opt, KeyDoc(isArray, key), st).value.1 == st
    ensures forall h, f :: ToString(h, Eval(opt, KeyDoc(isArray, key), st).value.0, f) == key
  {
    if isArray && ArrayIntKey(key).Some? {
      IntKeyText(key);
    }
  }

  /** Storing a copied value under the next key extends what container k has copied. */
  lemma PutCopies(src: Source, reg: seq<Ptr>, st: State, k: nat, p: Ptr, done: seq<string>, name: Value, key: string,
                  val: Value)
    requires Partial(src, reg, st, k, p, done) && key !in done && key in src.env.heap[p].entries
    requires ToString(st.heap, name, src.opt.floatText) == key
    requires CopyOf(reg, src.env.heap[p].entries[key], val)
    ensures Partial(src, reg, Put(src.opt, st, k, name, val), k, p, done + [key])
  {
  }

  // ----- the induction

  /** Interpreting d from st gives a copy of the value, and settles every pointer registered up to reg'. */
  ghost predicate Delivered(src: Source, value: Value, reg: seq<Ptr>, open: set<Ptr>, st: State, d: Doc, reg': seq<Ptr>) {
    var e := Eval(src.opt, d, st);
    && e.Some?
    && reg <= reg' && Matching(src, reg', e.value.1) && Settled(src, reg', open, e.value.1)
    && CopyOf(reg', value, e.value.0)
  }

  lemma {:induction false} OrderedLength(entries: map<string, Value>, keys: seq<string>)
    requires Ordered(entries, keys)
    ensures |keys| == |entries|
  {
    if keys != [] {
      var k := keys[0];
      var less := entries - {k};
      assert |less| == |entries| - 1 by {
        assert entries.Keys == less.Keys + {k};
      }
      OrderedLength(less, keys[1..]);
    } else {
      assert entries.Keys == {};
    }
  }

  lemma KeysPrinted(src: Source, v: Value)
    requires Good(src) && GoodValue(src, v) && v.Object?
    ensures KeysIn(src.env, v) == KeysOf(src, v.ptr)
  {
    OrderedLength(src.env.heap[v.ptr].entries, KeysOf(src, v.ptr));
  }

  /** Printing a clean value and reading it back yields a copy, and settles all it registers. */
  lemma {:induction false} EvalSer(src: Source, value: Value, reg: seq<Ptr>, open: set<Ptr>, depth: nat, st: State)
    requires Good(src) && GoodValue(src, value)
    requires Matching(src, reg, st) && Settled(src, reg, open, st)
    requires forall p :: p in open ==> p in reg
    requires Clean(src.env, value, reg, open, depth)
    ensures Delivered(src, value, reg, open, st, Ser(src.env, value, reg, depth).0, Ser(src.env, value, reg, depth).1)
    decreases MAX_NESTING + 1 - depth, 1, 0
  {
    hide Matching, Settled, SerItems, CleanItems, Good, KeysIn, KeysOf, EvalBody;
    var v := Deref(value);
    if depth + 1 <= MAX_NESTING {
      if v.Array? || v.Object? {
        IdOfIndex(reg, v.ptr);
        if IdOf(reg, v.ptr).Some? {
          EvalSerAgain(src, v, reg, open, st);
        } else {
          if v.Object? {
            KeysPrinted(src, v);
          }
          EvalSerContainer(src, v, reg, open, depth + 1, st);
        }
      }
    }
  }

  /** A container met again, and not an array that is still open: the back-reference is its copy. */
  lemma EvalSerAgain(src: Source, v: Value, reg: seq<Ptr>, open: set<Ptr>, st: State)
    requires GoodValue(src, v) && (v.Array? || v.Object?) && v.ptr in reg
    requires Matching(src, reg, st) && Settled(src, reg, open, st)
    requires v.Array? ==> v.ptr !in open
    ensures IdOf(reg, v.ptr).Some?
    ensures Eval(src.opt, DRef(v.Array?, IdOf(reg, v.ptr).value), st) == Some((Image(reg, v), st))
  {
    hide CopiedEntries;
    IdOfIndex(reg, v.ptr);
    var k := IdOf(reg, v.ptr).value - 1;
    assert reg[k] == v.ptr;
    if v.Array? {
      assert Copied(src, reg, st, k);
    } else {
      assert NumberedAt(st, k);
    }
  }

  function SerContainer(env: Env, v: Value, reg: seq<Ptr>, depth: nat): (Doc, seq<Ptr>)
    requires v.Array? || v.Object?
  {
    if v.Array? then SerArray(env, v.ptr, v.keys, reg, depth) else SerObject(env, v, reg, depth)
  }

  function OpenContainer(src: Source, v: Value, st: State): State
    requires v.Array? || v.Object?
  {
    if v.Array? then OpenArray(st) else OpenObject(src.opt, st, ClassOf(src.env.heap, v.ptr))
  }

  /** A container met for the first time. */
  lemma {:induction false} EvalSerContainer(src: Source, v: Value, reg: seq<Ptr>, open: set<Ptr>, depth: nat, st: State)
    requires Good(src) && GoodValue(src, v) && (v.Array? || v.Object?) && v.ptr !in reg
    requires Matching(src, reg, st) && Settled(src, reg, open, st) && depth <= MAX_NESTING
    requires forall p :: p in open ==> p in reg
    requires CleanItems(src.env, EntriesAt(src.env.heap, v.ptr), v.Array?, KeysOf(src, v.ptr), reg + [v.ptr], open + {v.ptr}, depth)
    ensures Delivered(src, v, reg, open, st, SerContainer(src.env, v, reg, depth).0, SerContainer(src.env, v, reg, depth).1)
    decreases MAX_NESTING + 1 - depth, 3, 0
  {
    hide Matching, Settled, SerItems, CleanItems, EvalBody, Partial, KeysIn, KeysOf, Good, OpenContainer;
    var p, k := v.ptr, |reg|;
    var reg1, st1 := reg + [p], OpenContainer(src, v, st);
    OpenMatching(src, v, reg, open, st);
    assert [] + KeysOf(src, p) == KeysOf(src, p);
    EvalSerItems(src, p, k, [], KeysOf(src, p), reg1, open + {p}, depth, st1);
    var (items, reg') := SerItems(src.env, EntriesAt(src.env.heap, p), v.Array?, KeysOf(src, p), reg1, depth);
    CloseContainer(src, v, reg1, reg', open, st1, k, items);
    ContainerDoc(src, v, reg, depth);
    MatchingFacts(src, reg, st);
    EvalContainer(src, v, items, st);
  }

  lemma ContainerDoc(src: Source, v: Value, reg: seq<Ptr>, depth: nat)
    requires Good(src) && GoodValue(src, v) && (v.Array? || v.Object?) && v.ptr !in reg
    ensures
      var (items, reg') := SerItems(src.env, EntriesAt(src.env.heap, v.ptr), v.Array?, KeysOf(src, v.ptr), reg + [v.ptr], depth);
      SerContainer(src.env, v, reg, depth)
      == (if v.Array? then DArray(items) else DObject(ClassOf(src.env.heap, v.ptr), items), reg')
  {
    hide SerItems, KeysIn, KeysOf, Good;
    IdOfIndex(reg, v.ptr);
    if v.Object? {
      KeysPrinted(src, v);
    }
  }

  lemma EvalContainer(src: Source, v: Value, items: Items, st: State)
    requires (v.Array? || v.Object?) && !TooDeep(src.opt, st)
    ensures OpenContainer(src, v, st).depth == st.depth + 1 && |OpenContainer(src, v, st).refs| == |st.refs| + 1
    ensures Eval(src.opt, if v.Array? then DArray(items) else DObject(ClassOf(src.env.heap, v.ptr), items), st)
         == EvalBody(src.opt, items, OpenContainer(src, v, st), |st.refs|)
  {
  }

  /** After its last key a container is closed: it is settled, and its variable is the copy. */
  lemma CloseContainer(src: Source, v: Value, reg: seq<Ptr>, reg': seq<Ptr>, open: set<Ptr>, st: State, k: nat, items: Items)
    requires GoodValue(src, v) && (v.Array? || v.Object?)
    requires k < |reg| && reg[k] == v.ptr && k < |st.refs| && st.depth > 0
    requires DeliveredItems(src, v.ptr, k, KeysOf(src, v.ptr), reg, open + {v.ptr}, st, items, reg')
    ensures EvalBody(src.opt, items, st, k).Some? && reg <= reg'
    ensures
      var (val, st') := EvalBody(src.opt, items, st, k).value;
      Matching(src, reg', st') && Settled(src, reg', open, st') && CopyOf(reg', v, val)
  {
    hide Matching, Settled, Partial, EvalEntries, CopyOf, KeysOf;
    var st2 := EvalEntries(src.opt, items, st, k).value;
    MatchingFacts(src, reg', st2);
    assert reg'[k] == v.ptr;
    CloseSettled(src, reg', open, st2, k, v.ptr);
    CloseMatching(src, reg', st2, st2.(depth := st2.depth - 1));
    CloseSettledDepth(src, reg', open, st2, st2.(depth := st2.depth - 1));
    CloseDelivers(src, v, reg', open, st2, k);
  }

  lemma OpenMatching(src: Source, v: Value, reg: seq<Ptr>, open: set<Ptr>, st: State)
    requires Good(src) && GoodValue(src, v) && (v.Array? || v.Object?) && v.ptr !in reg
    requires Matching(src, reg, st) && Settled(src, reg, open, st)
    ensures !TooDeep(src.opt, st)
    ensures Matching(src, reg + [v.ptr], OpenContainer(src, v, st))
    ensures Settled(src, reg + [v.ptr], open + {v.ptr}, OpenContainer(src, v, st))
    ensures Partial(src, reg + [v.ptr], OpenContainer(src, v, st), |reg|, v.ptr, [])
    ensures OpenContainer(src, v, st).depth == st.depth + 1 && |OpenContainer(src, v, st).refs| == |reg| + 1
  {
    hide Partial, Numbered, GoodNode;
    var reg1, st1 := reg + [v.ptr], OpenContainer(src, v, st);
    OpenNumbered(src.opt, st, ClassOf(src.env.heap, v.ptr));
    SettledStable(src, reg, reg1, open, st, st1, -1);
    OpenPartial(src, v, reg1, st);
    assert forall j :: 0 <= j < |reg| ==> reg1[j] == reg[j] && st1.refs[j] == st.refs[j];
  }

  lemma OpenPartial(src: Source, v: Value, reg1: seq<Ptr>, st: State)
    requires GoodValue(src, v) && (v.Array? || v.Object?) && src.opt.allowed(ClassOf(src.env.heap, v.ptr))
    ensures Partial(src, reg1, OpenContainer(src, v, st), |st.refs|, v.ptr, [])
  {
  }

  /** Once all keys are copied, the container is settled. */
  lemma CloseSettled(src: Source, reg: seq<Ptr>, open: set<Ptr>, st: State, k: nat, p: Ptr)
    requires k < |reg| && reg[k] == p && Distinct(reg)
    requires Settled(src, reg, open + {p}, st) && Partial(src, reg, st, k, p, KeysOf(src, p))
    ensures Settled(src, reg, open, st)
  {
  }

  lemma CloseDelivers(src: Source, v: Value, reg: seq<Ptr>, open: set<Ptr>, st: State, k: nat)
    requires GoodValue(src, v) && (v.Array? || v.Object?) && k < |reg| && reg[k] == v.ptr && Distinct(reg)
    requires Partial(src, reg, st, k, v.ptr, KeysOf(src, v.ptr))
    ensures k < |st.refs| && CopyOf(reg, v, st.refs[k])
  {
    hide CopiedEntries;
    IdOfIndex(reg, v.ptr);
  }

  lemma MatchingFacts(src: Source, reg: seq<Ptr>, st: State)
    requires Matching(src, reg, st)
    ensures Distinct(reg) && |reg| == |st.refs| && Numbered(st)
  {
  }

  lemma CloseMatching(src: Source, reg: seq<Ptr>, st: State, st': State)
    requires Matching(src, reg, st) && st'.heap == st.heap && st'.refs == st.refs
    ensures Matching(src, reg, st')
  {
  }

  lemma CloseSettledDepth(src: Source, reg: seq<Ptr>, open: set<Ptr>, st: State, st': State)
    requires Settled(src, reg, open, st) && st'.heap == st.heap && st'.refs == st.refs
    ensures Settled(src, reg, open, st')
  {
  }

  /** Storing an entry in an open container keeps the correspondence. */
  lemma PutMatching(src: Source, reg: seq<Ptr>, open: set<Ptr>, st: State, k: nat, name: Value, val: Value)
    requires Matching(src, reg, st) && Settled(src, reg, open, st) && k < |reg| && reg[k] in open
    ensures Matching(src, reg, Put(src.opt, st, k, name, val))
    ensures Settled(src, reg, open, Put(src.opt, st, k, name, val))
  {
    hide Put, Numbered, Partial;
    var st' := Put(src.opt, st, k, name, val);
    PutNumbered(src.opt, st, k, name, val);
    SettledStable(src, reg, reg, open, st, st', k);
    forall j | 0 <= j < |reg| ensures src.env.heap[reg[j]].ArrayNode? <==> st'.refs[j].Array? {
      assert j != k ==> SameAt(st, st', j);
    }
  }

  /** The remaining keys of container number k. */
  lemma {:induction false} EvalSerItems(src: Source, p: Ptr, k: nat, done: seq<string>, todo: seq<string>, reg: seq<Ptr>,
                                        open: set<Ptr>, depth: nat, st: State)
    requires Good(src) && p in src.env.heap && done + todo == KeysOf(src, p)
    requires k < |reg| && reg[k] == p && p in open && depth <= MAX_NESTING
    requires Matching(src, reg, st) && Settled(src, reg, open, st) && Partial(src, reg, st, k, p, done)
    requires forall q :: q in open ==> q in reg
    requires CleanItems(src.env, EntriesAt(src.env.heap, p), src.env.heap[p].ArrayNode?, todo, reg, open, depth)
    ensures
      var (items, reg') := SerItems(src.env, EntriesAt(src.env.heap, p), src.env.heap[p].ArrayNode?, todo, reg, depth);
      k < |st.refs| && DeliveredItems(src, p, k, done + todo, reg, open, st, items, reg')
    decreases MAX_NESTING + 1 - depth, 2, |todo|
  {
    hide Matching, Settled, Partial, Eval, Put, KeysOf, Numbered, Ser, Clean, KeyDoc, ToString, Good, GoodValue, SameAt;
    MatchingFacts(src, reg, st);
    if todo == [] {
      assert done + todo == done;
    } else {
      var key, isArray := todo[0], src.env.heap[p].ArrayNode?;
      ChildOf(src, p, done, todo);
      var child := src.env.heap[p].entries[key];
      var (d, reg1) := Ser(src.env, child, reg, depth);
      KeyReadsBack(src.opt, isArray, key, st);
      EvalSer(src, child, reg, open, depth, st);
      var (kv, _) := Eval(src.opt, KeyDoc(isArray, key), st).value;
      var (v, st1) := Eval(src.opt, d, st).value;
      MatchingFacts(src, reg1, st1);
      EvalFrame(src.opt, d, st);
      assert SameAt(st, st1, k);
      PartialStable(src, reg, reg1, st, st1, k, p, done);
      PutCopies(src, reg1, st1, k, p, done, kv, key, v);
      PutMatching(src, reg1, open, st1, k, kv, v);
      assert done + [key] + todo[1..] == done + todo;
      EvalSerItems(src, p, k, done + [key], todo[1..], reg1, open, depth, Put(src.opt, st1, k, kv, v));
    }
  }

  ghost predicate DeliveredItems(src: Source, p: Ptr, k: nat, keys: seq<string>, reg: seq<Ptr>, open: set<Ptr>, st: State,
                                 items: Items, reg': seq<Ptr>)
    requires k < |st.refs|
  {
    var e := EvalEntries(src.opt, items, st, k);
    && e.Some? && reg <= reg' && Matching(src, reg', e.value) && Settled(src, reg', open, e.value)
    && Partial(src, reg', e.value, k, p, keys)
  }

  lemma ChildOf(src: Source, p: Ptr, done: seq<string>, todo: seq<string>)
    requires Good(src) && p in src.env.heap && done + todo == KeysOf(src, p) && todo != []
    ensures todo[0] in src.env.heap[p].entries && todo[0] !in done
    ensures GoodValue(src, src.env.heap[p].entries[todo[0]])
    ensures Lookup(EntriesAt(src.env.heap, p), todo[0]) == src.env.heap[p].entries[todo[0]]
  {
    hide GoodValue;
    assert GoodNode(src, p);
    var keys := KeysOf(src, p);
    assert keys[|done|] == todo[0];
    assert forall i :: 0 <= i < |done| ==> done[i] == keys[i] && keys[i] != keys[|done|];
  }
}
