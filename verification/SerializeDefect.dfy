/**
 The other half of the round trip: when the printer's walk is not clean, what is read back is
 not a copy. The defect is left in the heap the parser builds and no later step removes it.
 */
module SerializeDefect {
  import opened Basics
  import opened Wrappers
  import opened Decimal
  import opened OrderedMaps
  import opened PhpValues
  import opened SerializeSpec
  import opened UnserializeSpec
  import opened SerializeSyntax
  import opened SerializeEval
  import opened SerializeRoundTrip

  /** A value lost to the nesting limit, or an array whose keys were copied before it was complete. */
  predicate Bad(value: Value, copy: Value) {
    var v := Deref(value);
    (copy.Null? && !v.Null?) || (v.Array? && copy.Array? && |copy.keys| < |v.keys|)
  }

  ghost predicate BadEntryAt(src: Source, p: Ptr, node: Node, key: string)
    requires p in src.env.heap
  {
    key in node.entries && key in src.env.heap[p].entries && Bad(src.env.heap[p].entries[key], node.entries[key])
  }

  ghost predicate BadEntry(src: Source, reg: seq<Ptr>, st: State) {
    exists k, key {:trigger BadEntryAt(src, reg[k], st.heap[k + 1], key)} ::
      0 <= k < |reg| && k + 1 in st.heap && reg[k] in src.env.heap && BadEntryAt(src, reg[k], st.heap[k + 1], key)
  }

  predicate HasMinusZero(src: Source, p: Ptr) {
    p in src.env.heap && src.env.heap[p].ArrayNode? && "-0" in src.env.heap[p].entries
  }

  ghost predicate MinusZero(src: Source, reg: seq<Ptr>) {
    exists k {:trigger reg[k]} :: 0 <= k < |reg| && HasMinusZero(src, reg[k])
  }

  ghost predicate Defect(src: Source, reg: seq<Ptr>, st: State) {
    MinusZero(src, reg) || BadEntry(src, reg, st)
  }

  /** Open arrays have not yet received all their keys. */
  ghost predicate Short(src: Source, reg: seq<Ptr>, open: set<Ptr>, st: State) {
    |reg| <= |st.refs| &&
    forall k {:trigger reg[k]} :: 0 <= k < |reg| && reg[k] in open && st.refs[k].Array? ==>
      |st.refs[k].keys| < |KeysOf(src, reg[k])|
  }

  // ----- defects stay

  lemma DefectStays(src: Source, reg: seq<Ptr>, reg': seq<Ptr>, st: State, st': State)
    requires reg <= reg' && |reg| <= |st.refs| <= |st'.refs| && SameExcept(st, st', |st.refs|, -1)
    ensures Defect(src, reg, st) ==> Defect(src, reg', st')
  {
    if MinusZero(src, reg) {
      var k :| 0 <= k < |reg| && HasMinusZero(src, reg[k]);
      assert reg'[k] == reg[k];
    } else if BadEntry(src, reg, st) {
      var k, key :| 0 <= k < |reg| && k + 1 in st.heap && reg[k] in src.env.heap && BadEntryAt(src, reg[k], st.heap[k + 1], key);
      assert SameAt(st, st', k);
      assert BadEntryAt(src, reg'[k], st'.heap[k + 1], key);
    }
  }

  /** A new entry does not hide a defect. */
  lemma PutKeepsDefect(src: Source, reg: seq<Ptr>, st: State, k: nat, name: Value, val: Value)
    requires Numbered(st) && k < |st.refs| && |reg| == |st.refs| && Defect(src, reg, st)
    requires !MinusZero(src, reg) ==> ToString(st.heap, name, src.opt.floatText) !in EntriesAt(st.heap, k + 1)
    ensures Defect(src, reg, Put(src.opt, st, k, name, val))
  {
    hide ToString, AppendKey, Bad;
    if !MinusZero(src, reg) {
      var st' := Put(src.opt, st, k, name, val);
      PutNumbered(src.opt, st, k, name, val);
      var j, key :| 0 <= j < |reg| && j + 1 in st.heap && reg[j] in src.env.heap && BadEntryAt(src, reg[j], st.heap[j + 1], key);
      assert NumberedAt(st, k);
      if j != k {
        assert SameAt(st, st', j);
      }
      assert BadEntryAt(src, reg[j], st'.heap[j + 1], key);
    }
  }

  /** Storing a bad value is a defect. */
  lemma PutBad(src: Source, reg: seq<Ptr>, st: State, k: nat, name: Value, key: string, val: Value)
    requires Numbered(st) && k < |st.refs| && |reg| == |st.refs|
    requires reg[k] in src.env.heap && key in src.env.heap[reg[k]].entries
    requires ToString(st.heap, name, src.opt.floatText) == key && Bad(src.env.heap[reg[k]].entries[key], val)
    ensures Defect(src, reg, Put(src.opt, st, k, name, val))
  {
    hide ToString, AppendKey, Bad;
    assert NumberedAt(st, k);
    assert BadEntryAt(src, reg[k], Put(src.opt, st, k, name, val).heap[k + 1], key);
  }

  // ----- the induction

  /** What interpreting a printed value does in any case, and the defect an unclean walk leaves. */
  ghost predicate Delivered(src: Source, value: Value, reg: seq<Ptr>, st: State, d: Doc, reg': seq<Ptr>, clean: bool) {
    var e := Eval(src.opt, d, st);
    && e.Some?
    && reg <= reg' && Matching(src, reg', e.value.1)
    && (Defect(src, reg, st) ==> Defect(src, reg', e.value.1))
    && (!clean ==> Defect(src, reg', e.value.1) || Bad(value, e.value.0))
  }

  lemma {:induction false} EvalSerAny(src: Source, value: Value, reg: seq<Ptr>, open: set<Ptr>, depth: nat, st: State)
    requires Good(src) && GoodValue(src, value)
    requires Matching(src, reg, st) && Short(src, reg, open, st)
    requires forall p :: p in open ==> p in reg
    ensures
      var (d, reg') := Ser(src.env, value, reg, depth);
      Delivered(src, value, reg, st, d, reg', Clean(src.env, value, reg, open, depth))
    decreases MAX_NESTING + 1 - depth, 1, 0
  {
    hide Matching, Short, Defect, SerItems, CleanItems, Good, KeysIn, KeysOf, EvalBody;
    var v := Deref(value);
    if depth + 1 <= MAX_NESTING {
      if v.Array? || v.Object? {
        IdOfIndex(reg, v.ptr);
        if IdOf(reg, v.ptr).Some? {
          EvalSerAgainAny(src, v, reg, open, st);
        } else {
          if v.Object? {
            KeysPrinted(src, v);
          }
          EvalSerContainerAny(src, v, reg, open, depth + 1, st);
        }
      }
    }
  }

  /** A back-reference to an array that is still open copies too few keys. */
  lemma EvalSerAgainAny(src: Source, v: Value, reg: seq<Ptr>, open: set<Ptr>, st: State)
    requires GoodValue(src, v) && (v.Array? || v.Object?) && v.ptr in reg
    requires Matching(src, reg, st) && Short(src, reg, open, st)
    ensures IdOf(reg, v.ptr).Some?
    ensures
      var e := Eval(src.opt, DRef(v.Array?, IdOf(reg, v.ptr).value), st);
      e.Some? && e.value.1 == st && (v.Array? && v.ptr in open ==> Bad(v, e.value.0))
  {
    IdOfIndex(reg, v.ptr);
    var k := IdOf(reg, v.ptr).value - 1;
    assert reg[k] == v.ptr;
  }

  lemma {:induction false} EvalSerContainerAny(src: Source, v: Value, reg: seq<Ptr>, open: set<Ptr>, depth: nat, st: State)
    requires Good(src) && GoodValue(src, v) && (v.Array? || v.Object?) && v.ptr !in reg
    requires Matching(src, reg, st) && Short(src, reg, open, st) && depth <= MAX_NESTING
    requires forall p :: p in open ==> p in reg
    ensures
      var (d, reg') := SerContainer(src.env, v, reg, depth);
      Delivered(src, v, reg, st, d, reg',
                CleanItems(src.env, EntriesAt(src.env.heap, v.ptr), v.Array?, KeysOf(src, v.ptr), reg + [v.ptr], open + {v.ptr}, depth))
    decreases MAX_NESTING + 1 - depth, 3, 0
  {
    hide Matching, Short, Defect, SerItems, CleanItems, EvalBody, KeysIn, KeysOf, Good, OpenContainer;
    var p, k := v.ptr, |reg|;
    var reg1, st1 := reg + [p], OpenContainer(src, v, st);
    OpenAny(src, v, reg, open, st);
    assert [] + KeysOf(src, p) == KeysOf(src, p);
    EvalSerItemsAny(src, p, k, [], KeysOf(src, p), reg1, open + {p}, depth, st1);
    var (items, reg') := SerItems(src.env, EntriesAt(src.env.heap, p), v.Array?, KeysOf(src, p), reg1, depth);
    CloseAny(src, reg', st1, k, items);
    ContainerDoc(src, v, reg, depth);
    MatchingFacts(src, reg, st);
    EvalContainer(src, v, items, st);
  }

  lemma OpenAny(src: Source, v: Value, reg: seq<Ptr>, open: set<Ptr>, st: State)
    requires Good(src) && GoodValue(src, v) && (v.Array? || v.Object?) && v.ptr !in reg
    requires Matching(src, reg, st) && Short(src, reg, open, st)
    requires forall p :: p in open ==> p in reg
    ensures
      var reg1, st1 := reg + [v.ptr], OpenContainer(src, v, st);
      && !TooDeep(src.opt, st) && st1.depth == st.depth + 1 && |st1.refs| == |reg| + 1
      && Matching(src, reg1, st1)
      && Short(src, reg1, open, st1)
      && EntriesAt(st1.heap, |reg| + 1) == map[]
      && (st1.refs[|reg|].Array? ==> st1.refs[|reg|].keys == [])
      && (Defect(src, reg, st) ==> Defect(src, reg1, st1))
  {
    hide Defect, Numbered, GoodNode;
    var reg1, st1 := reg + [v.ptr], OpenContainer(src, v, st);
    OpenNumbered(src.opt, st, ClassOf(src.env.heap, v.ptr));
    assert forall j :: 0 <= j < |reg| ==> reg1[j] == reg[j] && st1.refs[j] == st.refs[j];
    DefectStays(src, reg, reg1, st, st1);
  }

  lemma CloseAny(src: Source, reg: seq<Ptr>, st: State, k: nat, items: Items)
    requires k < |st.refs| && st.depth > 0
    requires EvalEntries(src.opt, items, st, k).Some? && Matching(src, reg, EvalEntries(src.opt, items, st, k).value)
    ensures EvalBody(src.opt, items, st, k).Some?
    ensures
      var st2, st3 := EvalEntries(src.opt, items, st, k).value, EvalBody(src.opt, items, st, k).value.1;
      Matching(src, reg, st3) && (Defect(src, reg, st2) ==> Defect(src, reg, st3))
  {
  }

  /** Container number k holds no more than the keys in `done`. */
  ghost predicate Within(src: Source, reg: seq<Ptr>, st: State, k: nat, done: seq<string>) {
    && k < |st.refs|
    && (st.refs[k].Array? ==> |st.refs[k].keys| <= |done|)
    && (!MinusZero(src, reg) ==> forall x :: x in EntriesAt(st.heap, k + 1) ==> x in done)
  }

  ghost predicate DeliveredItems(src: Source, k: nat, reg: seq<Ptr>, st: State, items: Items, reg': seq<Ptr>, clean: bool)
    requires k < |st.refs|
  {
    var e := EvalEntries(src.opt, items, st, k);
    && e.Some? && reg <= reg' && Matching(src, reg', e.value)
    && (Defect(src, reg, st) || !clean ==> Defect(src, reg', e.value))
  }

  lemma {:induction false} EvalSerItemsAny(src: Source, p: Ptr, k: nat, done: seq<string>, todo: seq<string>, reg: seq<Ptr>,
                                           open: set<Ptr>, depth: nat, st: State)
    requires Good(src) && p in src.env.heap && done + todo == KeysOf(src, p)
    requires k < |reg| && reg[k] == p && p in open && depth <= MAX_NESTING
    requires Matching(src, reg, st) && Short(src, reg, open - {p}, st) && Within(src, reg, st, k, done)
    requires forall q :: q in open ==> q in reg
    ensures
      var isArray := src.env.heap[p].ArrayNode?;
      var (items, reg') := SerItems(src.env, EntriesAt(src.env.heap, p), isArray, todo, reg, depth);
      DeliveredItems(src, k, reg, st, items, reg',
                     CleanItems(src.env, EntriesAt(src.env.heap, p), isArray, todo, reg, open, depth))
    decreases MAX_NESTING + 1 - depth, 2, |todo|
  {
    hide Matching, Short, Defect, Within, Eval, Put, KeysOf, Numbered, Ser, Clean, KeyDoc, KeyText, ToString, Bad, Good;
    MatchingFacts(src, reg, st);
    if todo != [] {
      var key, isArray := todo[0], src.env.heap[p].ArrayNode?;
      ChildOf(src, p, done, todo);
      var child := src.env.heap[p].entries[key];
      var (d, reg1) := Ser(src.env, child, reg, depth);
      KeyEvaluates(src.opt, isArray, key, st);
      ShortWithin(src, reg, open, st, k, done, todo);
      EvalSerAny(src, child, reg, open, depth, st);
      var (kv, _) := Eval(src.opt, KeyDoc(isArray, key), st).value;
      var (v, st1) := Eval(src.opt, d, st).value;
      StepAny(src, p, k, done, key, reg, reg1, open, st, st1, d, kv, v);
      var clean := Clean(src.env, child, reg, open, depth) && (isArray ==> key != "-0");
      if Defect(src, reg, st) || !clean {
        StepDefect(src, p, k, done, key, reg, reg1, st, st1, d, kv, v, clean);
      }
      assert done + [key] + todo[1..] == done + todo;
      EvalSerItemsAny(src, p, k, done + [key], todo[1..], reg1, open, depth, Put(src.opt, st1, k, kv, v));
    }
  }

  /** The text under which an array key is stored when it is read back. */
  function KeyText(isArray: bool, key: string): string {
    if isArray && key == "-0" then "0" else key
  }

  lemma KeyEvaluates(opt: Options, isArray: bool, key: string, st: State)
    ensures Eval(opt, KeyDoc(isArray, key), st).Some? && Eval(opt, KeyDoc(isArray, key), st).value.1 == st
    ensures forall h, f :: ToString(h, Eval(opt, KeyDoc(isArray, key), st).value.0, f) == KeyText(isArray, key)
  {
    if isArray && key == "-0" {
      assert KeyDigits(key) == "0";
      assert DigitsValue("0") == DigitsValue("0"[..0]) * 10 + 0;
      assert ArrayIntKey(key) == Some(0);
      assert FormatInt(0) == [DigitChar(0)];
    } else {
      KeyReadsBack(opt, isArray, key, st);
    }
  }

  lemma ShortWithin(src: Source, reg: seq<Ptr>, open: set<Ptr>, st: State, k: nat, done: seq<string>, todo: seq<string>)
    requires k < |reg| && reg[k] in open && Distinct(reg) && done + todo == KeysOf(src, reg[k]) && todo != []
    requires Short(src, reg, open - {reg[k]}, st) && Within(src, reg, st, k, done)
    ensures Short(src, reg, open, st)
  {
  }

  lemma StepAny(src: Source, p: Ptr, k: nat, done: seq<string>, key: string, reg: seq<Ptr>, reg1: seq<Ptr>,
                open: set<Ptr>, st: State, st1: State, d: Doc, kv: Value, v: Value)
    requires k < |reg| && reg[k] == p && p in src.env.heap && reg <= reg1
    requires Matching(src, reg, st) && Matching(src, reg1, st1)
    requires Eval(src.opt, d, st) == Some((v, st1))
    requires Short(src, reg, open - {p}, st) && Within(src, reg, st, k, done)
    requires forall q :: q in open ==> q in reg
    requires ToString(st1.heap, kv, src.opt.floatText) == KeyText(src.env.heap[p].ArrayNode?, key)
    requires key in src.env.heap[p].entries
    ensures
      var st2 := Put(src.opt, st1, k, kv, v);
      Matching(src, reg1, st2) && Short(src, reg1, open - {p}, st2) && Within(src, reg1, st2, k, done + [key])
  {
    hide Put, Eval, Within, Matching, Short, KeysOf;
    MatchingFacts(src, reg, st);
    MatchingFacts(src, reg1, st1);
    EvalFrame(src.opt, d, st);
    PutNumbered(src.opt, st1, k, kv, v);
    var st2 := Put(src.opt, st1, k, kv, v);
    PutMatchingAny(src, reg1, st1, k, kv, v);
    ShortStays(src, reg, reg1, open - {p}, st, st2, k);
    WithinGrows(src, p, k, done, key, reg, reg1, st, st1, kv, v);
  }

  lemma PutMatchingAny(src: Source, reg: seq<Ptr>, st: State, k: nat, name: Value, val: Value)
    requires Matching(src, reg, st) && k < |reg|
    ensures Matching(src, reg, Put(src.opt, st, k, name, val))
  {
  }

  lemma ShortStays(src: Source, reg: seq<Ptr>, reg': seq<Ptr>, open: set<Ptr>, st: State, st': State, k: nat)
    requires reg <= reg' && Distinct(reg') && |reg| == |st.refs| && |reg'| == |st'.refs|
    requires SameExcept(st, st', |st.refs|, k) && Short(src, reg, open, st)
    requires k < |reg| && reg[k] !in open
    requires forall q :: q in open ==> q in reg
    ensures Short(src, reg', open, st')
  {
  }

  lemma WithinGrows(src: Source, p: Ptr, k: nat, done: seq<string>, key: string, reg: seq<Ptr>, reg1: seq<Ptr>,
                    st: State, st1: State, kv: Value, v: Value)
    requires k < |reg| && reg[k] == p && p in src.env.heap && reg <= reg1 && |reg| == |st.refs| <= |st1.refs|
    requires Numbered(st1) && SameExcept(st, st1, |st.refs|, -1) && Within(src, reg, st, k, done)
    requires ToString(st1.heap, kv, src.opt.floatText) == KeyText(src.env.heap[p].ArrayNode?, key)
    requires key in src.env.heap[p].entries
    ensures Within(src, reg1, Put(src.opt, st1, k, kv, v), k, done + [key])
  {
  }

  lemma StepDefect(src: Source, p: Ptr, k: nat, done: seq<string>, key: string, reg: seq<Ptr>, reg1: seq<Ptr>,
                   st: State, st1: State, d: Doc, kv: Value, v: Value, clean: bool)
    requires k < |reg| && reg[k] == p && p in src.env.heap && reg <= reg1
    requires Matching(src, reg, st) && Matching(src, reg1, st1)
    requires Eval(src.opt, d, st) == Some((v, st1)) && Within(src, reg, st, k, done) && key !in done
    requires ToString(st1.heap, kv, src.opt.floatText) == KeyText(src.env.heap[p].ArrayNode?, key)
    requires key in src.env.heap[p].entries
    requires Defect(src, reg, st) ==> Defect(src, reg1, st1)
    requires !clean ==>
      (src.env.heap[p].ArrayNode? && key == "-0") || Defect(src, reg1, st1) || Bad(src.env.heap[p].entries[key], v)
    requires Defect(src, reg, st) || !clean
    ensures Defect(src, reg1, Put(src.opt, st1, k, kv, v))
  {
    hide Put, Eval, Bad, BadEntry, Numbered;
    MatchingFacts(src, reg1, st1);
    if !MinusZero(src, reg1) {
      assert !HasMinusZero(src, reg1[k]);
      assert forall j :: 0 <= j < |reg| ==> reg1[j] == reg[j];
      if Defect(src, reg1, st1) {
        MatchingFacts(src, reg, st);
        EvalFrame(src.opt, d, st);
        assert SameAt(st, st1, k);
        PutKeepsDefect(src, reg1, st1, k, kv, v);
      } else {
        PutBad(src, reg1, st1, k, kv, key, v);
      }
    }
  }
}
