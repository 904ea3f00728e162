/**
 Facts about interpreting documents that do not depend on where the document came from:
 which containers a step may change, and which keys it can create.
 */
module SerializeEval {
  import opened PhpValues
  import opened SerializeSpec
  import opened UnserializeSpec
  import opened SerializeSyntax

  /** The k-th container variable holds pointer k + 1, and the heap has exactly these pointers. */
  ghost predicate Numbered(st: State) {
    && (forall p :: p in st.heap <==> 1 <= p <= |st.refs|)
    && forall k {:trigger st.refs[k]} {:trigger NumberedAt(st, k)} :: 0 <= k < |st.refs| ==> NumberedAt(st, k)
  }

  ghost predicate NumberedAt(st: State, k: nat)
    requires k < |st.refs|
  {
    && k + 1 in st.heap
    && (st.refs[k] == Object(k + 1) || (st.refs[k].Array? && st.refs[k].ptr == k + 1))
    && (st.heap[k + 1].ArrayNode? <==> st.refs[k].Array?)
  }

  /** Container k is the same variable and the same map in both states. */
  ghost predicate SameAt(st: State, st': State, k: nat)
    requires k < |st.refs| <= |st'.refs|
  {
    && st'.refs[k] == st.refs[k]
    && k + 1 in st.heap && k + 1 in st'.heap
    && st'.heap[k + 1] == st.heap[k + 1]
  }

  /** Container k may have new entries, but it is still the same kind of container. */
  ghost predicate SameKindAt(st: State, st': State, k: nat)
    requires k < |st.refs| <= |st'.refs|
  {
    && (st.refs[k].Array? <==> st'.refs[k].Array?)
    && k + 1 in st.heap && k + 1 in st'.heap
    && (st.heap[k + 1].ObjectNode? && st'.heap[k + 1].ObjectNode? ==> st'.heap[k + 1].cls == st.heap[k + 1].cls)
  }

  /** Of the first n containers, all but k are the same in both states. */
  ghost predicate SameExcept(st: State, st': State, n: nat, k: int)
    requires n <= |st.refs| <= |st'.refs|
  {
    forall j {:trigger st'.refs[j]} {:trigger SameAt(st, st', j)} :: 0 <= j < n && j != k ==> SameAt(st, st', j)
  }

  lemma OpenNumbered(opt: Options, st: State, cls: string)
    requires Numbered(st)
    ensures Numbered(OpenArray(st)) && Numbered(OpenObject(opt, st, cls))
    ensures SameExcept(st, OpenArray(st), |st.refs|, -1) && SameExcept(st, OpenObject(opt, st, cls), |st.refs|, -1)
  {
  }

  lemma PutNumbered(opt: Options, st: State, k: nat, key: Value, val: Value)
    requires Numbered(st) && k < |st.refs|
    ensures |Put(opt, st, k, key, val).refs| == |st.refs|
    ensures Numbered(Put(opt, st, k, key, val))
    ensures SameKindAt(st, Put(opt, st, k, key, val), k)
    ensures SameExcept(st, Put(opt, st, k, key, val), |st.refs|, k)
  {
  }

  /** Interpreting a document leaves every container that was already open exactly as it was. */
  lemma {:induction false} EvalFrame(opt: Options, d: Doc, st: State)
    requires Numbered(st)
    ensures Eval(opt, d, st).Some? ==> Numbered(Eval(opt, d, st).value.1)
    ensures Eval(opt, d, st).Some? ==> SameExcept(st, Eval(opt, d, st).value.1, |st.refs|, -1)
    decreases d
  {
    hide Put, EvalEntries;
    match d {
      case DArray(items) =>
        if Eval(opt, d, st).Some? {
          OpenNumbered(opt, st, "");
          EvalBodyFrame(opt, items, st, OpenArray(st));
        }
      case DObject(cls, items) =>
        if Eval(opt, d, st).Some? {
          OpenNumbered(opt, st, cls);
          EvalBodyFrame(opt, items, st, OpenObject(opt, st, cls));
        }
      case _ =>
    }
  }

  lemma {:induction false} EvalBodyFrame(opt: Options, items: Items, st: State, st1: State)
    requires Numbered(st1) && |st1.refs| == |st.refs| + 1 && st1.depth > 0
    requires SameExcept(st, st1, |st.refs|, -1)
    requires EvalBody(opt, items, st1, |st.refs|).Some?
    ensures Numbered(EvalBody(opt, items, st1, |st.refs|).value.1)
    ensures SameExcept(st, EvalBody(opt, items, st1, |st.refs|).value.1, |st.refs|, -1)
    decreases items, 1
  {
    hide Put, EvalEntries;
    EvalEntriesFrame(opt, items, st1, |st.refs|);
    var st2 := EvalEntries(opt, items, st1, |st.refs|).value;
  }

  /** Interpreting the entries of container k changes, of the open containers, only container k. */
  lemma {:induction false} EvalEntriesFrame(opt: Options, items: Items, st: State, k: nat)
    requires Numbered(st) && k < |st.refs|
    ensures EvalEntries(opt, items, st, k).Some? ==> Numbered(EvalEntries(opt, items, st, k).value)
    ensures EvalEntries(opt, items, st, k).Some? ==> SameKindAt(st, EvalEntries(opt, items, st, k).value, k)
    ensures EvalEntries(opt, items, st, k).Some? ==>
      SameExcept(st, EvalEntries(opt, items, st, k).value, |st.refs|, k)
    decreases items, 0
  {
    hide Put, Eval;
    match items {
      case End =>
      case Entry(key, val, rest) =>
        if EvalEntries(opt, items, st, k).Some? {
          var (kv, st1) := Eval(opt, key, st).value;
          EvalFrame(opt, key, st);
          var (v, st2) := Eval(opt, val, st1).value;
          EvalFrame(opt, val, st1);
          PutNumbered(opt, st2, k, kv, v);
          var st3 := Put(opt, st2, k, kv, v);
          EvalEntriesFrame(opt, rest, st3, k);
          var st4 := EvalEntries(opt, rest, st3, k).value;
          assert SameAt(st, st1, k) && SameAt(st1, st2, k);
        }
    }
  }
}
