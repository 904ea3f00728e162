/**
 The round trip read on trees: the value that a printed graph denotes once its sharing is
 unfolded. SerializeAcyclic says which graphs have a finite unfolding.
 */
module SerializeTrees {
  import opened Decimal
  import opened PhpValues
  import opened SerializeSpec
  import opened UnserializeSpec
  import opened SerializeRoundTrip
  import opened SerializeTheorems

  datatype Tree = Leaf(v: Value) | ArrayTree(branches: Branches) | ObjectTree(cls: string, branches: Branches)

  datatype Branches = Tip | Branch(key: string, tree: Tree, rest: Branches)

  /** The value denotes the tree: keys and properties in order, sharing forgotten. */
  predicate Unfolds(h: Heap, value: Value, t: Tree)
    decreases t
  {
    var v := Deref(value);
    match t
    case Leaf(w) => v == w && !v.Array? && !v.Object? && !v.Ref? && !v.Resource?
    case ArrayTree(branches) => v.Array? && UnfoldsAll(h, EntriesAt(h, v.ptr), v.keys, branches)
    case ObjectTree(cls, branches) =>
      && v.Object? && v.ptr in h && h[v.ptr].ObjectNode? && h[v.ptr].cls == cls
      && UnfoldsAll(h, h[v.ptr].entries, h[v.ptr].propKeys, branches)
  }

  predicate UnfoldsAll(h: Heap, entries: map<string, Value>, keys: seq<string>, branches: Branches)
    decreases branches
  {
    match branches
    case Tip => keys == []
    case Branch(key, t, rest) =>
      && keys != [] && keys[0] == key && key in entries
      && Unfolds(h, entries[key], t) && UnfoldsAll(h, entries, keys[1..], rest)
  }

  function Nesting(t: Tree): nat {
    match t
    case Leaf(_) => 1
    case ArrayTree(branches) => 1 + NestingIn(branches)
    case ObjectTree(_, branches) => 1 + NestingIn(branches)
  }

  function NestingIn(branches: Branches): nat {
    match branches
    case Tip => 0
    case Branch(_, t, rest) => if Nesting(t) >= NestingIn(rest) then Nesting(t) else NestingIn(rest)
  }

  function Size(t: Tree): nat {
    match t
    case Leaf(_) => 1
    case ArrayTree(branches) => 1 + SizeIn(branches)
    case ObjectTree(_, branches) => 1 + SizeIn(branches)
  }

  function SizeIn(branches: Branches): nat {
    match branches
    case Tip => 0
    case Branch(_, t, rest) => Size(t) + SizeIn(rest)
  }

  /** No array in the tree has the key "-0". */
  predicate NoMinusZeroKey(t: Tree)
    decreases t
  {
    match t
    case Leaf(_) => true
    case ArrayTree(branches) => NoMinusZeroKeyIn(true, branches)
    case ObjectTree(_, branches) => NoMinusZeroKeyIn(false, branches)
  }

  predicate NoMinusZeroKeyIn(isArray: bool, branches: Branches)
    decreases branches
  {
    match branches
    case Tip => true
    case Branch(key, t, rest) => (isArray ==> key != "-0") && NoMinusZeroKey(t) && NoMinusZeroKeyIn(isArray, rest)
  }

  // ----- a value denotes one tree

  lemma {:induction false} UnfoldsOnce(h: Heap, value: Value, t: Tree, u: Tree)
    requires Unfolds(h, value, t) && Unfolds(h, value, u)
    ensures t == u
    decreases t
  {
    match t {
      case Leaf(_) =>
      case ArrayTree(branches) =>
        UnfoldsAllOnce(h, EntriesAt(h, Deref(value).ptr), Deref(value).keys, branches, u.branches);
      case ObjectTree(_, branches) =>
        UnfoldsAllOnce(h, h[Deref(value).ptr].entries, h[Deref(value).ptr].propKeys, branches, u.branches);
    }
  }

  lemma {:induction false} UnfoldsAllOnce(h: Heap, entries: map<string, Value>, keys: seq<string>, bs: Branches, cs: Branches)
    requires UnfoldsAll(h, entries, keys, bs) && UnfoldsAll(h, entries, keys, cs)
    ensures bs == cs
    decreases bs
  {
    match bs {
      case Tip =>
      case Branch(key, t, rest) =>
        UnfoldsOnce(h, entries[key], t, cs.tree);
        UnfoldsAllOnce(h, entries, keys[1..], rest, cs.rest);
    }
  }

  // ----- a copy denotes the same tree

  lemma {:induction false} CopyUnfolds(src: Source, reg: seq<Ptr>, h': Heap, value: Value, copy: Value, t: Tree)
    requires Good(src) && GoodValue(src, value) && CopyOf(reg, value, copy) && CopiedHeap(src, reg, h')
    requires Unfolds(src.env.heap, value, t)
    ensures Unfolds(h', copy, t)
    decreases t
  {
    hide CopyNode, Good;
    var v := Deref(value);
    if v.Array? || v.Object? {
      IdOfIndex(reg, v.ptr);
      var k := Renamed(reg, v.ptr) - 1;
      assert reg[k] == v.ptr;
      NodeCopied(src, reg, h', k);
      CopyUnfoldsAll(src, reg, h', v.ptr, [], KeysOf(src, v.ptr), EntriesAt(h', k + 1), t.branches);
    }
  }

  ghost predicate CopiedHeap(src: Source, reg: seq<Ptr>, h': Heap) {
    && (forall p :: p in h' <==> 1 <= p <= |reg|)
    && forall k {:trigger reg[k]} :: 0 <= k < |reg| ==>
         reg[k] in src.env.heap && CopyNode(src, reg, reg[k], h'[k + 1])
  }

  lemma NodeCopied(src: Source, reg: seq<Ptr>, h': Heap, k: nat)
    requires Good(src) && CopiedHeap(src, reg, h') && k < |reg|
    ensures k + 1 in h' && reg[k] in src.env.heap
    ensures CopiedEntries(src, reg, reg[k], KeysOf(src, reg[k]), h'[k + 1].entries)
    ensures src.env.heap[reg[k]].ObjectNode? ==>
      h'[k + 1].ObjectNode? && h'[k + 1].cls == src.env.heap[reg[k]].cls && h'[k + 1].propKeys == KeysOf(src, reg[k])
    ensures src.env.heap[reg[k]].ArrayNode? ==> h'[k + 1].ArrayNode?
  {
  }

  lemma {:induction false} CopyUnfoldsAll(src: Source, reg: seq<Ptr>, h': Heap, p: Ptr, done: seq<string>, todo: seq<string>,
                                          copy: map<string, Value>, branches: Branches)
    requires Good(src) && CopiedHeap(src, reg, h') && p in src.env.heap && done + todo == KeysOf(src, p)
    requires CopiedEntries(src, reg, p, KeysOf(src, p), copy)
    requires UnfoldsAll(src.env.heap, src.env.heap[p].entries, todo, branches)
    ensures UnfoldsAll(h', copy, todo, branches)
    decreases branches
  {
    hide CopiedHeap, Good, KeysOf, CopyOf;
    match branches {
      case Tip =>
      case Branch(key, t, rest) =>
        ChildOf(src, p, done, todo);
        assert (done + todo)[|done|] == key;
        assert key in copy;
        CopyUnfolds(src, reg, h', src.env.heap[p].entries[key], copy[key], t);
        assert done + [key] + todo[1..] == done + todo;
        CopyUnfoldsAll(src, reg, h', p, done + [key], todo[1..], copy, rest);
    }
  }

  // ----- acyclic values are clean

  /** Each open pointer denotes a tree that is larger than n. */
  ghost predicate Around(src: Source, open: set<Ptr>, around: map<Ptr, Tree>, n: nat) {
    forall p :: p in open ==>
      && p in around && p in src.env.heap && Size(around[p]) > n
      && (src.env.heap[p].ArrayNode? ==> Unfolds(src.env.heap, Array(p, KeysOf(src, p)), around[p]))
  }

  lemma {:induction false} AcyclicClean(src: Source, value: Value, t: Tree, reg: seq<Ptr>, open: set<Ptr>, depth: nat,
                                        around: map<Ptr, Tree>)
    requires Good(src) && GoodValue(src, value) && Unfolds(src.env.heap, value, t) && NoMinusZeroKey(t)
    requires depth + Nesting(t) <= 100000 && Around(src, open, around, Size(t))
    ensures Clean(src.env, value, reg, open, depth)
    decreases t
  {
    hide KeysIn, KeysOf, Good, CleanItems;
    var v := Deref(value);
    if v.Array? || v.Object? {
      IdOfIndex(reg, v.ptr);
      if IdOf(reg, v.ptr).Some? {
        if v.Array? && v.ptr in open {
          UnfoldsOnce(src.env.heap, v, t, around[v.ptr]);
          assert false;
        }
      } else {
        if v.Object? {
          KeysPrinted(src, v);
        }
        var around' := around[v.ptr := t];
        PropKeysOf(src, v);
        AcyclicCleanItems(src, v.ptr, [], KeysOf(src, v.ptr), t.branches, Register(reg, v.ptr), open + {v.ptr}, depth + 1, around');
      }
    }
  }

  lemma PropKeysOf(src: Source, v: Value)
    requires GoodValue(src, v) && (v.Array? || v.Object?)
    ensures KeysOf(src, v.ptr) == if v.Array? then v.keys else src.env.heap[v.ptr].propKeys
  {
  }

  lemma {:induction false} AcyclicCleanItems(src: Source, p: Ptr, done: seq<string>, todo: seq<string>, branches: Branches,
                                             reg: seq<Ptr>, open: set<Ptr>, depth: nat, around: map<Ptr, Tree>)
    requires Good(src) && p in src.env.heap && done + todo == KeysOf(src, p)
    requires UnfoldsAll(src.env.heap, src.env.heap[p].entries, todo, branches)
    requires NoMinusZeroKeyIn(src.env.heap[p].ArrayNode?, branches)
    requires depth + NestingIn(branches) <= MAX_NESTING && Around(src, open, around, SizeIn(branches))
    ensures CleanItems(src.env, EntriesAt(src.env.heap, p), src.env.heap[p].ArrayNode?, todo, reg, open, depth)
    decreases branches
  {
    hide Good, KeysOf, Clean, Ser;
    match branches {
      case Tip =>
      case Branch(key, t, rest) =>
        ChildOf(src, p, done, todo);
        var child := src.env.heap[p].entries[key];
        AcyclicClean(src, child, t, reg, open, depth, around);
        assert done + [key] + todo[1..] == done + todo;
        AcyclicCleanItems(src, p, done + [key], todo[1..], rest, Ser(src.env, child, reg, depth).1, open, depth, around);
    }
  }

  // ----- the theorems

  /**
   For every value with a finite unfolding, nested at most 100000 deep and without the array
   key "-0", however much it shares: reading back its text succeeds and gives the same tree.
   */
  lemma TreeRoundTrip(src: Source, v: Value, t: Tree)
    requires Good(src) && |src.env.heap| <= MAX_INT64 && GoodValue(src, v)
    requires Unfolds(src.env.heap, v, t) && Nesting(t) <= 100000 && NoMinusZeroKey(t)
    ensures Unserialize(src.opt, Serialize(src.env, v)).Some?
    ensures
      var (v', h') := Unserialize(src.opt, Serialize(src.env, v)).value;
      Unfolds(h', v', t)
  {
    hide Good, GoodValue, Unfolds, Ser, Clean, Serialize, Unserialize;
    AcyclicClean(src, v, t, [], {}, 0, map[]);
    RoundTrip(src, v);
    var (v', h') := Unserialize(src.opt, Serialize(src.env, v)).value;
    CopyUnfolds(src, Ser(src.env, v, [], 0).1, h', v, v', t);
  }

  /** serialize is injective on such values: equal texts denote equal trees. */
  lemma SerializeInjective(src1: Source, v1: Value, t1: Tree, src2: Source, v2: Value, t2: Tree)
    requires Good(src1) && |src1.env.heap| <= MAX_INT64 && GoodValue(src1, v1)
    requires Good(src2) && |src2.env.heap| <= MAX_INT64 && GoodValue(src2, v2)
    requires Unfolds(src1.env.heap, v1, t1) && Nesting(t1) <= 100000 && NoMinusZeroKey(t1)
    requires Unfolds(src2.env.heap, v2, t2) && Nesting(t2) <= 100000 && NoMinusZeroKey(t2)
    requires src1.opt == src2.opt && Serialize(src1.env, v1) == Serialize(src2.env, v2)
    ensures t1 == t2
  {
    hide Good, GoodValue, Unfolds, Serialize, Unserialize;
    TreeRoundTrip(src1, v1, t1);
    TreeRoundTrip(src2, v2, t2);
    var (v', h') := Unserialize(src1.opt, Serialize(src1.env, v1)).value;
    UnfoldsOnce(h', v', t1, t2);
  }
}
