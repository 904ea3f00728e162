/**
 Which graphs denote a tree: exactly those without a cycle below the value. Acyclic means
 here that the containers below the value can be ranked so that every container ranks above
 the containers it holds; a graph with a cycle has no such ranking.
 */
module SerializeAcyclic {
  import opened Decimal
  import opened PhpValues
  import opened SerializeSpec
  import opened UnserializeSpec
  import opened SerializeRoundTrip
  import opened SerializeTrees

  predicate IsContainer(v: Value) {
    v.Array? || v.Object?
  }

  /** A container in the ranking, or a value that needs no rank. */
  predicate Covers(rank: map<Ptr, nat>, value: Value) {
    var v := Deref(value);
    IsContainer(v) ==> v.ptr in rank
  }

  /** What p holds under a key ranks below p. */
  ghost predicate Below(src: Source, rank: map<Ptr, nat>, p: Ptr, key: string)
    requires p in rank && p in src.env.heap
  {
    var entries := src.env.heap[p].entries;
    key in entries ==>
      var c := Deref(entries[key]);
      IsContainer(c) ==> c.ptr in rank && rank[c.ptr] < rank[p]
  }

  /** The ranking is closed under what its containers hold, and falls from each of them to its contents. */
  ghost predicate Ranked(src: Source, rank: map<Ptr, nat>) {
    forall p :: p in rank ==> p in src.env.heap && forall key :: key in KeysOf(src, p) ==> Below(src, rank, p, key)
  }

  ghost predicate NoMinusZeroBelow(src: Source, rank: map<Ptr, nat>) {
    forall p :: p in rank && p in src.env.heap && src.env.heap[p].ArrayNode? ==> "-0" !in KeysOf(src, p)
  }

  /** One more than the rank of a container; 0 for other values. */
  ghost function Height(rank: map<Ptr, nat>, value: Value): nat
    requires Covers(rank, value)
  {
    var v := Deref(value);
    if IsContainer(v) then rank[v.ptr] + 1 else 0
  }

  // ----- a ranking gives a tree

  lemma {:induction false} RankedUnfolds(src: Source, rank: map<Ptr, nat>, value: Value) returns (t: Tree)
    requires Good(src) && GoodValue(src, value) && Ranked(src, rank) && Covers(rank, value)
    ensures Unfolds(src.env.heap, value, t) && Nesting(t) <= Height(rank, value) + 1
    ensures NoMinusZeroBelow(src, rank) ==> NoMinusZeroKey(t)
    decreases Height(rank, value), 1, 0
  {
    hide KeysOf, Good, Ranked;
    var v := Deref(value);
    if IsContainer(v) {
      PropKeysOf(src, v);
      var branches := RankedUnfoldsAll(src, rank, v.ptr, [], KeysOf(src, v.ptr));
      t := if v.Array? then ArrayTree(branches) else ObjectTree(src.env.heap[v.ptr].cls, branches);
    } else {
      t := Leaf(v);
    }
  }

  lemma {:induction false} RankedUnfoldsAll(src: Source, rank: map<Ptr, nat>, p: Ptr, done: seq<string>, todo: seq<string>)
    returns (branches: Branches)
    requires Good(src) && Ranked(src, rank) && p in rank && p in src.env.heap && done + todo == KeysOf(src, p)
    ensures UnfoldsAll(src.env.heap, src.env.heap[p].entries, todo, branches) && NestingIn(branches) <= rank[p] + 1
    ensures NoMinusZeroBelow(src, rank) ==> NoMinusZeroKeyIn(src.env.heap[p].ArrayNode?, branches)
    decreases rank[p] + 1, 0, |todo|
  {
    hide Good, KeysOf, Unfolds;
    if todo == [] {
      branches := Tip;
    } else {
      ChildOf(src, p, done, todo);
      var key := todo[0];
      assert (done + todo)[|done|] == key;
      var child := src.env.heap[p].entries[key];
      assert Below(src, rank, p, key);
      var t := RankedUnfolds(src, rank, child);
      assert done + [key] + todo[1..] == done + todo;
      var rest := RankedUnfoldsAll(src, rank, p, done + [key], todo[1..]);
      branches := Branch(key, t, rest);
    }
  }

  // ----- the trees give a ranking

  /** The value that holds a pointer. */
  ghost function ValueAt(src: Source, p: Ptr): Value
    requires p in src.env.heap
  {
    if src.env.heap[p].ArrayNode? then Array(p, KeysOf(src, p)) else Object(p)
  }

  ghost predicate HasTree(src: Source, p: Ptr)
    requires p in src.env.heap
  {
    exists t :: Unfolds(src.env.heap, ValueAt(src, p), t)
  }

  ghost function TreeAt(src: Source, p: Ptr): (t: Tree)
    requires p in src.env.heap && HasTree(src, p)
    ensures Unfolds(src.env.heap, ValueAt(src, p), t)
  {
    var t :| Unfolds(src.env.heap, ValueAt(src, p), t);
    t
  }

  ghost function TreeRanks(src: Source): map<Ptr, nat> {
    map p | p in src.env.heap && p != 0 && HasTree(src, p) :: Nesting(TreeAt(src, p))
  }

  /** Each branch of a tree is the tree of what its key holds. */
  lemma {:induction false} BranchOf(h: Heap, entries: map<string, Value>, keys: seq<string>, branches: Branches, key: string) returns (t: Tree)
    requires UnfoldsAll(h, entries, keys, branches) && key in keys
    ensures key in entries && Unfolds(h, entries[key], t) && Nesting(t) <= NestingIn(branches)
    decreases branches
  {
    hide Unfolds;
    if keys[0] == key {
      t := branches.tree;
    } else {
      t := BranchOf(h, entries, keys[1..], branches.rest, key);
    }
  }

  /** The value a good container holds is the value at its pointer. */
  lemma GoodIsAt(src: Source, value: Value)
    requires GoodValue(src, value) && IsContainer(Deref(value))
    ensures Deref(value).ptr in src.env.heap && ValueAt(src, Deref(value).ptr) == Deref(value)
  {
  }

  /** A value and the container it refers to denote the same trees. */
  lemma DerefUnfolds(h: Heap, value: Value, t: Tree)
    requires IsContainer(Deref(value))
    ensures Unfolds(h, value, t) <==> Unfolds(h, Deref(value), t)
  {
  }

  lemma ChildHasTree(src: Source, p: Ptr, key: string)
    requires Good(src) && p in src.env.heap && HasTree(src, p) && key in KeysOf(src, p)
    requires p != 0 && GoodValue(src, ValueAt(src, p))
    ensures key in src.env.heap[p].entries
    ensures
      var c := Deref(src.env.heap[p].entries[key]);
      IsContainer(c) ==> c.ptr in src.env.heap && HasTree(src, c.ptr) && Nesting(TreeAt(src, c.ptr)) < Nesting(TreeAt(src, p))
  {
    hide Good, KeysOf;
    var h := src.env.heap;
    var t := TreeAt(src, p);
    PropKeysOf(src, ValueAt(src, p));
    var u := BranchOf(h, h[p].entries, KeysOf(src, p), t.branches, key);
    var child := h[p].entries[key];
    var c := Deref(child);
    if IsContainer(c) {
      GoodChild(src, p, key);
      GoodIsAt(src, child);
      DerefUnfolds(h, child, u);
      hide Unfolds, UnfoldsAll, GoodValue;
      UnfoldsOnce(h, c, u, TreeAt(src, c.ptr));
    }
  }

  lemma GoodChild(src: Source, p: Ptr, key: string)
    requires Good(src) && p in src.env.heap && key in src.env.heap[p].entries
    ensures GoodValue(src, src.env.heap[p].entries[key])
  {
    assert GoodNode(src, p);
  }

  lemma TreesRank(src: Source)
    requires Good(src)
    ensures Ranked(src, TreeRanks(src))
  {
    hide Good, KeysOf, HasTree;
    var rank := TreeRanks(src);
    forall p, key | p in rank && key in KeysOf(src, p)
      ensures p in src.env.heap && Below(src, rank, p, key)
    {
      AtIsGood(src, p);
      ChildHasTree(src, p, key);
      GoodChild(src, p, key);
    }
  }

  lemma AtIsGood(src: Source, p: Ptr)
    requires p in src.env.heap && p != 0
    ensures GoodValue(src, ValueAt(src, p))
  {
  }

  // ----- the theorems

  /** A value denotes a finite tree exactly when the containers below it can be ranked, that is, when no container is below itself. */
  lemma UnfoldsExactly(src: Source, v: Value)
    requires Good(src) && GoodValue(src, v)
    ensures (exists t :: Unfolds(src.env.heap, v, t)) <==> (exists rank :: Ranked(src, rank) && Covers(rank, v))
  {
    hide Good, KeysOf, Ranked, Unfolds;
    if t :| Unfolds(src.env.heap, v, t) {
      TreesRank(src);
      var rank := TreeRanks(src);
      if IsContainer(Deref(v)) {
        GoodIsAt(src, v);
        DerefUnfolds(src.env.heap, v, t);
        assert HasTree(src, Deref(v).ptr);
      }
      assert Covers(rank, v);
    }
    if rank :| Ranked(src, rank) && Covers(rank, v) {
      var t := RankedUnfolds(src, rank, v);
    }
  }

  /** Reading back the text of an acyclic value, within the nesting limit and without the array key "-0", gives the same tree. */
  lemma AcyclicRoundTrip(src: Source, v: Value, rank: map<Ptr, nat>)
    requires Good(src) && |src.env.heap| <= MAX_INT64 && GoodValue(src, v)
    requires Ranked(src, rank) && Covers(rank, v) && Height(rank, v) < 100000 && NoMinusZeroBelow(src, rank)
    ensures Unserialize(src.opt, Serialize(src.env, v)).Some?
    ensures
      var (v', h') := Unserialize(src.opt, Serialize(src.env, v)).value;
      exists t :: Unfolds(src.env.heap, v, t) && Unfolds(h', v', t)
  {
    hide Good, Ranked, Covers, NoMinusZeroBelow, Unfolds, GoodValue, Serialize, Unserialize;
    var t := RankedUnfolds(src, rank, v);
    TreeRoundTrip(src, v, t);
  }
}
