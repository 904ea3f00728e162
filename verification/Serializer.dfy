/** The serializer itself: recursive printing into a builder, with a table of pointers already printed. */
module Serializer {
  import opened Basics
  import opened Wrappers
  import opened Decimal
  import opened PhpValues
  import opened SerializeSpec

  class Builder {
    var text: string

    constructor ()
      ensures text == ""
    {
      text := "";
    }

    method Write(s: string)
      modifies this
      ensures text == old(text) + s
    {
      text := text + s;
    }
  }

  /** Strings print as s:<len>:"<bytes>"; */
  method SerializeString(s: string, b: Builder)
    modifies b
    ensures b.text == old(b.text) + PrintStr(s)
  {
    b.Write("s:");
    b.Write(FormatNat(|s|));
    b.Write(":\"");
    b.Write(s);
    b.Write("\";");
  }

  method SerializeInt(n: int, b: Builder)
    modifies b
    ensures b.text == old(b.text) + PrintInt(n)
  {
    b.Write("i:");
    b.Write(FormatInt(n));
    b.Write(";");
  }

  method SerializeFloat(text: string, b: Builder)
    modifies b
    ensures b.text == old(b.text) + PrintFloat(text)
  {
    b.Write("d:");
    b.Write(text);
    b.Write(";");
  }

  method SerializeBool(x: bool, b: Builder)
    modifies b
    ensures b.text == old(b.text) + PrintBool(x)
  {
    if x {
      b.Write("b:1;");
    } else {
      b.Write("b:0;");
    }
  }

  /** R:<id>; for an array met again, r:<id>; for an object met again. */
  method SerializeRef(isArray: bool, id: nat, b: Builder)
    modifies b
    ensures b.text == old(b.text) + PrintRef(isArray, id)
  {
    if isArray {
      b.Write("R:");
    } else {
      b.Write("r:");
    }
    b.Write(FormatNat(id));
    b.Write(";");
  }

  method SerializeArrayHead(count: nat, b: Builder)
    modifies b
    ensures b.text == old(b.text) + ArrayHead(count)
  {
    b.Write("a:");
    b.Write(FormatNat(count));
    b.Write(":{");
  }

  method SerializeObjectHead(cls: string, count: nat, b: Builder)
    modifies b
    ensures b.text == old(b.text) + ObjectHead(cls, count)
  {
    b.Write("O:");
    b.Write(FormatNat(|cls|));
    b.Write(":\"");
    b.Write(cls);
    b.Write("\":");
    b.Write(FormatNat(count));
    b.Write(":{");
  }

  method SerializeKey(isArray: bool, k: string, b: Builder)
    modifies b
    ensures b.text == old(b.text) + Print(KeyDoc(isArray, k))
  {
    var n: Option<int> := None;
    if isArray {
      n := ComputeArrayIntKey(k);
    }
    if n.Some? {
      SerializeInt(n.value, b);
      return;
    }
    SerializeString(k, b);
  }

  class SerializeCtx {
    var ids: map<Ptr, nat>
    var next: nat
    var depth: nat
    ghost var reg: seq<Ptr>

    /** The table numbers the registered pointers 1, 2, ... in order. */
    ghost predicate Valid()
      reads this
    {
      && next == |reg|
      && Distinct(reg)
      && 0 !in reg
      && (forall p :: p in ids <==> p in reg)
      && (forall k :: 0 <= k < |reg| ==> ids[reg[k]] == k + 1)
    }

    constructor ()
      ensures Valid() && reg == [] && depth == 0
    {
      ids, next, depth, reg := map[], 0, 0, [];
    }

    lemma Agrees(p: Ptr)
      requires Valid()
      ensures IdOf(reg, p) == if p in ids then Some(ids[p]) else None
    {
      IdOfIndex(reg, p);
    }

    /** registerSerializeRef: number a pointer on its first visit; nil is never numbered. */
    method RegisterRef(p: Ptr)
      requires Valid() && p !in ids
      modifies this
      ensures Valid() && reg == Register(old(reg), p) && depth == old(depth)
    {
      if p == 0 {
        return;
      }
      next := next + 1;
      ids := ids[p := next];
      reg := reg + [p];
    }
  }

  /** Appending three pieces one by one. */
  lemma Cat(a: string, b: string, c: string, d: string)
    ensures a + (b + c + d) == a + b + c + d
  {
  }

  /** phpSerializeValue: appends the text of the specified document and registers the same pointers. */
  method SerializeValue(env: Env, value: Value, b: Builder, ctx: SerializeCtx) returns (ghost d: Doc)
    requires ctx.Valid() && ctx.depth <= MAX_NESTING
    modifies b, ctx
    ensures ctx.Valid() && ctx.depth == old(ctx.depth)
    ensures (d, ctx.reg) == Ser(env, value, old(ctx.reg), old(ctx.depth))
    ensures b.text == old(b.text) + Print(d)
    decreases MAX_NESTING + 1 - ctx.depth, 1, 0
  {
    hide PrintInt, PrintFloat, PrintStr, PrintBool, PrintItems, SerArray, SerObject;
    var v := Deref(value);
    ctx.depth := ctx.depth + 1;
    if ctx.depth > MAX_NESTING {
      b.Write("N;");
      ctx.depth := ctx.depth - 1;
      return DNull;
    }
    match v {
      case Null =>
        d := DNull;
        b.Write("N;");
      case Bool(x) =>
        d := DBool(x);
        SerializeBool(x, b);
      case Int(n) =>
        d := DInt(n);
        SerializeInt(n, b);
      case Float(bits) =>
        d := DFloat(env.formatFloat(bits));
        SerializeFloat(env.formatFloat(bits), b);
      case Str(s) =>
        d := DStr(s);
        SerializeString(s, b);
      case Array(p, keys) => d := SerializeArray(env, p, keys, b, ctx);
      case Object(p) => d := SerializeObject(env, v, b, ctx);
      case Resource =>
        d := DInt(0);
        SerializeInt(0, b);
      case Ref(_) =>
        d := DInt(0);
        SerializeInt(0, b);
    }
    ctx.depth := ctx.depth - 1;
  }

  /** The KindArray case. */
  method SerializeArray(env: Env, p: Ptr, keys: seq<string>, b: Builder, ctx: SerializeCtx) returns (ghost d: Doc)
    requires ctx.Valid() && ctx.depth <= MAX_NESTING
    modifies b, ctx
    ensures ctx.Valid() && ctx.depth == old(ctx.depth)
    ensures (d, ctx.reg) == SerArray(env, p, keys, old(ctx.reg), ctx.depth)
    ensures b.text == old(b.text) + Print(d)
    decreases MAX_NESTING + 1 - ctx.depth, 3, 0
  {
    hide ArrayHead, PrintRef;
    ctx.Agrees(p);
    if p in ctx.ids && p != 0 {
      SerializeRef(true, ctx.ids[p], b);
      return DRef(true, ctx.ids[p]);
    }
    ctx.RegisterRef(p);
    SerializeArrayHead(|keys|, b);
    ghost var items := SerializeEntries(env, EntriesAt(env.heap, p), true, keys, b, ctx);
    b.Write("}");
    d := DArray(items);
    Cat(old(b.text), ArrayHead(|keys|), PrintItems(items), "}");
  }

  /** The KindObject case. */
  method SerializeObject(env: Env, v: Value, b: Builder, ctx: SerializeCtx) returns (ghost d: Doc)
    requires ctx.Valid() && ctx.depth <= MAX_NESTING && v.Object?
    modifies b, ctx
    ensures ctx.Valid() && ctx.depth == old(ctx.depth)
    ensures (d, ctx.reg) == SerObject(env, v, old(ctx.reg), ctx.depth)
    ensures b.text == old(b.text) + Print(d)
    decreases MAX_NESTING + 1 - ctx.depth, 3, 0
  {
    hide ObjectHead, PrintRef;
    var p := v.ptr;
    ctx.Agrees(p);
    if p == 0 {
      b.Write("N;");
      return DNull;
    }
    if p in ctx.ids {
      SerializeRef(false, ctx.ids[p], b);
      return DRef(false, ctx.ids[p]);
    }
    ctx.RegisterRef(p);
    var keys := KeysIn(env, v);
    var cls := ClassOf(env.heap, p);
    SerializeObjectHead(cls, |keys|, b);
    ghost var items := SerializeEntries(env, EntriesAt(env.heap, p), false, keys, b, ctx);
    b.Write("}");
    d := DObject(cls, items);
    Cat(old(b.text), ObjectHead(cls, |keys|), PrintItems(items), "}");
  }

  /** The two key loops of phpSerializeValue. */
  method SerializeEntries(env: Env, entries: map<string, Value>, isArray: bool, keys: seq<string>, b: Builder,
                          ctx: SerializeCtx)
    returns (ghost items: Items)
    requires ctx.Valid() && ctx.depth <= MAX_NESTING
    modifies b, ctx
    ensures ctx.Valid() && ctx.depth == old(ctx.depth)
    ensures (items, ctx.reg) == SerItems(env, entries, isArray, keys, old(ctx.reg), old(ctx.depth))
    ensures Count(items) == |keys|
    ensures b.text == old(b.text) + PrintItems(items)
    decreases MAX_NESTING + 1 - ctx.depth, 2, 0
  {
    hide PrintItems, Ser, KeyDoc, SerItems;
    ghost var (all, last) := SerItems(env, entries, isArray, keys, ctx.reg, ctx.depth);
    ghost var left := all;
    ghost var start := b.text;
    ItemsCount(env, entries, isArray, keys, ctx.reg, ctx.depth);
    var i := 0;
    assert keys[0..] == keys;
    while i < |keys|
      invariant 0 <= i <= |keys|
      invariant ctx.Valid() && ctx.depth == old(ctx.depth)
      invariant (left, last) == SerItems(env, entries, isArray, keys[i..], ctx.reg, ctx.depth)
      invariant start + PrintItems(all) == b.text + PrintItems(left)
    {
      ItemsStep(env, entries, isArray, keys, i, ctx.reg, ctx.depth);
      ghost var before := b.text;
      SerializeKey(isArray, keys[i], b);
      ghost var d := SerializeValue(env, Lookup(entries, keys[i]), b, ctx);
      Cat(before, Print(left.key), Print(left.val), PrintItems(left.rest));
      left := left.rest;
      i := i + 1;
    }
    ItemsEnd(env, entries, isArray, ctx.reg, ctx.depth);
    assert keys[i..] == [];
    items := all;
  }

  lemma ItemsStep(env: Env, entries: map<string, Value>, isArray: bool, keys: seq<string>, i: nat, reg: seq<Ptr>, depth: nat)
    requires i < |keys|
    ensures
      var (left, last) := SerItems(env, entries, isArray, keys[i..], reg, depth);
      && left.Entry? && left.key == KeyDoc(isArray, keys[i])
      && left.val == Ser(env, Lookup(entries, keys[i]), reg, depth).0
      && (left.rest, last) == SerItems(env, entries, isArray, keys[i + 1..],
                                       Ser(env, Lookup(entries, keys[i]), reg, depth).1, depth)
      && PrintItems(left) == Print(left.key) + Print(left.val) + PrintItems(left.rest)
  {
  }

  lemma ItemsEnd(env: Env, entries: map<string, Value>, isArray: bool, reg: seq<Ptr>, depth: nat)
    ensures SerItems(env, entries, isArray, [], reg, depth) == (End, reg) && PrintItems(End) == ""
  {
  }

  /** phpSerialize. */
  method SerializeTop(env: Env, v: Value) returns (text: string)
    ensures text == Serialize(env, v)
  {
    var b := new Builder();
    var ctx := new SerializeCtx();
    ghost var d := SerializeValue(env, v, b, ctx);
    text := b.text;
  }
}
