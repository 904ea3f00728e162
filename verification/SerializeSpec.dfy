/**
 What the PHP serializer prints, as an abstract document, and the text of a document.
 A document keeps exactly what the text says: scalars, counted containers and
 back-references by number.
 */
module SerializeSpec {
  import opened Wrappers
  import opened Decimal
  import opened PhpValues

  datatype Doc =
    | DNull
    | DBool(b: bool)
    | DInt(n: int)
    | DFloat(text: string)
    | DStr(s: string)
    | DRef(isArray: bool, id: nat)
    | DArray(items: Items)
    | DObject(cls: string, items: Items)

  datatype Items = End | Entry(key: Doc, val: Doc, rest: Items)

  function Count(items: Items): nat {
    match items
    case End => 0
    case Entry(_, _, rest) => 1 + Count(rest)
  }

  // ----- text

  /** A number after a colon, closed by c. */
  function Header(n: int, c: char): string {
    ":" + FormatInt(n) + [c]
  }

  /** A byte string with its length. */
  function Quoted(s: string): string {
    Header(|s|, ':') + "\"" + s + "\""
  }

  function PrintStr(s: string): string {
    "s" + Quoted(s) + ";"
  }

  function PrintInt(n: int): string {
    "i" + Header(n, ';')
  }

  function PrintFloat(text: string): string {
    "d:" + text + ";"
  }

  function PrintBool(b: bool): string {
    if b then "b:1;" else "b:0;"
  }

  function PrintRef(isArray: bool, id: nat): string {
    (if isArray then "R" else "r") + Header(id, ';')
  }

  function ArrayHead(count: nat): string {
    "a" + Header(count, ':') + "{"
  }

  function ObjectHead(cls: string, count: nat): string {
    "O" + Quoted(cls) + Header(count, ':') + "{"
  }

  function Print(d: Doc): string {
    match d
    case DNull => "N;"
    case DBool(b) => PrintBool(b)
    case DInt(n) => PrintInt(n)
    case DFloat(text) => PrintFloat(text)
    case DStr(s) => PrintStr(s)
    case DRef(isArray, id) => PrintRef(isArray, id)
    case DArray(items) => ArrayHead(Count(items)) + PrintItems(items) + "}"
    case DObject(cls, items) => ObjectHead(cls, Count(items)) + PrintItems(items) + "}"
  }

  function PrintItems(items: Items): string {
    match items
    case End => ""
    case Entry(k, v, rest) => Print(k) + Print(v) + PrintItems(rest)
  }

  // ----- from values to documents

  /** The recursion limit after which the serializer prints null. */
  const MAX_NESTING := 100000

  /** The identifier given to a pointer: its 1-based place in registration order. */
  function IdOf(reg: seq<Ptr>, p: Ptr): Option<nat> {
    if reg == [] then None
    else if reg[|reg| - 1] == p then Some(|reg|)
    else IdOf(reg[..|reg| - 1], p)
  }

  lemma {:induction false} IdOfIndex(reg: seq<Ptr>, p: Ptr)
    ensures p !in reg ==> IdOf(reg, p) == None
    ensures p in reg ==> IdOf(reg, p).Some? && 1 <= IdOf(reg, p).value <= |reg| && reg[IdOf(reg, p).value - 1] == p
  {
    if reg != [] {
      assert reg == reg[..|reg| - 1] + [reg[|reg| - 1]];
      IdOfIndex(reg[..|reg| - 1], p);
    }
  }

  function Register(reg: seq<Ptr>, p: Ptr): seq<Ptr> {
    if p == 0 then reg else reg + [p]
  }

  /** Array keys print as integers when they are canonical integers; property names never do. */
  function KeyDoc(isArray: bool, key: string): Doc {
    if isArray && ArrayIntKey(key).Some? then DInt(ArrayIntKey(key).value) else DStr(key)
  }

  /** PropKeysInOrder: the recorded order, or a sorted one when the record is incomplete. */
  function PropOrder(node: Node, sort: set<string> -> seq<string>): seq<string>
    requires node.ObjectNode?
  {
    if |node.propKeys| == |node.entries| then node.propKeys else sort(node.entries.Keys)
  }

  /** What serialize reads: the heap, the library's string sort, and its float formatting. */
  datatype Env = Env(heap: Heap, sort: set<string> -> seq<string>, formatFloat: int -> string)

  /** The keys a container prints, in order. */
  function KeysIn(env: Env, v: Value): seq<string> {
    match v
    case Array(_, keys) => keys
    case Object(p) => if p in env.heap && env.heap[p].ObjectNode? then PropOrder(env.heap[p], env.sort) else []
    case _ => []
  }

  /**
   The document printed for a value below `depth` open values, when the pointers `reg` have
   already been printed, together with the pointers printed afterwards.
   */
  function Ser(env: Env, value: Value, reg: seq<Ptr>, depth: nat): (Doc, seq<Ptr>)
    decreases MAX_NESTING + 1 - depth, 1, 0
  {
    if depth + 1 > MAX_NESTING then (DNull, reg) else
    var v := Deref(value);
    match v
    case Null => (DNull, reg)
    case Bool(b) => (DBool(b), reg)
    case Int(n) => (DInt(n), reg)
    case Float(bits) => (DFloat(env.formatFloat(bits)), reg)
    case Str(s) => (DStr(s), reg)
    case Resource => (DInt(0), reg)
    case Ref(_) => (DInt(0), reg)
    case Array(p, keys) => SerArray(env, p, keys, reg, depth + 1)
    case Object(_) => SerObject(env, v, reg, depth + 1)
  }

  /** The document of an array value, itself at depth `depth`. */
  function SerArray(env: Env, p: Ptr, keys: seq<string>, reg: seq<Ptr>, depth: nat): (Doc, seq<Ptr>)
    decreases MAX_NESTING + 1 - depth, 3, 0
  {
    if p != 0 && IdOf(reg, p).Some? then
      (DRef(true, IdOf(reg, p).value), reg)
    else
      var (items, reg') := SerItems(env, EntriesAt(env.heap, p), true, keys, Register(reg, p), depth);
      (DArray(items), reg')
  }

  /** The document of an object value, itself at depth `depth`. */
  function SerObject(env: Env, v: Value, reg: seq<Ptr>, depth: nat): (Doc, seq<Ptr>)
    requires v.Object?
    decreases MAX_NESTING + 1 - depth, 3, 0
  {
    if v.ptr == 0 then
      (DNull, reg)
    else if IdOf(reg, v.ptr).Some? then
      (DRef(false, IdOf(reg, v.ptr).value), reg)
    else
      var (items, reg') := SerItems(env, EntriesAt(env.heap, v.ptr), false, KeysIn(env, v), Register(reg, v.ptr), depth);
      (DObject(ClassOf(env.heap, v.ptr), items), reg')
  }

  function SerItems(env: Env, entries: map<string, Value>, isArray: bool, keys: seq<string>, reg: seq<Ptr>,
                    depth: nat): (Items, seq<Ptr>)
    decreases MAX_NESTING + 1 - depth, 2, |keys|
  {
    if keys == [] then
      (End, reg)
    else
      var (d, reg1) := Ser(env, Lookup(entries, keys[0]), reg, depth);
      var (rest, reg2) := SerItems(env, entries, isArray, keys[1..], reg1, depth);
      (Entry(KeyDoc(isArray, keys[0]), d, rest), reg2)
  }

  /** A container prints one entry per key. */
  lemma {:induction false} ItemsCount(env: Env, entries: map<string, Value>, isArray: bool, keys: seq<string>,
                                      reg: seq<Ptr>, depth: nat)
    ensures Count(SerItems(env, entries, isArray, keys, reg, depth).0) == |keys|
    decreases |keys|
  {
    if keys != [] {
      ItemsCount(env, entries, isArray, keys[1..], Ser(env, Lookup(entries, keys[0]), reg, depth).1, depth);
    }
  }

  /** phpSerialize: the text of a whole value. */
  function Serialize(env: Env, v: Value): string {
    Print(Ser(env, v, [], 0).0)
  }
}
