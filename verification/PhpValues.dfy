/**
 PHP values as the interpreter keeps them: arrays are a reference to a Go map plus a slice
 of keys carried by the value, objects are references to an instance. References are
 pointers into a heap; pointer 0 is nil. A float is its bit pattern: its text is left to
 the library functions that format and parse it.
 */
module PhpValues {
  import opened Decimal

  type Ptr = nat

  datatype Value =
    | Null
    | Bool(b: bool)
    | Int(n: int)
    | Float(bits: int)
    | Str(s: string)
    | Array(ptr: Ptr, keys: seq<string>)
    | Object(ptr: Ptr)
    | Resource
    | Ref(target: Value)

  /** What a pointer leads to: the map of an array, or an object instance. */
  datatype Node =
    | ArrayNode(entries: map<string, Value>)
    | ObjectNode(cls: string, entries: map<string, Value>, propKeys: seq<string>)

  type Heap = map<Ptr, Node>

  /** Reading a Go map: a missing key gives the zero Value, which is null. */
  function Lookup(entries: map<string, Value>, key: string): Value {
    if key in entries then entries[key] else Null
  }

  /** deref: one step through a reference. */
  function Deref(v: Value): Value {
    if v.Ref? then v.target else v
  }

  function EntriesAt(h: Heap, p: Ptr): map<string, Value> {
    if p in h then h[p].entries else map[]
  }

  /** The class name of an object pointer. */
  function ClassOf(h: Heap, p: Ptr): string {
    if p in h && h[p].ObjectNode? then h[p].cls else ""
  }

  /** Value.ToString on the kinds of this model. */
  function ToString(h: Heap, v: Value, floatText: int -> string): string {
    match v
    case Null => ""
    case Bool(b) => if b then "1" else ""
    case Int(n) => FormatInt(n)
    case Float(bits) => floatText(bits)
    case Str(s) => s
    case Array(_, _) => "Array"
    case Object(p) => ClassOf(h, p)
    case Resource => "Resource"
    case Ref(target) => ToString(h, target, floatText)
  }
}
