/**
 The texts that serialize produces, spelled out: scalars, containers, containers met again,
 and values below more open containers than are printed.
 */
module SerializeTexts {
  import opened Basics
  import opened Wrappers
  import opened Decimal
  import opened PhpValues
  import opened SerializeSpec

  /** The text of a value below `depth` open values, when the containers `reg` have been printed. */
  function Text(env: Env, v: Value, reg: seq<Ptr>, depth: nat): string {
    Print(Ser(env, v, reg, depth).0)
  }

  /** The containers printed by then. */
  function Seen(env: Env, v: Value, reg: seq<Ptr>, depth: nat): seq<Ptr> {
    Ser(env, v, reg, depth).1
  }

  function StrText(s: string): string {
    "s:" + FormatInt(|s|) + ":\"" + s + "\";"
  }

  /** A key that is the text of an integer is printed as that integer, without quotes; "-0" as 0. */
  function KeyText(isArray: bool, key: string): string {
    if isArray && ArrayIntKey(key).Some? then "i:" + (if key == "-0" then "0" else key) + ";" else StrText(key)
  }

  /** The entries of a container, in the order of the keys; each value is printed after those before it. */
  function EntriesText(env: Env, entries: map<string, Value>, isArray: bool, keys: seq<string>, reg: seq<Ptr>, depth: nat): string {
    if keys == [] then "" else
      var v := if keys[0] in entries then entries[keys[0]] else Null;
      KeyText(isArray, keys[0]) + Text(env, v, reg, depth) +
      EntriesText(env, entries, isArray, keys[1..], Seen(env, v, reg, depth), depth)
  }

  // ----- one value

  lemma {:induction false} StrIsText(s: string)
    ensures PrintStr(s) == StrText(s)
  {
    hide FormatInt;
    assert "s" + (":" + FormatInt(|s|) + ":" + "\"" + s + "\"") + ";" == "s:" + FormatInt(|s|) + ":\"" + s + "\";";
  }

  lemma IntIsText(n: int)
    ensures PrintInt(n) == "i:" + FormatInt(n) + ";"
  {
    hide FormatInt;
  }

  lemma ScalarTexts(env: Env, reg: seq<Ptr>, depth: nat, b: bool, n: int, bits: int, s: string)
    requires depth < 100000
    ensures Text(env, Null, reg, depth) == "N;"
    ensures Text(env, Bool(b), reg, depth) == if b then "b:1;" else "b:0;"
    ensures Text(env, Int(n), reg, depth) == "i:" + FormatInt(n) + ";"
    ensures Text(env, Float(bits), reg, depth) == "d:" + env.formatFloat(bits) + ";"
    ensures Text(env, Str(s), reg, depth) == StrText(s)
    ensures Text(env, Resource, reg, depth) == "i:0;"
    ensures Text(env, Object(0), reg, depth) == "N;"
    ensures forall v :: Text(env, Ref(v), reg, depth) == if v.Ref? then "i:0;" else Text(env, v, reg, depth)
  {
    hide FormatInt, IdOf;
    StrIsText(s);
    IntIsText(n);
    assert FormatInt(0) == "0" by {
      OneDigit(0);
    }
    IntIsText(0);
    SerContainer(env, 0, [], reg, depth);
  }

  lemma SerContainer(env: Env, p: Ptr, keys: seq<string>, reg: seq<Ptr>, depth: nat)
    requires depth < 100000
    ensures Ser(env, Array(p, keys), reg, depth) == SerArray(env, p, keys, reg, depth + 1)
    ensures Ser(env, Object(p), reg, depth) == SerObject(env, Object(p), reg, depth + 1)
  {
    hide SerArray, SerObject;
  }

  lemma KeyIsText(isArray: bool, key: string)
    ensures Print(KeyDoc(isArray, key)) == KeyText(isArray, key)
  {
    hide FormatInt, ArrayIntKey;
    StrIsText(key);
    if isArray && ArrayIntKey(key).Some? {
      IntKeyText(key);
      IntIsText(ArrayIntKey(key).value);
      if key == "-0" {
        MinusZeroKey();
        OneDigit(0);
      }
    }
  }

  // ----- containers

  lemma {:induction false} EntriesAreText(env: Env, entries: map<string, Value>, isArray: bool, keys: seq<string>,
                                          reg: seq<Ptr>, depth: nat)
    ensures PrintItems(SerItems(env, entries, isArray, keys, reg, depth).0) == EntriesText(env, entries, isArray, keys, reg, depth)
    decreases |keys|
  {
    hide Ser, KeyDoc, KeyText;
    if keys != [] {
      KeyIsText(isArray, keys[0]);
      EntriesAreText(env, entries, isArray, keys[1..], Ser(env, Lookup(entries, keys[0]), reg, depth).1, depth);
    }
  }

  /** An array that has not been printed yet. */
  lemma ArrayText(env: Env, p: Ptr, keys: seq<string>, reg: seq<Ptr>, depth: nat)
    requires depth < 100000 && (p == 0 || p !in reg)
    ensures
      var entries := if p in env.heap then env.heap[p].entries else map[];
      Text(env, Array(p, keys), reg, depth) == "a:" + FormatInt(|keys|) + ":{"
        + EntriesText(env, entries, true, keys, if p == 0 then reg else reg + [p], depth + 1) + "}"
  {
    hide FormatInt, IdOf, SerItems, EntriesText, PrintItems, Count;
    IdOfIndex(reg, p);
    SerContainer(env, p, keys, reg, depth);
    hide Ser;
    var entries, inside := EntriesAt(env.heap, p), Register(reg, p);
    EntriesAreText(env, entries, true, keys, inside, depth + 1);
    ItemsCount(env, entries, true, keys, inside, depth + 1);
    HeadTexts(|keys|, "");
  }

  lemma HeadTexts(n: nat, cls: string)
    ensures ArrayHead(n) == "a:" + FormatInt(n) + ":{"
    ensures ObjectHead(cls, n) == "O:" + FormatInt(|cls|) + ":\"" + cls + "\":" + FormatInt(n) + ":{"
  {
    hide FormatInt;
    assert ObjectHead(cls, n) == "O" + (":" + FormatInt(|cls|) + ":" + "\"" + cls + "\"") + (":" + FormatInt(n) + ":") + "{";
  }

  /** An object that has not been printed yet: its recorded property order, or the sorted one when the record is incomplete. */
  lemma ObjectText(env: Env, p: Ptr, reg: seq<Ptr>, depth: nat)
    requires depth < 100000 && p != 0 && p !in reg && p in env.heap && env.heap[p].ObjectNode?
    ensures
      var node := env.heap[p];
      var keys := if |node.propKeys| == |node.entries| then node.propKeys else env.sort(node.entries.Keys);
      Text(env, Object(p), reg, depth) == "O:" + FormatInt(|node.cls|) + ":\"" + node.cls + "\":" + FormatInt(|keys|) + ":{"
        + EntriesText(env, node.entries, false, keys, reg + [p], depth + 1) + "}"
  {
    hide FormatInt, IdOf, SerItems, EntriesText, PrintItems, Count;
    IdOfIndex(reg, p);
    SerContainer(env, p, [], reg, depth);
    hide Ser;
    var node, keys := env.heap[p], KeysIn(env, Object(p));
    EntriesAreText(env, node.entries, false, keys, reg + [p], depth + 1);
    ItemsCount(env, node.entries, false, keys, reg + [p], depth + 1);
    HeadTexts(|keys|, node.cls);
  }

  /** A container met again: R for an array, r for an object, and its place among the containers printed so far. */
  lemma MetAgain(env: Env, p: Ptr, keys: seq<string>, reg: seq<Ptr>, depth: nat, n: nat)
    requires depth < 100000 && p != 0 && n < |reg| && reg[n] == p && Distinct(reg)
    ensures Text(env, Array(p, keys), reg, depth) == "R:" + FormatInt(n + 1) + ";"
    ensures Text(env, Object(p), reg, depth) == "r:" + FormatInt(n + 1) + ";"
    ensures Seen(env, Array(p, keys), reg, depth) == reg == Seen(env, Object(p), reg, depth)
  {
    hide FormatInt, IdOf, SerItems;
    IdOfIndex(reg, p);
    SerContainer(env, p, keys, reg, depth);
    hide Ser;
    RefTexts(n + 1);
  }

  lemma RefTexts(id: nat)
    ensures PrintRef(true, id) == "R:" + FormatInt(id) + ";" && PrintRef(false, id) == "r:" + FormatInt(id) + ";"
  {
    hide FormatInt;
    assert "R" + (":" + FormatInt(id) + ";") == "R:" + FormatInt(id) + ";";
    assert "r" + (":" + FormatInt(id) + ";") == "r:" + FormatInt(id) + ";";
  }

  /** Under 100000 open values nothing more is printed than a null. */
  lemma TooDeepText(env: Env, v: Value, reg: seq<Ptr>, depth: nat)
    requires depth >= 100000
    ensures Text(env, v, reg, depth) == "N;" && Seen(env, v, reg, depth) == reg
  {
  }

  // ----- nested arrays

  function Repeat(s: string, n: nat): string {
    if n == 0 then "" else s + Repeat(s, n - 1)
  }

  /** Pointers 1 to n hold arrays of one entry: the next array, and 1 in the last one. */
  ghost predicate Nested(env: Env, n: nat) {
    forall p :: 1 <= p <= n ==>
      p in env.heap && env.heap[p] == ArrayNode(map["0" := if p < n then Array(p + 1, ["0"]) else Int(1)])
  }

  function UpTo(n: nat): (reg: seq<Ptr>)
    ensures |reg| == n && forall i :: 0 <= i < n ==> reg[i] == i + 1
  {
    seq(n, i requires 0 <= i < n => i + 1)
  }

  function NestedText(left: nat, depth: nat): string {
    var shown := Min(left, if depth < 100000 then 100000 - depth else 0);
    Repeat("a:1:{i:0;", shown) + (if depth + left < 100000 then "i:1;" else "N;") + Repeat("}", shown)
  }

  lemma Unrepeat(s: string, n: nat)
    requires n > 0
    ensures Repeat(s, n) == s + Repeat(s, n - 1)
    ensures Repeat("}", n) == Repeat("}", n - 1) + "}"
  {
    if n > 1 {
      Unrepeat(s, n - 1);
    }
  }

  lemma ZeroKeyText()
    ensures KeyText(true, "0") == "i:0;" && FormatInt(1) == "1"
  {
    OneDigit(1);
    assert KeyDigits("0") == "0";
    assert DigitsValue("0") == DigitsValue("0"[..0]) * 10 + 0;
    assert ArrayIntKey("0") == Some(0);
  }

  /** The array at pointer p of n nested ones. */
  lemma {:induction false} NestedFrom(env: Env, n: nat, p: nat)
    requires Nested(env, n) && 1 <= p <= n
    ensures Text(env, Array(p, ["0"]), UpTo(p - 1), p - 1) == NestedText(n + 1 - p, p - 1)
    decreases n - p
  {
    hide Text, Seen, KeyText, FormatInt, NestedText;
    var reg, depth := UpTo(p - 1), p - 1;
    if depth >= 100000 {
      TooDeepText(env, Array(p, ["0"]), reg, depth);
      NothingNested(n + 1 - p, depth);
    } else {
      InnerText(env, n, p);
      OneEntry(env, n, p);
      Wrapped(n, p, NestedText(n - p, p));
    }
  }

  lemma NothingNested(left: nat, depth: nat)
    requires depth >= 100000
    ensures NestedText(left, depth) == "N;"
  {
  }

  /** The text of an array of one entry, from that of the entry. */
  lemma OneEntry(env: Env, n: nat, p: nat)
    requires Nested(env, n) && 1 <= p <= n && p <= 100000
    ensures Text(env, Array(p, ["0"]), UpTo(p - 1), p - 1)
         == "a:1:{i:0;" + Text(env, if p < n then Array(p + 1, ["0"]) else Int(1), UpTo(p), p) + "}"
  {
    hide Text, Seen, KeyText, FormatInt;
    var inner := if p < n then Array(p + 1, ["0"]) else Int(1);
    ArrayText(env, p, ["0"], UpTo(p - 1), p - 1);
    ZeroKeyText();
    assert UpTo(p - 1) + [p] == UpTo(p) && ["0"][1..] == [];
    assert EntriesText(env, env.heap[p].entries, true, ["0"], UpTo(p), p) == "i:0;" + Text(env, inner, UpTo(p), p) + "";
  }

  lemma {:induction false} InnerText(env: Env, n: nat, p: nat)
    requires Nested(env, n) && 1 <= p <= n
    ensures Text(env, if p < n then Array(p + 1, ["0"]) else Int(1), UpTo(p), p) == NestedText(n - p, p)
    decreases n - p, 0
  {
    hide Text, FormatInt;
    if p < n {
      NestedFrom(env, n, p + 1);
    } else if p < 100000 {
      ScalarTexts(env, UpTo(p), p, true, 1, 0, "");
      OneDigit(1);
    } else {
      TooDeepText(env, Int(1), UpTo(p), p);
    }
  }

  lemma Wrapped(n: nat, p: nat, text: string)
    requires 1 <= p <= n && p <= 100000 && text == NestedText(n - p, p)
    ensures "a:1:{i:0;" + text + "}" == NestedText(n + 1 - p, p - 1)
  {
    hide Repeat;
    var shown := Min(n - p, 100000 - p);
    Unrepeat("a:1:{i:0;", shown + 1);
    var mid := if n < 100000 then "i:1;" else "N;";
    var a, b := Repeat("a:1:{i:0;", shown), Repeat("}", shown);
    assert "a:1:{i:0;" + (a + mid + b) + "}" == ("a:1:{i:0;" + a) + mid + (b + "}");
  }

  /** n nested arrays around 1: all of them are printed up to 100000, and inside the 100000th stands a null. */
  lemma NestedArrays(env: Env, n: nat)
    requires Nested(env, n) && n > 0
    ensures Serialize(env, Array(1, ["0"])) ==
      if n < 100000 then Repeat("a:1:{i:0;", n) + "i:1;" + Repeat("}", n)
      else Repeat("a:1:{i:0;", 100000) + "N;" + Repeat("}", 100000)
  {
    hide Ser, Print, Repeat;
    NestedFrom(env, n, 1);
    assert UpTo(0) == [];
  }
}
