/** The unserializer: a cursor over the text, the variables of the containers opened so far, and a heap. */
module Unserializer {
  import opened Wrappers
  import opened Decimal
  import opened OrderedMaps
  import opened PhpValues
  import opened UnserializeSpec

  lemma DigitSpanStep(s: string, i: nat)
    requires i <= |s|
    ensures DigitSpan(s[i..]) == if i < |s| && IsDigit(s[i]) then 1 + DigitSpan(s[i + 1..]) else 0
  {
  }

  /** ReadInt, given the pieces of the text. */
  lemma ReadIntPieces(r: string, sign: nat, n: nat, digits: string, text: string, rest: string)
    requires sign + n <= |r| && sign == (if r != "" && IsSign(r[0]) then 1 else 0)
    requires r[sign..] == digits && r[..sign + n] == text && r[sign + n..] == rest && DigitSpan(digits) == n
    ensures ReadInt(r)
         == if n == 0 then None else match ParseInt64(text) case None => None case Some(x) => Some((x, rest))
  {
    hide ParseInt64, DigitSpan;
  }

  /** ReadInt on the text from `start`, in terms of the cursor positions of the scan. */
  lemma ReadIntSlices(s: string, start: nat, digits: nat, i: nat)
    requires start <= digits <= i <= |s| && DigitSpan(s[digits..]) == i - digits
    requires digits == if start < |s| && IsSign(s[start]) then start + 1 else start
    ensures ReadInt(s[start..])
         == if i == digits then None
            else match ParseInt64(s[start..i]) case None => None case Some(x) => Some((x, s[i..]))
  {
    hide ParseInt64, DigitSpan, ReadInt, IsSign;
    var r, sign, n := s[start..], digits - start, i - digits;
    assert r[sign..] == s[digits..] by {
      Slices(s, start, digits);
    }
    assert r[..sign + n] == s[start..i] && r[sign + n..] == s[i..] by {
      Slices(s, start, i);
    }
    assert r != "" ==> r[0] == s[start];
    ReadIntPieces(r, sign, n, s[digits..], s[start..i], s[i..]);
  }

  lemma Slices(s: string, start: nat, i: nat)
    requires start <= i <= |s|
    ensures s[start..][i - start..] == s[i..] && s[start..][..i - start] == s[start..i]
  {
  }

  class Unserializer {
    const s: string
    const opt: Options
    var i: nat
    var heap: Heap
    /** The current value of each container variable; a back-reference copies it as it is now. */
    var refs: seq<Value>
    var depth: nat

    ghost predicate Valid()
      reads this
    {
      i <= |s|
    }

    ghost function Rest(): string
      requires Valid()
      reads this
    {
      s[i..]
    }

    ghost function St(): State
      reads this
    {
      State(heap, refs, depth)
    }

    constructor (s: string, opt: Options)
      ensures Valid() && this.s == s && this.opt == opt
      ensures Rest() == s && St() == START
    {
      this.s, this.opt := s, opt;
      i, heap, refs, depth := 0, map[], [], 0;
    }

    method ExpectByte(c: char) returns (ok: bool)
      requires Valid()
      modifies `i
      ensures Valid() && i >= old(i)
      ensures ok <==> Expect(old(Rest()), c).Some?
      ensures ok ==> Rest() == Expect(old(Rest()), c).value
    {
      if i >= |s| || s[i] != c {
        return false;
      }
      i := i + 1;
      return true;
    }

    method ReadInteger() returns (n: int, ok: bool)
      requires Valid()
      modifies `i
      ensures Valid() && i >= old(i)
      ensures ok <==> ReadInt(old(Rest())).Some?
      ensures ok ==> (n, Rest()) == ReadInt(old(Rest())).value
    {
      hide ParseInt64, DigitSpan, ReadInt;
      n := 0;
      var start := i;
      if i < |s| && (s[i] == '-' || s[i] == '+') {
        i := i + 1;
      }
      var digits := i;
      while i < |s| && IsDigit(s[i])
        invariant digits <= i <= |s|
        invariant DigitSpan(s[digits..]) == i - digits + DigitSpan(s[i..])
      {
        DigitSpanStep(s, i);
        i := i + 1;
      }
      DigitSpanStep(s, i);
      ReadIntSlices(s, start, digits, i);
      if i == digits {
        i := start;
        return 0, false;
      }
      var x := ParseInt64(s[start..i]);
      if x.None? {
        return 0, false;
      }
      return x.value, true;
    }

    method ReadUntilByte(c: char) returns (tok: string, ok: bool)
      requires Valid()
      modifies `i
      ensures Valid() && i >= old(i)
      ensures ok <==> ReadUntil(old(Rest()), c).Some?
      ensures ok ==> (tok, Rest()) == ReadUntil(old(Rest()), c).value
    {
      hide ReadUntil;
      var start := i;
      while i < |s| && s[i] != c
        invariant start <= i <= |s|
        invariant forall k :: start <= k < i ==> s[k] != c
      {
        i := i + 1;
      }
      if i >= |s| {
        UntilMissing(s, start, c);
        return "", false;
      }
      UntilFound(s, start, i, c);
      tok := s[start..i];
      i := i + 1;
      ok := true;
    }

    /** ':' <integer> c, the shape every length and number has. */
    method ReadHead(c: char) returns (n: int, ok: bool)
      requires Valid()
      modifies `i
      ensures Valid() && i >= old(i)
      ensures ok <==> ReadHeader(old(Rest()), c).Some?
      ensures ok ==> (n, Rest()) == ReadHeader(old(Rest()), c).value
    {
      n := 0;
      ok := ExpectByte(':');
      if !ok {
        return;
      }
      n, ok := ReadInteger();
      if ok {
        ok := ExpectByte(c);
      }
    }

    method ReadQuotedText() returns (str: string, ok: bool)
      requires Valid()
      modifies `i
      ensures Valid() && i >= old(i)
      ensures ok <==> ReadQuoted(old(Rest())).Some?
      ensures ok ==> (str, Rest()) == ReadQuoted(old(Rest())).value
    {
      hide ReadHeader;
      str := "";
      var n: int;
      n, ok := ReadHead(':');
      if !ok {
        return;
      }
      ok := ExpectByte('"');
      if !ok {
        return;
      }
      if n < 0 || i + n > |s| {
        return "", false;
      }
      assert s[i..][..n] == s[i..i + n] && s[i..][n..] == s[i + n..];
      str := s[i..i + n];
      i := i + n;
      ok := ExpectByte('"');
    }

    /** What a parsing method promises: the specified result, value, remaining text and state. */
    ghost predicate Did(res: Option<Parsed>, v: Value, ok: bool)
      requires Valid()
      reads this
    {
      && (ok <==> res.Some?)
      && (ok ==> res.value == Parsed(v, Rest(), St()))
    }

    method ParseVal() returns (v: Value, ok: bool)
      requires Valid()
      modifies this
      ensures Valid()
      ensures Did(ParseValue(opt, old(Rest()), old(St())), v, ok)
      ensures ok ==> i > old(i) && |refs| >= old(|refs|) && depth == old(depth)
      decreases |s| - i, 1, 0
    {
      hide ReadHeader, ReadQuoted, ReadUntil, ParseRef, ParseArray, ParseObject;
      v, ok := Null, false;
      if i >= |s| {
        return;
      }
      var c := s[i];
      i := i + 1;
      assert old(Rest())[1..] == Rest();
      match c {
        case 'N' =>
          ok := ExpectByte(';');
        case 'b' =>
          var n: int;
          n, ok := ReadHead(';');
          v := Bool(n != 0);
        case 'i' =>
          var n: int;
          n, ok := ReadHead(';');
          v := Int(n);
        case 'd' => v, ok := ParseFloatBody();
        case 's' =>
          var str: string;
          str, ok := ReadQuotedText();
          if ok {
            ok := ExpectByte(';');
          }
          v := Str(str);
        case 'a' => v, ok := ParseArrayBody();
        case 'O' => v, ok := ParseObjectBody();
        case 'R' => v, ok := ParseReference();
        case 'r' => v, ok := ParseReference();
        case _ =>
      }
    }

    method ParseFloatBody() returns (v: Value, ok: bool)
      requires Valid()
      modifies this
      ensures Valid()
      ensures Did(ParseFloatTail(opt, old(Rest()), old(St())), v, ok)
    {
      v := Null;
      ok := ExpectByte(':');
      if !ok {
        return;
      }
      var tok: string;
      tok, ok := ReadUntilByte(';');
      if !ok {
        return;
      }
      var f := opt.parseFloat(tok);
      if f.None? {
        return Null, false;
      }
      v := Float(f.value);
    }

    method ParseReference() returns (v: Value, ok: bool)
      requires Valid()
      modifies this
      ensures Valid()
      ensures Did(ParseRef(old(Rest()), old(St())), v, ok)
    {
      v := Null;
      var id: int;
      id, ok := ReadHead(';');
      if !ok {
        return;
      }
      if id < 1 || id > |refs| {
        return Null, false;
      }
      v := refs[id - 1];
    }

    method ParseArrayBody() returns (v: Value, ok: bool)
      requires Valid()
      modifies this
      ensures Valid()
      ensures Did(ParseArray(opt, old(Rest()), old(St())), v, ok)
      decreases |s| - i, 3, 0
    {
      hide ReadHeader, ParseBody;
      v := Null;
      var n: int;
      n, ok := ReadHead(':');
      if ok {
        ok := ExpectByte('{');
      }
      if !ok {
        return;
      }
      depth := depth + 1;
      if opt.maxDepth > 0 && depth > opt.maxDepth {
        depth := depth - 1;
        return Null, false;
      }
      var k := |refs|;
      heap := heap[k + 1 := ArrayNode(map[])];
      refs := refs + [Array(k + 1, [])];
      v, ok := ParseContainer(k, n);
    }

    method ParseObjectBody() returns (v: Value, ok: bool)
      requires Valid()
      modifies this
      ensures Valid()
      ensures Did(ParseObject(opt, old(Rest()), old(St())), v, ok)
      decreases |s| - i, 3, 0
    {
      hide ReadHeader, ReadQuoted, ParseBody;
      v := Null;
      var cls: string;
      cls, ok := ReadQuotedText();
      if !ok {
        return;
      }
      var n: int;
      n, ok := ReadHead(':');
      if ok {
        ok := ExpectByte('{');
      }
      if !ok {
        return;
      }
      depth := depth + 1;
      if opt.maxDepth > 0 && depth > opt.maxDepth {
        depth := depth - 1;
        return Null, false;
      }
      var k := |refs|;
      if opt.allowed(cls) {
        heap := heap[k + 1 := ObjectNode(cls, map[], [])];
      } else {
        heap := heap[k + 1 := ObjectNode(INCOMPLETE_CLASS, map[INCOMPLETE_NAME := Str(cls)], [INCOMPLETE_NAME])];
      }
      refs := refs + [Object(k + 1)];
      v, ok := ParseContainer(k, n);
    }

    /** The entry loop and closing brace shared by arrays and objects. */
    method ParseContainer(k: nat, n: int) returns (v: Value, ok: bool)
      requires Valid() && k < |refs| && depth > 0
      modifies this
      ensures Valid()
      ensures Did(ParseBody(opt, old(Rest()), old(St()), k, n), v, ok)
      decreases |s| - i, 2, 0
    {
      hide ParseValue, Put;
      v := Null;
      ghost var all := ParseEntries(opt, Rest(), St(), k, n);
      var j := 0;
      while j < n
        invariant Valid() && i >= old(i) && k < |refs| && depth == old(depth)
        invariant n <= 0 ==> j == 0
        invariant n > 0 ==> 0 <= j <= n
        invariant ParseEntries(opt, Rest(), St(), k, n - j) == all
      {
        var key, val;
        key, ok := ParseVal();
        if !ok {
          return Null, false;
        }
        val, ok := ParseVal();
        if !ok {
          return Null, false;
        }
        StoreEntry(k, key, val);
        j := j + 1;
      }
      ok := ExpectByte('}');
      depth := depth - 1;
      v := refs[k];
    }

    /** arr.ArraySet(k, v) or obj.Object.SetProp(k.ToString(), v). */
    method StoreEntry(k: nat, key: Value, val: Value)
      requires Valid() && k < |refs|
      modifies `heap, `refs
      ensures St() == Put(opt, old(St()), k, key, val)
      ensures |refs| == old(|refs|)
    {
      hide ToString, AppendKey;
      var name := ToString(heap, key, opt.floatText);
      var container := refs[k];
      if container.Array? && container.ptr in heap && heap[container.ptr].ArrayNode? {
        var entries := heap[container.ptr].entries;
        heap := heap[container.ptr := ArrayNode(entries[name := val])];
        refs := refs[k := Array(container.ptr, AppendKey(entries, container.keys, name))];
      } else if container.Object? && container.ptr in heap && heap[container.ptr].ObjectNode? {
        var node := heap[container.ptr];
        heap := heap[container.ptr := ObjectNode(node.cls, node.entries[name := val],
                                                 AppendKey(node.entries, node.propKeys, name))];
      }
    }
  }

  method UnserializeTop(s: string, opt: Options) returns (r: Option<(Value, Heap)>)
    ensures r == Unserialize(opt, s)
  {
    hide ParseValue;
    var u := new Unserializer(s, opt);
    var v, ok := u.ParseVal();
    if !ok {
      return None;
    }
    if !AllSpace(s[u.i..]) {
      return None;
    }
    return Some((v, u.heap));
  }

  lemma {:induction false} UntilFound(s: string, start: nat, i: nat, c: char)
    requires start <= i < |s| && s[i] == c && forall k :: start <= k < i ==> s[k] != c
    ensures ReadUntil(s[start..], c) == Some((s[start..i], s[i + 1..]))
    decreases i - start
  {
    var r := s[start..];
    assert r[0] == s[start] && r[1..] == s[start + 1..];
    if start < i {
      UntilFound(s, start + 1, i, c);
      assert s[start..i] == [s[start]] + s[start + 1..i];
    } else {
      assert s[start..i] == "";
    }
  }

  lemma {:induction false} UntilMissing(s: string, start: nat, c: char)
    requires start <= |s| && forall k :: start <= k < |s| ==> s[k] != c
    ensures ReadUntil(s[start..], c) == None
    decreases |s| - start
  {
    if start < |s| {
      var r := s[start..];
      assert r[0] == s[start] && r[1..] == s[start + 1..];
      UntilMissing(s, start + 1, c);
    }
  }
}
