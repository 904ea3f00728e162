/**
 pack and unpack: two interpreters of the same format string. A directive is a code letter
 with an optional count or `*`; integers wrap to the width of their code.
 */
module PackFormat {
  import opened Basics
  import opened Decimal
  import opened OrderedMaps
  import opened PhpValues

  type Byte = b: int | 0 <= b < 256

  /** One argument after the conversions that pack applies to it: as an int64, and as text. */
  datatype Arg = Arg(asInt: int, asText: seq<Byte>)

  datatype Directive = Directive(code: char, repeat: nat, star: bool)

  // ----- the format

  /** The directive at the front of a nonempty format, and how many characters it takes. */
  function FirstDirective(f: string): (r: (Directive, nat))
    requires f != ""
    ensures 0 < r.1 <= |f|
  {
    var rest := f[1..];
    var n := DigitSpan(rest);
    if rest != "" && rest[0] == '*' then (Directive(f[0], 1, true), 2)
    else if n == 0 then (Directive(f[0], 1, false), 1)
    else
      SpanIsDigits(rest);
      (Directive(f[0], DigitsValue(rest[..n]), false), 1 + n)
  }

  function Directives(f: string): seq<Directive> {
    if f == "" then [] else
      var (d, n) := FirstDirective(f);
      [d] + Directives(f[n..])
  }

  /** The scan for the repeat suffix that both interpreters make. */
  method ReadDirective(format: string, i0: nat) returns (d: Directive, i: nat)
    requires i0 < |format|
    ensures (d, i - i0) == FirstDirective(format[i0..])
  {
    var c := format[i0];
    i := i0 + 1;
    ghost var rest := format[i0..][1..];
    assert rest == format[i..];
    var repeat, star := 1, false;
    if i < |format| && format[i] == '*' {
      star := true;
      i := i + 1;
    } else if i < |format| && format[i] >= '0' && format[i] <= '9' {
      var n := 0;
      ghost var start := i;
      while i < |format| && format[i] >= '0' && format[i] <= '9'
        invariant start <= i <= |format|
        invariant DigitSpan(rest) == i - start + DigitSpan(format[i..])
        invariant AllDigits(rest[..i - start]) && n == DigitsValue(rest[..i - start])
      {
        OneMoreDigit(rest, i - start);
        assert format[i..][1..] == format[i + 1..];
        n := n * 10 + DigitValue(format[i]);
        i := i + 1;
      }
      repeat := n;
    }
    d := Directive(c, repeat, star);
  }

  lemma OneMoreDigit(s: string, k: nat)
    requires k < |s| && AllDigits(s[..k]) && IsDigit(s[k])
    ensures AllDigits(s[..k + 1]) && DigitsValue(s[..k + 1]) == DigitsValue(s[..k]) * 10 + DigitValue(s[k])
  {
    assert s[..k + 1][..k] == s[..k];
  }

  // ----- one integer

  function Width(code: char): nat {
    match code
    case 'C' => 1
    case 'n' => 2
    case 'v' => 2
    case 'N' => 4
    case 'V' => 4
    case _ => 0
  }

  /** The number of values a code can hold: 256 to the power of its width. */
  function Modulus(code: char): nat
    requires Width(code) > 0
  {
    if Width(code) == 1 then 0x100 else if Width(code) == 2 then 0x1_0000 else 0x1_0000_0000
  }

  function BigEndian(u: nat, width: nat): (r: seq<Byte>)
    ensures |r| == width
  {
    if width == 0 then [] else BigEndian(u / 256, width - 1) + [u % 256]
  }

  function LittleEndian(u: nat, width: nat): (r: seq<Byte>)
    ensures |r| == width
  {
    if width == 0 then [] else [u % 256] + LittleEndian(u / 256, width - 1)
  }

  function FromBig(b: seq<Byte>): nat {
    if b == [] then 0 else FromBig(b[..|b| - 1]) * 256 + b[|b| - 1]
  }

  function FromLittle(b: seq<Byte>): nat {
    if b == [] then 0 else b[0] + 256 * FromLittle(b[1..])
  }

  predicate IsBig(code: char) {
    code == 'n' || code == 'N'
  }

  function Encode(code: char, v: int): (r: seq<Byte>)
    requires Width(code) > 0
    ensures |r| == Width(code)
  {
    var u := v % Modulus(code);
    if IsBig(code) then BigEndian(u, Width(code)) else LittleEndian(u, Width(code))
  }

  function Decode(code: char, b: seq<Byte>): nat {
    if IsBig(code) then FromBig(b) else FromLittle(b)
  }

  function Power256(width: nat): nat {
    if width == 0 then 1 else 256 * Power256(width - 1)
  }

  lemma {:induction false} EndianRoundTrip(u: nat, width: nat)
    requires u < Power256(width)
    ensures FromBig(BigEndian(u, width)) == u && FromLittle(LittleEndian(u, width)) == u
  {
    if width > 0 {
      EndianRoundTrip(u / 256, width - 1);
      var b, l := BigEndian(u, width), LittleEndian(u, width);
      assert b[..width - 1] == BigEndian(u / 256, width - 1) && b[width - 1] == u % 256;
      assert l[1..] == LittleEndian(u / 256, width - 1) && l[0] == u % 256;
      hide BigEndian, LittleEndian, Power256;
    }
  }

  /** Packing one integer and reading it back reduces it modulo 256^width. */
  lemma DecodeEncode(code: char, v: int)
    requires Width(code) > 0
    ensures Decode(code, Encode(code, v)) == v % Modulus(code)
  {
    assert Power256(1) == 0x100 && Power256(2) == 0x1_0000;
    assert Power256(3) == 0x100_0000;
    assert Power256(4) == 0x1_0000_0000;
    EndianRoundTrip(v % Modulus(code), Width(code));
  }

  // ----- pack

  function EncodeMany(code: char, args: seq<Arg>, count: nat): seq<Byte>
    requires Width(code) > 0
  {
    if args == [] || count == 0 then [] else Encode(code, args[0].asInt) + EncodeMany(code, args[1..], count - 1)
  }

  /** How often a directive is applied when n units are left: `*` counts only for C. */
  function Count(d: Directive, n: nat): nat {
    if d.star && d.code == 'C' then n else d.repeat
  }

  predicate IsText(code: char) {
    code == 'a' || code == 'A'
  }

  /** Text is padded until the whole buffer, not the text, is `repeat` long. */
  function Padded(b: seq<Byte>, pad: Byte, length: int): seq<Byte>
    decreases length - |b|
  {
    if |b| < length then Padded(b + [pad], pad, length) else b
  }

  function Packed(dirs: seq<Directive>, args: seq<Arg>, b: seq<Byte>): seq<Byte>
    decreases |dirs|
  {
    if dirs == [] then b
    else
      var d := dirs[0];
      if IsText(d.code) then
        if args == [] then Packed(dirs[1..], args, b)
        else Packed(dirs[1..], args[1..], Padded(b + args[0].asText, if d.code == 'A' then 32 else 0, d.repeat))
      else if Width(d.code) == 0 then Packed(dirs[1..], args, b)
      else
        var n := Count(d, |args|);
        Packed(dirs[1..], args[Min(n, |args|)..], b + EncodeMany(d.code, args, n))
  }

  method Pad(b0: seq<Byte>, pad: Byte, length: int) returns (b: seq<Byte>)
    ensures b == Padded(b0, pad, length)
  {
    b := b0;
    while |b| < length
      invariant Padded(b, pad, length) == Padded(b0, pad, length)
      decreases length - |b|
    {
      b := b + [pad];
    }
  }

  /** One integer directive: up to `repeat` arguments, as far as they last. */
  method PackRun(code: char, repeat: nat, args: seq<Arg>, argIdx0: nat, b0: seq<Byte>)
    returns (argIdx: nat, b: seq<Byte>)
    requires Width(code) > 0 && argIdx0 <= |args|
    ensures argIdx == argIdx0 + Min(repeat, |args| - argIdx0)
    ensures b == b0 + EncodeMany(code, args[argIdx0..], repeat)
  {
    hide Encode, Width;
    argIdx, b := argIdx0, b0;
    var r := 0;
    while r < repeat
      invariant 0 <= r <= repeat && argIdx == argIdx0 + Min(r, |args| - argIdx0)
      invariant b + EncodeMany(code, args[argIdx..], repeat - r) == b0 + EncodeMany(code, args[argIdx0..], repeat)
    {
      if argIdx < |args| {
        assert args[argIdx..][1..] == args[argIdx + 1..];
        Cat(b, Encode(code, args[argIdx].asInt), EncodeMany(code, args[argIdx + 1..], repeat - r - 1));
        b := b + Encode(code, args[argIdx].asInt);
        argIdx := argIdx + 1;
      }
      r := r + 1;
    }
  }

  /** pack, on the format and the arguments after it. */
  method Pack(format: string, args: seq<Arg>) returns (b: seq<Byte>)
    ensures b == Packed(Directives(format), args, [])
  {
    hide FirstDirective, EncodeMany, Padded, Width, Count;
    b := [];
    var argIdx, i := 0, 0;
    assert format[0..] == format && args[0..] == args;
    while i < |format|
      invariant 0 <= i <= |format| && 0 <= argIdx <= |args|
      invariant Packed(Directives(format[i..]), args[argIdx..], b) == Packed(Directives(format), args, [])
      decreases |format| - i
    {
      var d, j := ReadDirective(format, i);
      i := j;
      ghost var rest := args[argIdx..];
      if IsText(d.code) {
        if argIdx < |args| {
          assert rest[1..] == args[argIdx + 1..];
          b := Pad(b + args[argIdx].asText, if d.code == 'A' then 32 else 0, d.repeat);
          argIdx := argIdx + 1;
        }
      } else if Width(d.code) > 0 {
        ghost var n := Count(d, |rest|);
        CountCases(d, |rest|);
        var repeat := if d.code == 'C' && d.star then |args| - argIdx else d.repeat;
        ghost var from := argIdx;
        argIdx, b := PackRun(d.code, repeat, args, argIdx, b);
        assert rest[Min(n, |rest|)..] == args[argIdx..];
      }
    }
  }

  lemma CountCases(d: Directive, n: nat)
    ensures Count(d, n) == if d.code == 'C' && d.star then n else d.repeat
  {
  }

  // ----- unpack

  function DecodeMany(code: char, data: seq<Byte>, count: nat): seq<int>
    requires Width(code) > 0
  {
    var w := Width(code);
    if |data| < w || count == 0 then [] else [Decode(code, data[..w])] + DecodeMany(code, data[w..], count - 1)
  }

  function Unpacked(dirs: seq<Directive>, data: seq<Byte>): seq<int>
    decreases |dirs|
  {
    if dirs == [] then []
    else
      var d := dirs[0];
      if Width(d.code) == 0 then Unpacked(dirs[1..], data)
      else
        var n := Count(d, |data|);
        DecodeMany(d.code, data, n) + Unpacked(dirs[1..], data[Used(d.code, |data|, n)..])
  }

  /** How many of n bytes `count` whole units take. */
  function Used(code: char, n: nat, count: nat): (u: nat)
    requires Width(code) > 0
    ensures u <= n
  {
    if n < Width(code) || count == 0 then 0 else Width(code) + Used(code, n - Width(code), count - 1)
  }

  /** The array lists these integers under the keys 1, 2, 3, ... in this order. */
  predicate Lists(entries: map<string, Value>, keys: seq<string>, vals: seq<int>) {
    && |keys| == |vals|
    && forall i :: 0 <= i < |keys| ==> keys[i] == FormatInt(i + 1) && keys[i] in entries && entries[keys[i]] == Int(vals[i])
  }

  lemma FormatIntInjective(i: nat, j: nat)
    requires FormatInt(i) == FormatInt(j)
    ensures i == j
  {
    DigitsOfFormatNat(i);
    DigitsOfFormatNat(j);
  }

  /** The next key is new, so setting it appends one entry. */
  lemma NextKeyIsNew(entries: map<string, Value>, keys: seq<string>, vals: seq<int>, v: int)
    requires Ordered(entries, keys) && Lists(entries, keys, vals)
    ensures FormatInt(|keys| + 1) !in entries
    ensures var key := FormatInt(|keys| + 1);
      Lists(entries[key := Int(v)], keys + [key], vals + [v])
  {
    hide FormatInt;
    var key := FormatInt(|keys| + 1);
    if key in entries {
      assert key in keys;
      var i :| 0 <= i < |keys| && keys[i] == key;
      FormatIntInjective(i + 1, |keys| + 1);
      assert false;
    }
    var more := keys + [key];
    forall i | 0 <= i < |more|
      ensures more[i] == FormatInt(i + 1) && more[i] in entries[key := Int(v)]
      ensures entries[key := Int(v)][more[i]] == Int((vals + [v])[i])
    {
      if i < |keys| {
        assert keys[i] in keys;
      }
    }
  }

  method AppendNumber(result: OrderedMap, keyIdx: int, v: int, ghost vals: seq<int>)
    requires Ordered(result.entries, result.keys) && Lists(result.entries, result.keys, vals)
    requires keyIdx == |vals| + 1
    modifies result
    ensures Ordered(result.entries, result.keys) && Lists(result.entries, result.keys, vals + [v])
  {
    hide FormatInt, Lists, Ordered;
    assert |result.keys| == |vals| by {
      ListedLength(result.entries, result.keys, vals);
    }
    NextKeyIsNew(result.entries, result.keys, vals, v);
    result.Set(FormatInt(keyIdx), Int(v));
  }

  lemma ListedLength(entries: map<string, Value>, keys: seq<string>, vals: seq<int>)
    requires Lists(entries, keys, vals)
    ensures |keys| == |vals|
  {
  }

  /** One integer directive: up to `repeat` whole units, as far as the data lasts. */
  method UnpackRun(code: char, repeat: nat, data: seq<Byte>, argIdx0: nat, result: OrderedMap, keyIdx0: int, ghost vals: seq<int>)
    returns (argIdx: nat, keyIdx: int)
    requires Width(code) > 0 && argIdx0 <= |data|
    requires Ordered(result.entries, result.keys) && Lists(result.entries, result.keys, vals)
    requires keyIdx0 == |vals| + 1
    modifies result
    ensures Ordered(result.entries, result.keys)
    ensures Lists(result.entries, result.keys, vals + DecodeMany(code, data[argIdx0..], repeat))
    ensures argIdx == argIdx0 + Used(code, |data| - argIdx0, repeat)
    ensures keyIdx == |vals + DecodeMany(code, data[argIdx0..], repeat)| + 1
  {
    hide Decode, Width, Lists, Ordered;
    argIdx, keyIdx := argIdx0, keyIdx0;
    var r := 0;
    ghost var now := vals;
    ghost var total := vals + DecodeMany(code, data[argIdx0..], repeat);
    while r < repeat
      invariant 0 <= r <= repeat && argIdx0 <= argIdx <= |data|
      invariant Ordered(result.entries, result.keys) && Lists(result.entries, result.keys, now)
      invariant now + DecodeMany(code, data[argIdx..], repeat - r) == total
      invariant argIdx + Used(code, |data| - argIdx, repeat - r) == argIdx0 + Used(code, |data| - argIdx0, repeat)
      invariant keyIdx == |now| + 1
    {
      var w := Width(code);
      if argIdx + w - 1 < |data| {
        ghost var rest := data[argIdx..];
        assert rest[..w] == data[argIdx..argIdx + w] && rest[w..] == data[argIdx + w..];
        var v := Decode(code, data[argIdx..argIdx + w]);
        Cat(now, [v], DecodeMany(code, data[argIdx + w..], repeat - r - 1));
        AppendNumber(result, keyIdx, v, now);
        now := now + [v];
        argIdx := argIdx + w;
        keyIdx := keyIdx + 1;
      }
      r := r + 1;
    }
    assert now == total;
  }

  /** The unpack builtin. */
  method Unpack(format: string, data: seq<Byte>) returns (result: OrderedMap)
    ensures fresh(result) && Ordered(result.entries, result.keys)
    ensures Lists(result.entries, result.keys, Unpacked(Directives(format), data))
  {
    hide FirstDirective, DecodeMany, Used, Width, Count, Lists, Ordered;
    result := new OrderedMap();
    var argIdx, keyIdx, i := 0, 1, 0;
    assert format[0..] == format && data[0..] == data;
    ghost var vals: seq<int> := [];
    ghost var total := Unpacked(Directives(format), data);
    NothingListed(result.entries, result.keys);
    while i < |format|
      invariant 0 <= i <= |format| && 0 <= argIdx <= |data|
      invariant Ordered(result.entries, result.keys) && Lists(result.entries, result.keys, vals)
      invariant vals + Unpacked(Directives(format[i..]), data[argIdx..]) == total
      invariant keyIdx == |vals| + 1
      decreases |format| - i
    {
      var d, j := ReadDirective(format, i);
      i := j;
      if Width(d.code) > 0 {
        ghost var rest := data[argIdx..];
        CountCases(d, |rest|);
        var repeat := if d.code == 'C' && d.star then |data| - argIdx else d.repeat;
        ghost var run := DecodeMany(d.code, rest, repeat);
        ghost var u := Used(d.code, |rest|, repeat);
        Cat(vals, run, Unpacked(Directives(format[i..]), rest[u..]));
        assert rest[u..] == data[argIdx + u..];
        argIdx, keyIdx := UnpackRun(d.code, repeat, data, argIdx, result, keyIdx, vals);
        vals := vals + run;
      } else {
      }
    }
    assert format[i..] == "";
    assert vals == total;
  }

  lemma NothingListed(entries: map<string, Value>, keys: seq<string>)
    requires keys == []
    ensures Lists(entries, keys, [])
  {
  }

  // ----- unpack inverts pack

  /** The code applied to each of n arguments in turn, until the format or the arguments run out. */
  function CodesFor(dirs: seq<Directive>, n: nat): (codes: seq<char>)
    ensures |codes| <= n
    ensures forall c :: c in codes ==> Width(c) > 0
    decreases |dirs|
  {
    if dirs == [] then []
    else if Width(dirs[0].code) == 0 then CodesFor(dirs[1..], n)
    else
      var k := Min(Count(dirs[0], n), n);
      Repeated(dirs[0].code, k) + CodesFor(dirs[1..], n - k)
  }

  function Repeated(c: char, k: nat): (r: seq<char>)
    ensures |r| == k && forall i :: 0 <= i < k ==> r[i] == c
  {
    if k == 0 then [] else [c] + Repeated(c, k - 1)
  }

  /** The arguments reduced to the widths of their codes. */
  function Reduced(codes: seq<char>, args: seq<Arg>): (r: seq<int>)
    requires |codes| <= |args| && forall c :: c in codes ==> Width(c) > 0
    ensures |r| == |codes|
    ensures forall i :: 0 <= i < |r| ==> r[i] == args[i].asInt % Modulus(codes[i])
  {
    if codes == [] then [] else [args[0].asInt % Modulus(codes[0])] + Reduced(codes[1..], args[1..])
  }

  predicate NoText(dirs: seq<Directive>) {
    forall i :: 0 <= i < |dirs| ==> !IsText(dirs[i].code)
  }

  /** Without text directives the buffer only grows at its end. */
  lemma {:induction false} PackedAppends(dirs: seq<Directive>, args: seq<Arg>, b: seq<Byte>)
    requires NoText(dirs)
    ensures Packed(dirs, args, b) == b + Packed(dirs, args, [])
    decreases |dirs|
  {
    hide Count, EncodeMany, Width;
    if dirs != [] {
      var d := dirs[0];
      if Width(d.code) == 0 {
        PackedAppends(dirs[1..], args, b);
      } else {
        var n := Count(d, |args|);
        var e, rest := EncodeMany(d.code, args, n), args[Min(n, |args|)..];
        PackedAppends(dirs[1..], rest, b + e);
        PackedAppends(dirs[1..], rest, [] + e);
        assert [] + e == e;
        Cat(b, e, Packed(dirs[1..], rest, []));
      }
    }
  }

  /** Once the arguments have run out, nothing more is written. */
  lemma {:induction false} PackedNoArgs(dirs: seq<Directive>)
    requires NoText(dirs)
    ensures Packed(dirs, [], []) == []
    decreases |dirs|
  {
    hide Width, Count;
    if dirs != [] {
      PackedNoArgs(dirs[1..]);
      var none: seq<Arg> := [];
      assert none[Min(Count(dirs[0], 0), 0)..] == none;
      if Width(dirs[0].code) > 0 {
        assert [] + EncodeMany(dirs[0].code, none, Count(dirs[0], 0)) == [];
      }
    }
  }

  /** A run of k units reads back, whatever follows it, when the count stops there or the data does. */
  lemma {:induction false} RunRoundTrip(code: char, args: seq<Arg>, count: nat, more: seq<Byte>, count': nat)
    requires Width(code) > 0
    requires (count' == count <= |args|) || (more == [] && Min(count, |args|) <= count' && |args| <= count)
    ensures
      var k := Min(count, |args|);
      var data := EncodeMany(code, args, count) + more;
      && DecodeMany(code, data, count') == Reduced(Repeated(code, k), args)
      && data[Used(code, |data|, count')..] == more
    decreases |args|
  {
    hide Encode, Decode, DecodeMany, Used, Repeated, Reduced;
    var e := EncodeMany(code, args, count);
    var data := e + more;
    var k := Min(count, |args|);
    RepeatedStep(code, k, args);
    if args == [] || count == 0 {
      assert data == more;
      NothingRead(code, data, count');
      assert data[0..] == more;
    } else {
      var first, others := Encode(code, args[0].asInt), EncodeMany(code, args[1..], count - 1);
      assert e == first + others;
      hide EncodeMany;
      DecodeEncode(code, args[0].asInt);
      RunRoundTrip(code, args[1..], count - 1, more, count' - 1);
      Cat(first, others, more);
      ReadOne(code, first, others + more, count');
    }
  }

  lemma NothingRead(code: char, data: seq<Byte>, count: nat)
    requires Width(code) > 0 && (data == [] || count == 0)
    ensures DecodeMany(code, data, count) == [] && Used(code, |data|, count) == 0
  {
  }

  lemma ReadOne(code: char, first: seq<Byte>, rest: seq<Byte>, count: nat)
    requires 0 < Width(code) == |first| && count > 0
    ensures DecodeMany(code, first + rest, count) == [Decode(code, first)] + DecodeMany(code, rest, count - 1)
    ensures (first + rest)[Used(code, |first + rest|, count)..] == rest[Used(code, |rest|, count - 1)..]
  {
  }

  lemma RepeatedStep(code: char, k: nat, args: seq<Arg>)
    requires Width(code) > 0 && k <= |args|
    ensures Reduced(Repeated(code, k), args) ==
      if k == 0 then [] else [args[0].asInt % Modulus(code)] + Reduced(Repeated(code, k - 1), args[1..])
  {
  }

  lemma {:induction false} ReducedCat(c: seq<char>, d: seq<char>, args: seq<Arg>)
    requires |c| + |d| <= |args| && (forall x :: x in c + d ==> Width(x) > 0)
    requires (forall x :: x in c ==> Width(x) > 0) && (forall x :: x in d ==> Width(x) > 0)
    ensures Reduced(c + d, args) == Reduced(c, args) + Reduced(d, args[|c|..])
  {
  }

  /** What both interpreters, and the list of codes, do with the first directive. */
  lemma TakeStep(dirs: seq<Directive>, args: seq<Arg>, data: seq<Byte>)
    requires NoText(dirs)
    ensures dirs == [] ==> Packed(dirs, args, []) == [] && Unpacked(dirs, data) == [] && CodesFor(dirs, |args|) == []
    ensures dirs != [] && Width(dirs[0].code) == 0 ==>
      && Packed(dirs, args, []) == Packed(dirs[1..], args, [])
      && Unpacked(dirs, data) == Unpacked(dirs[1..], data)
      && CodesFor(dirs, |args|) == CodesFor(dirs[1..], |args|)
    ensures dirs != [] && Width(dirs[0].code) > 0 ==>
      var d, n, m := dirs[0], Count(dirs[0], |args|), Count(dirs[0], |data|);
      var k := Min(n, |args|);
      && Packed(dirs, args, []) == Packed(dirs[1..], args[k..], EncodeMany(d.code, args, n))
      && Unpacked(dirs, data) == DecodeMany(d.code, data, m) + Unpacked(dirs[1..], data[Used(d.code, |data|, m)..])
      && CodesFor(dirs, |args|) == Repeated(d.code, k) + CodesFor(dirs[1..], |args| - k)
  {
    hide Width, EncodeMany, DecodeMany, Used, Repeated, Count;
    if dirs != [] && Width(dirs[0].code) > 0 {
      var e := EncodeMany(dirs[0].code, args, Count(dirs[0], |args|));
      assert [] + e == e;
    }
  }

  /** unpack after pack, for every format without text codes and all arguments, also too few of them. */
  lemma {:induction false} UnpackPacked(dirs: seq<Directive>, args: seq<Arg>)
    requires NoText(dirs)
    ensures Unpacked(dirs, Packed(dirs, args, [])) == Reduced(CodesFor(dirs, |args|), args)
    decreases |dirs|
  {
    hide Width, EncodeMany, DecodeMany, Used, Repeated, Reduced, Count, Packed, Unpacked, CodesFor, Modulus;
    TakeStep(dirs, args, Packed(dirs, args, []));
    if dirs == [] {
    } else if Width(dirs[0].code) == 0 {
      UnpackPacked(dirs[1..], args);
    } else {
      var d := dirs[0];
      var n := Count(d, |args|);
      var k := Min(n, |args|);
      var e, rest := EncodeMany(d.code, args, n), args[k..];
      var more := Packed(dirs[1..], rest, []);
      PackedAppends(dirs[1..], rest, e);
      if n >= |args| {
        assert rest == [];
        PackedNoArgs(dirs[1..]);
        assert more == [];
      }
      SameCount(d, args, e, more);
      RunRoundTrip(d.code, args, n, more, Count(d, |e + more|));
      UnpackPacked(dirs[1..], rest);
      ReducedCat(Repeated(d.code, k), CodesFor(dirs[1..], |args| - k), args);
    }
  }

  /** Both interpreters apply a directive equally often; only C* depends on what is left, and it takes all. */
  lemma SameCount(d: Directive, args: seq<Arg>, e: seq<Byte>, more: seq<Byte>)
    requires Width(d.code) > 0 && e == EncodeMany(d.code, args, Count(d, |args|))
    ensures
      var n, m := Count(d, |args|), Count(d, |e + more|);
      n == m || (n == |args| && m >= |args|)
  {
    hide EncodeMany;
    if d.star && d.code == 'C' {
      StarRun(d.code, args);
    }
  }

  /** C* writes one byte per argument. */
  lemma {:induction false} StarRun(code: char, args: seq<Arg>)
    requires Width(code) > 0
    ensures |EncodeMany(code, args, |args|)| == |args| * Width(code)
  {
    if args != [] {
      StarRun(code, args[1..]);
    }
  }

  /** The same about format strings, and when the arguments themselves come back. */
  lemma UnpackInvertsPack(format: string, args: seq<Arg>)
    requires NoText(Directives(format))
    ensures
      var codes := CodesFor(Directives(format), |args|);
      var got := Unpacked(Directives(format), Packed(Directives(format), args, []));
      && |got| == |codes| <= |args|
      && (forall i :: 0 <= i < |got| ==> got[i] == args[i].asInt % Modulus(codes[i]))
      && ((forall i :: 0 <= i < |got| ==> got[i] == args[i].asInt)
          <==> (forall i :: 0 <= i < |got| ==> 0 <= args[i].asInt < Modulus(codes[i])))
  {
    UnpackPacked(Directives(format), args);
    var codes := CodesFor(Directives(format), |args|);
    var got := Reduced(codes, args);
    forall i | 0 <= i < |got| ensures got[i] == args[i].asInt <==> 0 <= args[i].asInt < Modulus(codes[i]) {
      assert codes[i] in codes;
      SmallIsReduced(args[i].asInt, Modulus(codes[i]));
    }
  }

  lemma SmallIsReduced(v: int, m: nat)
    requires m > 0
    ensures v % m == v <==> 0 <= v < m
  {
  }

  lemma AThenC()
    ensures Directives("aC") == [Directive('a', 1, false), Directive('C', 1, false)]
  {
    assert "aC"[1..] == "C" && "C"[1..] == "";
    assert Directives("") == [];
    assert Directives("C") == [Directive('C', 1, false)];
  }

  /** unpack skips text codes without skipping their bytes: "aC" on "A" and 5 gives 65, not 5. */
  lemma TextIsNotSkipped()
    ensures
      var dirs := Directives("aC");
      Packed(dirs, [Arg(0, [65]), Arg(5, [53])], []) == [65, 5] && Unpacked(dirs, [65, 5]) == [65]
  {
    AThenC();
    hide Directives;
  }
}
