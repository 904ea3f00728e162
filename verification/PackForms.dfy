/** What the codes of pack and unpack stand for, byte by byte, and how a format is read. */
module PackForms {
  import opened Decimal
  import opened PhpValues
  import opened PackFormat

  // ----- the integer codes

  /** C is one byte; n and N are 16 and 32 bits with the high byte first, v and V with the low byte first. */
  lemma ByteOrders(v: int, a: Byte, b: Byte, c: Byte, d: Byte)
    ensures v % 256 == a ==> Encode('C', v) == [a]
    ensures v % 65536 == a * 256 + b ==> Encode('n', v) == [a, b] && Encode('v', v) == [b, a]
    ensures v % 4294967296 == a * 16777216 + b * 65536 + c * 256 + d ==>
      Encode('N', v) == [a, b, c, d] && Encode('V', v) == [d, c, b, a]
  {
    OneByte(a);
    TwoBytes(a, b);
    FourBytes(a, b, c, d);
    hide BigEndian, LittleEndian;
  }

  lemma OneByte(a: Byte)
    ensures BigEndian(a, 1) == [a] == LittleEndian(a, 1)
  {
  }

  lemma TwoBytes(a: Byte, b: Byte)
    ensures BigEndian(a * 256 + b, 2) == [a, b] && LittleEndian(a * 256 + b, 2) == [b, a]
  {
    OneByte(a);
    hide BigEndian, LittleEndian;
    BytesStep(a, b, 1);
  }

  lemma BytesStep(u: nat, b: Byte, n: nat)
    ensures BigEndian(u * 256 + b, n + 1) == BigEndian(u, n) + [b]
    ensures LittleEndian(u * 256 + b, n + 1) == [b] + LittleEndian(u, n)
  {
    hide BigEndian, LittleEndian;
    LastByte(u * 256 + b, n);
    DigitOf256(u, b);
  }

  lemma DigitOf256(u: nat, b: Byte)
    ensures (u * 256 + b) / 256 == u && (u * 256 + b) % 256 == b
  {
  }

  lemma LastByte(w: nat, n: nat)
    ensures BigEndian(w, n + 1) == BigEndian(w / 256, n) + [w % 256]
    ensures LittleEndian(w, n + 1) == [w % 256] + LittleEndian(w / 256, n)
  {
  }

  lemma FourBytes(a: Byte, b: Byte, c: Byte, d: Byte)
    ensures
      var u := a * 16777216 + b * 65536 + c * 256 + d;
      BigEndian(u, 4) == [a, b, c, d] && LittleEndian(u, 4) == [d, c, b, a]
  {
    TwoBytes(a, b);
    hide BigEndian, LittleEndian;
    BytesStep(a * 256 + b, c, 2);
    BytesStep((a * 256 + b) * 256 + c, d, 3);
  }

  lemma Small(a: Byte, b: Byte, c: Byte, d: Byte)
    ensures a % 256 == a && (a * 256 + b) % 65536 == a * 256 + b
    ensures
      var u := a * 16777216 + b * 65536 + c * 256 + d;
      u % 4294967296 == u
  {
  }

  /** Reading is the same sum. */
  lemma ByteSums(a: Byte, b: Byte, c: Byte, d: Byte)
    ensures Decode('C', [a]) == a
    ensures Decode('n', [a, b]) == a * 256 + b && Decode('v', [a, b]) == b * 256 + a
    ensures Decode('N', [a, b, c, d]) == a * 16777216 + b * 65536 + c * 256 + d
    ensures Decode('V', [a, b, c, d]) == d * 16777216 + c * 65536 + b * 256 + a
  {
    hide Encode, Decode;
    Small(a, b, c, d);
    Small(b, a, c, d);
    Small(d, c, b, a);
    ByteOrders(a, a, b, c, d);
    ByteOrders(a * 256 + b, a, b, c, d);
    ByteOrders(b * 256 + a, b, a, c, d);
    ByteOrders(a * 16777216 + b * 65536 + c * 256 + d, a, b, c, d);
    ByteOrders(d * 16777216 + c * 65536 + b * 256 + a, d, c, b, a);
    hide Modulus;
    Recovered('C', a);
    Recovered('n', a * 256 + b);
    Recovered('v', b * 256 + a);
    Recovered('N', a * 16777216 + b * 65536 + c * 256 + d);
    Recovered('V', d * 16777216 + c * 65536 + b * 256 + a);
  }

  lemma Recovered(code: char, v: nat)
    requires (code == 'C' && v < 256) || (code in "nv" && v < 65536) || (code in "NV" && v < 4294967296)
    ensures Width(code) > 0 && Decode(code, Encode(code, v)) == v
  {
    hide Encode, Decode;
    DecodeEncode(code, v);
  }

  // ----- the format

  /** A code, then `*`, a number, or nothing: then it is applied once. */
  lemma FormatRead(c: char, digits: string, f: string)
    requires AllDigits(digits)
    ensures Directives([c, '*'] + f) == [Directive(c, 1, true)] + Directives(f)
    ensures digits != "" && (f == "" || !IsDigit(f[0])) ==>
      Directives([c] + digits + f) == [Directive(c, DigitsValue(digits), false)] + Directives(f)
    ensures f == "" || (f[0] != '*' && !IsDigit(f[0])) ==> Directives([c] + f) == [Directive(c, 1, false)] + Directives(f)
    ensures Directives("") == []
  {
    hide DigitsValue, Directives, FirstDirective;
    StarRead(c, f);
    DirectivesStep([c, '*'] + f);
    assert ([c, '*'] + f)[2..] == f;
    if digits != "" && (f == "" || !IsDigit(f[0])) {
      var s := [c] + digits + f;
      NumberRead(c, digits, f);
      DirectivesStep(s);
      assert s[1 + |digits|..] == f;
    }
    if f == "" || (f[0] != '*' && !IsDigit(f[0])) {
      PlainRead(c, f);
      DirectivesStep([c] + f);
      assert ([c] + f)[1..] == f;
    }
    NoDirectives();
  }

  lemma NoDirectives()
    ensures Directives("") == []
  {
  }

  lemma DirectivesStep(f: string)
    requires f != ""
    ensures
      var (d, n) := FirstDirective(f);
      Directives(f) == [d] + Directives(f[n..])
  {
    hide FirstDirective;
  }

  lemma StarRead(c: char, f: string)
    ensures FirstDirective([c, '*'] + f) == (Directive(c, 1, true), 2)
  {
    hide DigitSpan, DigitsValue;
  }

  lemma PlainRead(c: char, f: string)
    requires f == "" || (f[0] != '*' && !IsDigit(f[0]))
    ensures FirstDirective([c] + f) == (Directive(c, 1, false), 1)
  {
    hide DigitsValue;
    assert ([c] + f)[1..] == f;
  }

  lemma NumberRead(c: char, digits: string, f: string)
    requires digits != "" && AllDigits(digits) && (f == "" || !IsDigit(f[0]))
    ensures FirstDirective([c] + digits + f) == (Directive(c, DigitsValue(digits), false), 1 + |digits|)
  {
    hide DigitsValue, DigitSpan, FirstDirective;
    var g := [c] + digits + f;
    assert g[1..] == digits + f;
    DigitSpanAt(digits, f);
    assert g[1..][..|digits|] == digits && g[1] == digits[0];
    FirstNumber(g, |digits|);
  }

  lemma FirstNumber(g: string, n: nat)
    requires |g| > 1 && g[1] != '*' && DigitSpan(g[1..]) == n > 0
    ensures AllDigits(g[1..][..n]) && FirstDirective(g) == (Directive(g[0], DigitsValue(g[1..][..n]), false), 1 + n)
  {
    hide DigitsValue, DigitSpan;
    SpanIsDigits(g[1..]);
  }

  // ----- the directives

  /** The integer codes; with `*` only C takes everything that is left. */
  lemma CodesTaken(code: char, n: nat, k: nat)
    ensures Width(code) == (if code == 'C' then 1 else if code in "nv" then 2 else if code in "NV" then 4 else 0)
    ensures Count(Directive(code, k, false), n) == k
    ensures Count(Directive(code, k, true), n) == if code == 'C' then n else k
  {
  }

  function Zeros(n: nat): (r: seq<Byte>)
    ensures |r| == n && forall i :: 0 <= i < n ==> r[i] == 0
  {
    seq(n, _ => 0)
  }

  function Blanks(n: nat): (r: seq<Byte>)
    ensures |r| == n && forall i :: 0 <= i < n ==> r[i] == 32
  {
    seq(n, _ => 32)
  }

  lemma {:induction false} PaddedText(b: seq<Byte>, length: int)
    ensures
      var missing := if |b| < length then length - |b| else 0;
      Padded(b, 0, length) == b + Zeros(missing) && Padded(b, 32, length) == b + Blanks(missing)
    decreases length - |b|
  {
    if |b| < length {
      PaddedText(b + [0], length);
      PaddedText(b + [32], length);
      var m := length - |b| - 1;
      assert [0] + Zeros(m) == Zeros(m + 1) && [32] + Blanks(m) == Blanks(m + 1);
      assert (b + [0]) + Zeros(m) == b + ([0] + Zeros(m)) && (b + [32]) + Blanks(m) == b + ([32] + Blanks(m));
    }
  }

  /** What one directive does with the arguments and the buffer b; text is padded, with zeros or blanks, to the length of the whole buffer. */
  lemma DirectivePacked(d: Directive, dirs: seq<Directive>, arg: Arg, args: seq<Arg>, b: seq<Byte>)
    ensures
      var all := b + arg.asText;
      var missing := if |all| < d.repeat then d.repeat - |all| else 0;
      && (d.code == 'a' ==> Packed([d] + dirs, [arg] + args, b) == Packed(dirs, args, all + Zeros(missing)))
      && (d.code == 'A' ==> Packed([d] + dirs, [arg] + args, b) == Packed(dirs, args, all + Blanks(missing)))
    ensures d.code in "aA" ==> Packed([d] + dirs, [], b) == Packed(dirs, [], b)
    ensures d.code !in "aACnvNV" ==> Packed([d] + dirs, args, b) == Packed(dirs, args, b)
    ensures Packed([], args, b) == b
  {
    hide Padded, Zeros, Blanks, EncodeMany;
    PaddedText(b + arg.asText, d.repeat);
    assert ([d] + dirs)[1..] == dirs && ([arg] + args)[1..] == args;
  }

  /** C2n on four numbers: two bytes, then one 16-bit number; the fourth stays. C* takes all. */
  lemma PackedTexts(a: Byte, b: Byte, c: Byte, d: Byte, t: seq<Byte>)
    ensures
      var args := [Arg(a, t), Arg(b, t), Arg(c * 256 + d, t), Arg(7, t)];
      Packed(Directives("C2n"), args, []) == [a, b, c, d]
    ensures Packed(Directives("C*"), [Arg(a, t), Arg(b, t)], []) == [a, b]
    ensures Unpacked(Directives("C2n"), [a, b, c, d]) == [a, b, c * 256 + d] && Unpacked(Directives("C*"), [a, b]) == [a, b]
  {
    hide Directives, Encode, Decode;
    Formats();
    ByteOrders(a, a, 0, 0, 0);
    ByteOrders(b, b, 0, 0, 0);
    ByteOrders(c * 256 + d, c, d, 0, 0);
    ByteSums(a, b, 0, 0);
    ByteSums(b, b, 0, 0);
    ByteSums(c, d, 0, 0);
    PackTwo(a, b, c, d, t);
    PackAll(a, b, t);
    UnpackTwo(a, b, c, d);
    UnpackAll(a, b);
  }

  lemma Formats()
    ensures Directives("C2n") == [Directive('C', 2, false), Directive('n', 1, false)]
    ensures Directives("C*") == [Directive('C', 1, true)]
  {
    hide Directives;
    FormatRead('C', "2", "n");
    FormatRead('n', "", "");
    FormatRead('C', "", "");
    assert "C2n" == ['C'] + "2" + "n" && "n" == ['n'] + "" && "C*" == ['C', '*'] + "";
    assert "2"[..0] == "";
    assert DigitsValue("") == 0;
    assert DigitsValue("2") == 2;
  }

  lemma PackTwo(a: Byte, b: Byte, c: Byte, d: Byte, t: seq<Byte>)
    requires Encode('C', a) == [a] && Encode('C', b) == [b] && Encode('n', c * 256 + d) == [c, d]
    ensures
      var args := [Arg(a, t), Arg(b, t), Arg(c * 256 + d, t), Arg(7, t)];
      Packed([Directive('C', 2, false), Directive('n', 1, false)], args, []) == [a, b, c, d]
  {
    hide Encode;
    var args := [Arg(a, t), Arg(b, t), Arg(c * 256 + d, t), Arg(7, t)];
    var dirs := [Directive('C', 2, false), Directive('n', 1, false)];
    var rest := [Arg(c * 256 + d, t), Arg(7, t)];
    assert args[2..] == rest && args[1..][1..] == rest && dirs[1..] == [Directive('n', 1, false)] && dirs[1..][1..] == [];
    assert EncodeMany('C', rest, 0) == [];
    assert EncodeMany('C', args[1..], 1) == [b];
    assert EncodeMany('C', args, 2) == [a, b];
    assert EncodeMany('n', rest[1..], 0) == [];
    assert EncodeMany('n', rest, 1) == [c, d];
    assert Packed(dirs[1..], rest, [a, b]) == [a, b, c, d];
  }

  lemma PackAll(a: Byte, b: Byte, t: seq<Byte>)
    requires Encode('C', a) == [a] && Encode('C', b) == [b]
    ensures Packed([Directive('C', 1, true)], [Arg(a, t), Arg(b, t)], []) == [a, b]
  {
    hide Encode;
    var args := [Arg(a, t), Arg(b, t)];
    assert args[1..][1..] == [];
    assert EncodeMany('C', args[1..], 1) == [b];
    assert EncodeMany('C', args, 2) == [a, b];
  }

  lemma UnpackTwo(a: Byte, b: Byte, c: Byte, d: Byte)
    requires Decode('C', [a]) == a && Decode('C', [b]) == b && Decode('n', [c, d]) == c * 256 + d
    ensures Unpacked([Directive('C', 2, false), Directive('n', 1, false)], [a, b, c, d]) == [a, b, c * 256 + d]
  {
    hide Decode;
    var data: seq<Byte> := [a, b, c, d];
    var dirs := [Directive('C', 2, false), Directive('n', 1, false)];
    assert data[1..] == [b, c, d] && data[1..][1..] == [c, d] && data[2..] == [c, d] && data[..1] == [a] && data[1..][..1] == [b];
    assert dirs[1..] == [Directive('n', 1, false)] && dirs[1..][1..] == [];
    assert DecodeMany('C', data[1..], 1) == [b];
    assert DecodeMany('C', data, 2) == [a, b];
    var tail: seq<Byte> := [c, d];
    assert tail[..2] == tail;
    assert DecodeMany('n', tail, 1) == [c * 256 + d];
    assert Used('C', 3, 1) == 1;
    assert Used('C', 4, 2) == 2;
    assert Unpacked([], tail[2..]) == [];
    assert Unpacked(dirs[1..], tail) == [c * 256 + d];
  }

  lemma UnpackAll(a: Byte, b: Byte)
    requires Decode('C', [a]) == a && Decode('C', [b]) == b
    ensures Unpacked([Directive('C', 1, true)], [a, b]) == [a, b]
  {
    hide Decode;
    var data: seq<Byte> := [a, b];
    assert data[1..] == [b] && data[1..][1..] == [] && data[..1] == [a] && data[1..][..1] == [b];
    assert DecodeMany('C', data[1..], 1) == [b];
    assert DecodeMany('C', data, 2) == [a, b];
  }

  /** Two unpacked values stand under the keys "1" and "2". */
  lemma UnpackedKeys(entries: map<string, Value>, keys: seq<string>, v: int, w: int)
    ensures Lists(entries, keys, [v, w]) <==>
      keys == ["1", "2"] && "1" in entries && "2" in entries && entries["1"] == Int(v) && entries["2"] == Int(w)
  {
    OneDigit(1);
    OneDigit(2);
    hide FormatInt;
    if Lists(entries, keys, [v, w]) {
      assert keys[0] == FormatInt(0 + 1) && keys[1] == FormatInt(1 + 1);
    }
  }
}
