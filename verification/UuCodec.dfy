/**
 uuencode and uudecode: groups of three bytes become four printable characters, lines carry
 45 bytes and their length.
 */
module UuCodec {
  import opened Basics
  import opened Bytes

  const LINE := 45

  // ----- the encoder

  // The 6-bit pieces of three bytes, as printable characters.

  function First(c1: byte): byte {
    (c1 >> 2) + 32
  }

  function Second(c1: byte, c2: byte): byte {
    (((c1 & 3) << 4) | (c2 >> 4)) + 32
  }

  function Third(c2: byte, c3: byte): byte {
    (((c2 & 15) << 2) | (c3 >> 6)) + 32
  }

  function Fourth(c3: byte): byte {
    (c3 & 63) + 32
  }

  /** The four characters of one group of one, two or three bytes. */
  function Group(g: seq<byte>): (r: seq<byte>)
    requires 1 <= |g| <= 3
    ensures |r| == 4
  {
    var c2, c3 := if |g| > 1 then g[1] else 0, if |g| > 2 then g[2] else 0;
    [First(g[0]), Second(g[0], c2),
     if |g| > 1 then Third(c2, c3) else BACKTICK,
     if |g| > 2 then Fourth(c3) else BACKTICK]
  }

  function EncodeGroups(s: seq<byte>): seq<byte> {
    if s == [] then [] else Group(s[..Min(3, |s|)]) + EncodeGroups(s[Min(3, |s|)..])
  }

  function LengthChar(n: nat): byte
    requires n <= LINE
  {
    (n as bv8) + 32
  }

  function EncodeLine(s: seq<byte>): seq<byte>
    requires |s| <= LINE
  {
    [LengthChar(|s|)] + EncodeGroups(s)
  }

  function UuEncoded(s: seq<byte>): seq<byte> {
    if s == [] then [] else
      EncodeLine(s[..Min(LINE, |s|)]) + [LF] + UuEncoded(s[Min(LINE, |s|)..])
  }

  lemma NoGroups(s: seq<byte>)
    requires s == []
    ensures EncodeGroups(s) == []
  {
  }

  lemma GroupsStep(data: seq<byte>, i: nat, end: nat)
    requires i < end <= |data|
    ensures EncodeGroups(data[i..end]) == Group(data[i..Min(i + 3, end)]) + EncodeGroups(data[Min(i + 3, end)..end])
  {
    hide Group;
    var s := data[i..end];
    var k := Min(3, |s|);
    assert s[..k] == data[i..Min(i + 3, end)] && s[k..] == data[Min(i + 3, end)..end];
  }

  /** The four writes of one round append exactly the group. */
  lemma GroupAt(data: seq<byte>, i: nat, end: nat, b: seq<byte>)
    requires i < end <= |data|
    ensures
      var c1, c2, c3 := data[i], if i + 1 < end then data[i + 1] else 0, if i + 2 < end then data[i + 2] else 0;
      b + [First(c1)] + [Second(c1, c2)] + [if i + 1 < end then Third(c2, c3) else BACKTICK]
        + [if i + 2 < end then Fourth(c3) else BACKTICK]
      == b + Group(data[i..Min(i + 3, end)])
  {
  }

  /** phpUUEncode's inner loop: one line's worth of groups, data[start .. end]. */
  method WriteGroups(data: seq<byte>, start: nat, end: nat, b0: seq<byte>) returns (b: seq<byte>)
    requires start <= end <= |data|
    ensures b == b0 + EncodeGroups(data[start..end])
  {
    hide EncodeGroups, Group, First, Second, Third, Fourth;
    b := b0;
    var i := start;
    ghost var all := EncodeGroups(data[start..end]);
    while i < end
      invariant start <= i
      invariant b + EncodeGroups(data[Min(i, end)..end]) == b0 + all
    {
      var c1 := data[i];
      var c2, c3: byte := 0, 0;
      var has2, has3 := false, false;
      if i + 1 < end {
        c2 := data[i + 1];
        has2 := true;
      }
      if i + 2 < end {
        c3 := data[i + 2];
        has3 := true;
      }
      GroupsStep(data, i, end);
      ghost var g := Group(data[i..Min(i + 3, end)]);
      Cat(b, g, EncodeGroups(data[Min(i + 3, end)..end]));
      GroupAt(data, i, end, b);
      b := b + [First(c1)];
      b := b + [Second(c1, c2)];
      b := b + [if has2 then Third(c2, c3) else BACKTICK];
      b := b + [if has3 then Fourth(c3) else BACKTICK];
      i := i + 3;
    }
    NoGroups(data[end..end]);
  }

  method UuEncode(data: seq<byte>) returns (b: seq<byte>)
    ensures b == UuEncoded(data)
  {
    hide EncodeGroups, UuEncoded, EncodeLine, LengthChar;
    b := [];
    var start := 0;
    assert data[0..] == data;
    while start < |data|
      invariant 0 <= start
      invariant b + UuEncoded(data[Min(start, |data|)..]) == UuEncoded(data)
    {
      var n := |data| - start;
      if n > 45 {
        n := 45;
      }
      ghost var before := b;
      LinesStep(data, start);
      LineAt(before, data[start..start + n]);
      Cat(before, EncodeLine(data[start..start + n]) + [LF], UuEncoded(data[Min(start + 45, |data|)..]));
      b := b + [LengthChar(n)];
      b := WriteGroups(data, start, start + n, b);
      b := b + [LF];
      start := start + 45;
    }
    NoLines(data[|data|..]);
  }

  lemma LineAt(b: seq<byte>, line: seq<byte>)
    requires |line| <= LINE
    ensures b + [LengthChar(|line|)] + EncodeGroups(line) + [LF] == b + (EncodeLine(line) + [LF])
  {
    hide EncodeGroups, LengthChar;
    var e := EncodeGroups(line);
    Cat(b, [LengthChar(|line|)], e);
    Cat(b, [LengthChar(|line|)] + e, [LF]);
  }

  lemma NoLines(s: seq<byte>)
    requires s == []
    ensures UuEncoded(s) == []
  {
  }

  lemma LinesStep(data: seq<byte>, start: nat)
    requires start < |data|
    ensures var end := Min(start + LINE, |data|);
      UuEncoded(data[start..]) == EncodeLine(data[start..end]) + [LF] + UuEncoded(data[end..])
  {
    hide EncodeLine;
    var s := data[start..];
    var k := Min(LINE, |s|);
    assert s[..k] == data[start..start + k] && s[k..] == data[start + k..];
  }

  // ----- the decoder

  function Six(c: byte): byte {
    if c == BACKTICK then 0 else c - 32
  }

  function JoinFirst(c1: byte, c2: byte): byte {
    (c1 << 2) | (c2 >> 4)
  }

  function JoinSecond(c2: byte, c3: byte): byte {
    (c2 << 4) | (c3 >> 2)
  }

  function JoinThird(c3: byte, c4: byte): byte {
    (c3 << 6) | c4
  }

  /** The three bytes that four characters stand for. */
  function Ungroup(q: seq<byte>): (r: seq<byte>)
    requires |q| >= 4
    ensures |r| == 3
  {
    var c1, c2, c3, c4 := Six(q[0]), Six(q[1]), Six(q[2]), Six(q[3]);
    [JoinFirst(c1, c2), JoinSecond(c2, c3), JoinThird(c3, c4)]
  }

  /** At most `left` bytes from the groups of four that the line holds. */
  function DecodeGroups(body: seq<byte>, left: int): seq<byte> {
    if |body| < 4 || left <= 0 then [] else Ungroup(body)[..Min(3, left)] + DecodeGroups(body[4..], left - 3)
  }

  function DecodeLines(lines: seq<seq<byte>>): seq<byte> {
    if lines == [] then []
    else
      var line := WithoutTrailingCr(lines[0]);
      if line == [] then DecodeLines(lines[1..])
      else if line[0] == BACKTICK then []
      else if line[0] < 32 || line[0] > 126 then DecodeLines(lines[1..])
      else DecodeGroups(line[1..], line[0] as int - 32) + DecodeLines(lines[1..])
  }

  function UuDecoded(s: seq<byte>): seq<byte> {
    DecodeLines(Split(s))
  }

  /** phpUUDecode's inner loop over the groups of one line. */
  method ReadGroups(body: seq<byte>, n: int, out0: seq<byte>) returns (out: seq<byte>)
    ensures out == out0 + DecodeGroups(body, n)
  {
    hide Six, DecodeGroups, JoinFirst, JoinSecond, JoinThird;
    out := out0;
    var got, i := 0, 0;
    assert body[0..] == body;
    while i + 3 < |body| && got < n
      invariant 0 <= i <= |body| && got >= 0
      invariant out + DecodeGroups(body[i..], n - got) == out0 + DecodeGroups(body, n)
      decreases |body| - i
    {
      var c1, c2, c3, c4 := Six(body[i]), Six(body[i + 1]), Six(body[i + 2]), Six(body[i + 3]);
      ghost var before, left := out, n - got;
      out := out + [JoinFirst(c1, c2)];
      got := got + 1;
      if got < n {
        out := out + [JoinSecond(c2, c3)];
        got := got + 1;
      }
      if got < n {
        out := out + [JoinThird(c3, c4)];
        got := got + 1;
      }
      DecodeStep(body, i, left);
      var u := Ungroup(body[i..]);
      UngroupAt(before, body, i, left);
      Cat(before, u[..Min(3, left)], DecodeGroups(body[i + 4..], left - 3));
      DecodeNone(body[i + 4..], left - 3, n - got);
      i := i + 4;
    }
    DecodeNone(body[i..], n - got, 0);
  }

  /** The writes of one round append as many bytes of the group as are still wanted. */
  lemma UngroupAt(b: seq<byte>, body: seq<byte>, i: nat, left: int)
    requires i + 3 < |body| && left > 0
    ensures
      var c1, c2, c3, c4 := Six(body[i]), Six(body[i + 1]), Six(body[i + 2]), Six(body[i + 3]);
      var b1 := b + [JoinFirst(c1, c2)];
      var b2 := b1 + [JoinSecond(c2, c3)];
      var b3 := b2 + [JoinThird(c3, c4)];
      b + Ungroup(body[i..])[..Min(3, left)] == if left == 1 then b1 else if left == 2 then b2 else b3
  {
  }

  lemma DecodeStep(body: seq<byte>, i: nat, left: int)
    requires i + 3 < |body| && left > 0
    ensures DecodeGroups(body[i..], left)
         == Ungroup(body[i..])[..Min(3, left)] + DecodeGroups(body[i + 4..], left - 3)
  {
  }

  /** Once the line's count is used up, it does not matter by how much. */
  lemma DecodeNone(body: seq<byte>, left: int, left': int)
    ensures |body| < 4 || left <= 0 ==> DecodeGroups(body, left) == []
    ensures left <= 0 && left' <= 0 ==> DecodeGroups(body, left) == DecodeGroups(body, left')
  {
  }

  method UuDecode(s: seq<byte>) returns (out: seq<byte>)
    ensures out == UuDecoded(s)
  {
    hide DecodeGroups;
    out := [];
    var lines := Split(s);
    var k := 0;
    assert lines[0..] == lines;
    while k < |lines|
      invariant 0 <= k <= |lines|
      invariant out + DecodeLines(lines[k..]) == UuDecoded(s)
    {
      assert lines[k..][1..] == lines[k + 1..];
      var line := WithoutTrailingCr(lines[k]);
      k := k + 1;
      if line == [] {
        continue;
      }
      if line[0] == BACKTICK {
        break;
      }
      if line[0] < 32 || line[0] > 126 {
        continue;
      }
      var n := line[0] as int - 32;
      if n < 0 {
        n := 0;
      }
      ghost var before := out;
      out := ReadGroups(line[1..], n, out);
      Cat(before, DecodeGroups(line[1..], n), DecodeLines(lines[k..]));
    }
  }

  // ----- the round trip

  /** The 6-bit split and join arithmetic. */
  lemma SplitJoin(c1: byte, c2: byte, c3: byte)
    ensures JoinFirst(Six(First(c1)), Six(Second(c1, c2))) == c1
    ensures JoinSecond(Six(Second(c1, c2)), Six(Third(c2, c3))) == c2
    ensures JoinThird(Six(Third(c2, c3)), Six(Fourth(c3))) == c3
  {
  }

  lemma SixFirst(c1: byte)
    ensures 32 <= First(c1) <= 95 && Six(First(c1)) == c1 >> 2
  {
  }

  lemma SixSecond(c1: byte, c2: byte)
    ensures 32 <= Second(c1, c2) <= 95 && Six(Second(c1, c2)) == ((c1 & 3) << 4) | (c2 >> 4)
  {
  }

  lemma SixThird(c2: byte, c3: byte)
    ensures 32 <= Third(c2, c3) <= 95 && Six(Third(c2, c3)) == ((c2 & 15) << 2) | (c3 >> 6)
  {
  }

  lemma SixFourth(c3: byte)
    ensures 32 <= Fourth(c3) <= 95 && Six(Fourth(c3)) == c3 & 63
  {
  }

  predicate Printable(s: seq<byte>) {
    forall i :: 0 <= i < |s| ==> 32 <= s[i] <= 96
  }

  lemma GroupPrintable(g: seq<byte>)
    requires 1 <= |g| <= 3
    ensures Printable(Group(g))
  {
    hide First, Second, Third, Fourth, Six;
    var c2, c3 := if |g| > 1 then g[1] else 0, if |g| > 2 then g[2] else 0;
    SixFirst(g[0]);
    SixSecond(g[0], c2);
    SixThird(c2, c3);
    SixFourth(c3);
  }

  lemma GroupBytes(g: seq<byte>, i: nat)
    requires i < |g| <= 3
    ensures Ungroup(Group(g))[i] == g[i]
  {
    hide First, Second, Third, Fourth, Six, JoinFirst, JoinSecond, JoinThird;
    SplitJoin(g[0], if |g| > 1 then g[1] else 0, if |g| > 2 then g[2] else 0);
  }

  lemma GroupRoundTrip(g: seq<byte>)
    requires 1 <= |g| <= 3
    ensures Printable(Group(g))
    ensures Ungroup(Group(g))[..|g|] == g
  {
    hide Group, Ungroup, Printable;
    GroupPrintable(g);
    forall i: nat | i < |g| ensures Ungroup(Group(g))[i] == g[i] {
      GroupBytes(g, i);
    }
  }

  lemma {:induction false} GroupsRoundTrip(s: seq<byte>)
    ensures Printable(EncodeGroups(s))
    ensures DecodeGroups(EncodeGroups(s), |s|) == s
    decreases |s|
  {
    hide Group, Ungroup;
    if s != [] {
      var k := Min(3, |s|);
      var g, rest := s[..k], s[k..];
      GroupRoundTrip(g);
      GroupsRoundTrip(rest);
      var e := EncodeGroups(s);
      assert e == Group(g) + EncodeGroups(rest);
      assert e[4..] == EncodeGroups(rest);
      UngroupPrefix(Group(g), EncodeGroups(rest));
      DecodeNone(EncodeGroups(rest), |rest|, |s| - 3);
      assert s == g + rest;
    }
  }

  lemma UngroupPrefix(q: seq<byte>, rest: seq<byte>)
    requires |q| == 4
    ensures Ungroup(q + rest) == Ungroup(q)
  {
  }

  /** A terminator line, or nothing: what may follow the encoded lines. */
  predicate IsTail(t: seq<byte>) {
    t == [] || t[0] == BACKTICK
  }

  lemma {:induction false} LineRoundTrip(s: seq<byte>, lines: seq<seq<byte>>)
    requires 0 < |s| <= LINE
    ensures LF !in EncodeLine(s)
    ensures DecodeLines([EncodeLine(s)] + lines) == s + DecodeLines(lines)
  {
    hide EncodeGroups, DecodeGroups, LengthChar;
    GroupsRoundTrip(s);
    LengthByte(|s|);
    var line := EncodeLine(s);
    assert Printable(line);
    assert line[|line| - 1] != CR;
    assert ([line] + lines)[1..] == lines && line[1..] == EncodeGroups(s);
  }

  lemma LengthByte(n: nat)
    requires 0 < n <= LINE
    ensures 33 <= LengthChar(n) <= 77 && LengthChar(n) as int == n + 32
  {
    var b := n as bv8;
    assert b as int == n;
    Add32(b);
  }

  lemma Add32(b: bv8)
    requires 0 < b <= 45
    ensures 33 <= b + 32 <= 77 && (b + 32) as int == b as int + 32
  {
  }

  /** uudecode inverts uuencode on every byte string, with or without a terminator line and what follows it. */
  lemma {:induction false} UuRoundTrip(s: seq<byte>, tail: seq<byte>)
    requires IsTail(tail)
    ensures UuDecoded(UuEncoded(s) + tail) == s
    decreases |s|
  {
    hide EncodeLine, UuEncoded, DecodeLines, Split;
    if s == [] {
      NoLines(s);
      TailDecodesToNothing(tail);
      assert UuEncoded(s) + tail == tail;
    } else {
      var k := Min(LINE, |s|);
      var line := EncodeLine(s[..k]);
      var rest := UuEncoded(s[k..]) + tail;
      LineRoundTrip(s[..k], Split(rest));
      SplitLine(line, rest);
      EncodedCons(s, tail);
      UuRoundTrip(s[k..], tail);
      assert s == s[..k] + s[k..];
    }
  }

  lemma EncodedCons(s: seq<byte>, tail: seq<byte>)
    requires s != []
    ensures var k := Min(LINE, |s|);
      UuEncoded(s) + tail == EncodeLine(s[..k]) + [LF] + (UuEncoded(s[k..]) + tail)
  {
    hide EncodeLine;
    var k := Min(LINE, |s|);
    assert UuEncoded(s) == (EncodeLine(s[..k]) + [LF]) + UuEncoded(s[k..]);
    hide UuEncoded;
    Cat(EncodeLine(s[..k]) + [LF], UuEncoded(s[k..]), tail);
  }

  lemma TailDecodesToNothing(tail: seq<byte>)
    requires IsTail(tail)
    ensures UuDecoded(tail) == []
  {
    var lines := Split(tail);
    if tail == [] {
      assert lines == [[]];
      assert DecodeLines(lines[1..]) == [];
    } else {
      assert lines[0] != [] && lines[0][0] == BACKTICK;
      TrimKeepsFirst(lines[0]);
    }
  }

  lemma {:induction false} TrimKeepsFirst(line: seq<byte>)
    requires line != [] && line[0] != CR
    ensures WithoutTrailingCr(line) != [] && WithoutTrailingCr(line)[0] == line[0]
    decreases |line|
  {
    if line[|line| - 1] == CR {
      TrimKeepsFirst(line[..|line| - 1]);
    }
  }
}
