/**
 What the two line codecs write and accept, byte by byte: the layout of uuencoded lines, and
 the forms of quoted-printable text.
 */
module CodecForms {
  import opened Basics
  import opened Bytes
  import opened UuCodec
  import opened QuotedPrintable

  // ----- uuencoded lines

  /** One line for up to 45 bytes: their number, the groups, a line feed. Longer texts are cut after every 45 bytes. */
  lemma UuLayout(s: seq<byte>)
    ensures 0 < |s| <= 45 ==> UuEncoded(s) == [(|s| as bv8) + 32] + EncodeGroups(s) + [10]
    ensures |s| > 45 ==> UuEncoded(s) == [77] + EncodeGroups(s[..45]) + [10] + UuEncoded(s[45..])
    ensures UuEncoded([]) == []
  {
    hide EncodeGroups, EncodeLine;
    if 0 < |s| <= 45 {
      ShortText(s);
    } else if |s| > 45 {
      FullLine(s[..45]);
    }
  }

  lemma ShortText(s: seq<byte>)
    requires 0 < |s| <= 45
    ensures UuEncoded(s) == [(|s| as bv8) + 32] + EncodeGroups(s) + [10]
  {
    hide EncodeGroups;
    assert s[..|s|] == s && s[|s|..] == [];
    UuCodec.NoLines(s[|s|..]);
    assert UuEncoded(s) == EncodeLine(s) + [10] + [];
  }

  lemma FullLine(t: seq<byte>)
    requires |t| == 45
    ensures EncodeLine(t) == [77] + EncodeGroups(t)
  {
    hide EncodeGroups;
    assert LengthChar(45) == 77;
  }

  /** Three bytes as four characters; a group of one or two bytes is filled up with backticks. */
  lemma UuGroups(a: byte, b: byte, c: byte, rest: seq<byte>)
    ensures EncodeGroups([a, b, c] + rest) ==
      [(a >> 2) + 32, (((a & 3) << 4) | (b >> 4)) + 32, (((b & 15) << 2) | (c >> 6)) + 32, (c & 63) + 32] + EncodeGroups(rest)
    ensures EncodeGroups([a, b]) == [(a >> 2) + 32, (((a & 3) << 4) | (b >> 4)) + 32, ((b & 15) << 2) + 32, 96]
    ensures EncodeGroups([a]) == [(a >> 2) + 32, ((a & 3) << 4) + 32, 96, 96]
  {
    hide EncodeGroups, Group;
    var s := [a, b, c] + rest;
    assert s[..3] == [a, b, c] && s[3..] == rest;
    assert [a, b][..2] == [a, b] && [a, b][2..] == [] && [a][..1] == [a] && [a][1..] == [];
    GroupStep(s);
    GroupStep([a, b]);
    GroupStep([a]);
    NoGroups([]);
    GroupIs(a, b, c);
    GroupOfTwo(a, b);
    GroupOfOne(a);
  }

  lemma GroupStep(s: seq<byte>)
    requires s != []
    ensures EncodeGroups(s) == Group(s[..Min(3, |s|)]) + EncodeGroups(s[Min(3, |s|)..])
  {
    hide Group;
  }

  lemma GroupIs(a: byte, b: byte, c: byte)
    ensures Group([a, b, c]) ==
      [(a >> 2) + 32, (((a & 3) << 4) | (b >> 4)) + 32, (((b & 15) << 2) | (c >> 6)) + 32, (c & 63) + 32]
  {
  }

  lemma GroupOfTwo(a: byte, b: byte)
    ensures Group([a, b]) == [(a >> 2) + 32, (((a & 3) << 4) | (b >> 4)) + 32, ((b & 15) << 2) + 32, 96]
  {
    assert ((b & 15) << 2) | (0 >> 6) == (b & 15) << 2;
  }

  lemma GroupOfOne(a: byte)
    ensures Group([a]) == [(a >> 2) + 32, ((a & 3) << 4) + 32, 96, 96]
  {
    assert ((a & 3) << 4) | (0 >> 4) == (a & 3) << 4;
  }

  /** uudecode reads a blank like a backtick, passes over empty lines and over lines whose first byte is no length, and stops at a backtick. */
  lemma UuLenient(c: byte, junk: seq<byte>, rest: seq<byte>)
    requires LF !in junk && CR !in junk && c != 10 && c != 13
    ensures UuDecoded([10] + rest) == UuDecoded(rest) && UuDecoded([13, 10] + rest) == UuDecoded(rest)
    ensures c < 32 || c > 126 ==> UuDecoded([c] + junk + [10] + rest) == UuDecoded(rest)
    ensures UuDecoded([96] + junk + [10] + rest) == []
    ensures UuDecoded([33, 48, 48, 32, 32, 10] + rest) == [65] + UuDecoded(rest) == UuDecoded([33, 48, 48, 96, 96, 13, 10] + rest)
  {
    hide Ungroup, DecodeGroups, WithoutTrailingCr, UuDecoded;
    TrimEnd([], [13]);
    TrimEnd([c] + junk, []);
    TrimEnd([96] + junk, []);
    assert [c] + junk + [] == [c] + junk && [96] + junk + [] == [96] + junk;
    Untrimmed();
    OneLine([], [], rest);
    OneLine([13], [], rest);
    OneLine([c] + junk, [c] + junk, rest);
    OneLine([96] + junk, [96] + junk, rest);
    assert [] + [10] + rest == [10] + rest && [13] + [10] + rest == [13, 10] + rest;
    FillBytes(rest);
  }

  lemma Untrimmed()
    ensures WithoutTrailingCr([]) == [] && WithoutTrailingCr([13]) == []
  {
    assert [13 as byte][..0] == [];
  }

  lemma FillBytes(rest: seq<byte>)
    ensures UuDecoded([33, 48, 48, 32, 32, 10] + rest) == [65] + UuDecoded(rest)
    ensures UuDecoded([33, 48, 48, 96, 96, 13, 10] + rest) == [65] + UuDecoded(rest)
  {
    hide Ungroup, DecodeGroups, WithoutTrailingCr, UuDecoded;
    var blanks, ticks := [33, 48, 48, 32, 32], [33, 48, 48, 96, 96];
    TrimEnd(blanks, []);
    TrimEnd(ticks, [13]);
    assert blanks + [] == blanks;
    OneLine(blanks, blanks, rest);
    OneLine(ticks + [13], ticks, rest);
    assert blanks + [10] + rest == [33, 48, 48, 32, 32, 10] + rest;
    assert ticks + [13] + [10] + rest == [33, 48, 48, 96, 96, 13, 10] + rest;
    LetterA();
    assert blanks[0] as int - 32 == 1;
  }

  /** One full line, t without carriage returns at its end, in front of a text. */
  lemma OneLine(line: seq<byte>, t: seq<byte>, rest: seq<byte>)
    requires LF !in line && WithoutTrailingCr(line) == t
    ensures UuDecoded(line + [10] + rest) ==
      if t == [] then UuDecoded(rest)
      else if t[0] == 96 then []
      else if t[0] < 32 || t[0] > 126 then UuDecoded(rest)
      else DecodeGroups(t[1..], t[0] as int - 32) + UuDecoded(rest)
  {
    hide Split, DecodeGroups, WithoutTrailingCr;
    SplitLine(line, rest);
    assert ([line] + Split(rest))[1..] == Split(rest);
  }

  lemma TrimEnd(line: seq<byte>, end: seq<byte>)
    requires end == [] || end == [13]
    requires line == [] || line[|line| - 1] != 13
    ensures WithoutTrailingCr(line + end) == line
  {
    assert (line + end)[..|line|] == line;
  }

  lemma LetterA()
    ensures DecodeGroups([48, 48, 32, 32], 1) == [65] == DecodeGroups([48, 48, 96, 96], 1)
    ensures [33, 48, 48, 32, 32][1..] == [48, 48, 32, 32] && [33, 48, 48, 96, 96][1..] == [48, 48, 96, 96]
  {
    assert Six(48) == 16 && JoinFirst(16, 16) == 65;
    assert DecodeGroups([48, 48, 32, 32][4..], -2) == [] && DecodeGroups([48, 48, 96, 96][4..], -2) == [];
    assert Ungroup([48, 48, 32, 32])[..1] == [65] && Ungroup([48, 48, 96, 96])[..1] == [65];
  }

  /** A line with a blank for every backtick. */
  function Blanked(s: seq<byte>): (r: seq<byte>)
    ensures |r| == |s|
  {
    seq(|s|, i requires 0 <= i < |s| => if s[i] == 96 then 32 else s[i])
  }

  /** In the groups, too, a backtick is read like a blank, wherever it stands. */
  lemma {:induction false} UuBackticks(body: seq<byte>, left: int)
    ensures DecodeGroups(body, left) == DecodeGroups(Blanked(body), left)
    decreases |body|
  {
    hide Ungroup;
    if |body| >= 4 && left > 0 {
      SameGroup(body, Blanked(body));
      assert Blanked(body)[4..] == Blanked(body[4..]);
      UuBackticks(body[4..], left - 3);
    }
  }

  lemma SameGroup(q: seq<byte>, r: seq<byte>)
    requires |q| == |r| >= 4 && forall i :: 0 <= i < 4 ==> r[i] == if q[i] == 96 then 32 else q[i]
    ensures Ungroup(q) == Ungroup(r)
  {
    assert forall c: byte :: Six(c) == Six(if c == 96 then 32 else c);
  }

  // ----- quoted-printable text

  /** The hexadecimal digits in value order: 0-9 and A-F, and with a-f. */
  const UPPER: seq<byte> := [48, 49, 50, 51, 52, 53, 54, 55, 56, 57, 65, 66, 67, 68, 69, 70]
  const LOWER: seq<byte> := [48, 49, 50, 51, 52, 53, 54, 55, 56, 57, 97, 98, 99, 100, 101, 102]

  function High(c: byte): (h: nat)
    ensures h < 16
  {
    (c >> 4) as int
  }

  function Low(c: byte): (l: nat)
    ensures l < 16
  {
    (c & 15) as int
  }

  lemma Digits(n: byte)
    requires n < 16
    ensures HexDigit(n) == UPPER[n as int] && HexNibble(UPPER[n as int]) == n == HexNibble(LOWER[n as int])
  {
  }

  lemma NoDigit(c: byte)
    requires c !in UPPER && c !in LOWER
    ensures HexNibble(c) >= 16
  {
    assert UPPER[0] == 48 && UPPER[1] == 49 && UPPER[2] == 50 && UPPER[3] == 51 && UPPER[4] == 52 && UPPER[5] == 53;
    assert UPPER[6] == 54 && UPPER[7] == 55 && UPPER[8] == 56 && UPPER[9] == 57 && UPPER[10] == 65 && UPPER[11] == 66;
    assert UPPER[12] == 67 && UPPER[13] == 68 && UPPER[14] == 69 && UPPER[15] == 70;
    assert LOWER[10] == 97 && LOWER[11] == 98 && LOWER[12] == 99 && LOWER[13] == 100 && LOWER[14] == 101 && LOWER[15] == 102;
  }

  /** `=` and two hexadecimal digits of either case stand for a byte. */
  lemma QpEscapes(c: byte, x: byte, y: byte, t: seq<byte>)
    requires x in {UPPER[High(c)], LOWER[High(c)]} && y in {UPPER[Low(c)], LOWER[Low(c)]}
    ensures Decoded([61, x, y] + t) == [c] + Decoded(t)
  {
    hide HexNibble, FromHex, Decoded;
    Digits(c >> 4);
    Digits(c & 15);
    Joined(c);
    NotBreak(c, x);
    PairStep(x, y, t);
  }

  lemma Joined(c: byte)
    ensures FromHex(c >> 4, c & 15) == c
  {
  }

  lemma PairStep(x: byte, y: byte, t: seq<byte>)
    requires HexNibble(x) < 16 && HexNibble(y) < 16 && x != 10 && x != 13
    ensures Decoded([61, x, y] + t) == [FromHex(HexNibble(x), HexNibble(y))] + Decoded(t)
  {
    hide HexNibble, FromHex;
    assert ([61, x, y] + t)[3..] == t;
  }

  lemma NotBreak(c: byte, x: byte)
    requires x in {UPPER[High(c)], LOWER[High(c)]}
    ensures x != 10 && x != 13
  {
    Digits(c >> 4);
    assert HexNibble(10) == 16 && HexNibble(13) == 16;
  }

  /** A soft line break vanishes, with either line end; a carriage return elsewhere, too. Other bytes stand for themselves. */
  lemma QpBreaks(c: byte, t: seq<byte>)
    ensures Decoded([61, 10] + t) == Decoded(t) && Decoded([61, 13, 10] + t) == Decoded(t) && Decoded([13] + t) == Decoded(t)
    ensures c != 61 && c != 13 ==> Decoded([c] + t) == [c] + Decoded(t)
  {
    assert ([61, 10] + t)[2..] == t && ([61, 13, 10] + t)[3..] == t && ([13] + t)[1..] == t && ([c] + t)[1..] == t;
  }

  /** `=` without two digits or a line break after it is kept as it is. */
  lemma QpBroken(x: byte, y: byte, t: seq<byte>)
    requires x != 10 && !(x == 13 && y == 10) && ((x !in UPPER && x !in LOWER) || (y !in UPPER && y !in LOWER))
    ensures Decoded([61, x, y] + t) == [61] + Decoded([x, y] + t)
    ensures Decoded([61]) == [61] && Decoded([61, x]) == [61] + Decoded([x])
  {
    if x !in UPPER && x !in LOWER {
      NoDigit(x);
    } else {
      NoDigit(y);
    }
    hide HexNibble, FromHex;
    assert ([61, x, y] + t)[1..] == [x, y] + t && [61, x][1..] == [x] && [61 as byte][1..] == [];
    assert Decoded([]) == [];
  }

  /** Visible characters other than `=`. */
  predicate Bare(c: byte) {
    '!' as bv8 <= c <= '~' as bv8 && c != '=' as bv8
  }

  /** Lines of 75 characters, joined by soft breaks. */
  function Broken(s: seq<byte>): seq<byte> {
    if |s| <= 75 then s else s[..75] + [61, 10] + Broken(s[75..])
  }

  /** Visible text is written as it is, with a soft break after every 75 characters. */
  lemma {:induction false} QpBare(s: seq<byte>)
    requires forall i :: 0 <= i < |s| ==> Bare(s[i])
    ensures Encoded(s, 0) == Broken(s)
    decreases |s|
  {
    hide Encoded, Bare;
    if |s| <= 75 {
      BareRun(s, 0, |s|);
      assert s[..|s|] == s && s[|s|..] == [];
      NothingEncoded(s[|s|..], |s|);
    } else {
      BareRun(s, 0, 75);
      QpBare(s[75..]);
      assert s[75..] != [];
      SoftBreak(s[75..]);
    }
  }

  lemma {:induction false} BareRun(s: seq<byte>, col: nat, k: nat)
    requires k <= |s| && col + k <= 75 && forall i :: 0 <= i < |s| ==> Bare(s[i])
    ensures Encoded(s, col) == s[..k] + Encoded(s[k..], col + k)
    decreases k
  {
    hide Encoded, Bare;
    if k == 0 {
      assert s[..0] == [] && s[0..] == s;
    } else {
      BareStep(s, col);
      BareRun(s[1..], col + 1, k - 1);
      assert s[1..][k - 1..] == s[k..] && [s[0]] + s[1..][..k - 1] == s[..k];
    }
  }

  lemma BareStep(s: seq<byte>, col: nat)
    requires s != [] && Bare(s[0])
    ensures Encoded(s, col) == if col + 1 > 75 then [61, 10] + ([s[0]] + Encoded(s[1..], 1)) else [s[0]] + Encoded(s[1..], col + 1)
  {
    assert Piece(s[0], EndsLine(s)) == [s[0]];
  }

  lemma SoftBreak(s: seq<byte>)
    requires s != [] && Bare(s[0])
    ensures Encoded(s, 75) == [61, 10] + Encoded(s, 0)
  {
    BareStep(s, 75);
    BareStep(s, 0);
  }

  function Escape(c: byte): seq<byte> {
    [61, UPPER[High(c)], UPPER[Low(c)]]
  }

  /** Every other byte is escaped in upper case, but for line ends, and for blanks that something follows on their line. */
  lemma QpEscaped(c: byte, t: seq<byte>)
    requires !Bare(c) && c != 10 && c != 13
    ensures
      var kept := (c == 32 || c == 9) && t != [] && t[0] != 10 && t[0] != 13;
      Encoded([c] + t, 0) == (if kept then [c] else Escape(c)) + Encoded(t, if kept then 1 else 3)
    ensures Encoded([10] + t, 0) == [10] + Encoded(t, 0) && Encoded([13] + t, 0) == Encoded(t, 0)
  {
    hide Encoded, Piece, Escape, HexPair, EndsLine;
    EscapedPiece(c, [c] + t);
    FirstPiece(c, t);
    LineEnds(t);
  }

  lemma FirstPiece(c: byte, t: seq<byte>)
    requires c != 10 && c != 13
    ensures
      var p := Piece(c, EndsLine([c] + t));
      Encoded([c] + t, 0) == p + Encoded(t, |p|)
  {
    hide Piece;
    assert ([c] + t)[1..] == t;
  }

  lemma LineEnds(t: seq<byte>)
    ensures Encoded([10] + t, 0) == [10] + Encoded(t, 0) && Encoded([13] + t, 0) == Encoded(t, 0)
  {
    assert ([10] + t)[1..] == t && ([13] + t)[1..] == t;
  }

  lemma EscapedPiece(c: byte, s: seq<byte>)
    requires s != [] && s[0] == c && !Bare(c) && c != 10 && c != 13
    ensures Piece(c, EndsLine(s)) == if (c == 32 || c == 9) && |s| > 1 && s[1] != 10 && s[1] != 13 then [c] else Escape(c)
    ensures |Escape(c)| == 3
  {
    hide HexPair, Escape, EndsLine;
    EscapeIs(c);
    EndsWhen(s);
  }

  lemma EndsWhen(s: seq<byte>)
    requires s != []
    ensures EndsLine(s) == (|s| == 1 || s[1] == 10 || s[1] == 13)
  {
  }

  lemma EscapeIs(c: byte)
    ensures HexPair(c) == Escape(c) && |Escape(c)| == 3
  {
    hide HexDigit;
    Digits(c >> 4);
    Digits(c & 15);
  }
}
