/**
 Quoted-printable text: the encoder with soft line breaks and the decoder. Line feeds pass
 through as they are and carriage returns are dropped.
 */
module QuotedPrintable {
  import opened Basics
  import opened Bytes

  const LIMIT := 75

  // ----- hexadecimal digits

  function HexDigit(n: byte): byte
    requires n < 16
  {
    if n < 10 then 48 + n else 55 + n
  }

  /** hexNibble: both cases are accepted; 16 stands for "no digit". */
  function HexNibble(c: byte): byte {
    if 48 <= c <= 57 then c - 48
    else if 97 <= c <= 102 then c - 97 + 10
    else if 65 <= c <= 70 then c - 65 + 10
    else 16
  }

  function HexPair(c: byte): seq<byte> {
    [EQUALS, HexDigit(c >> 4), HexDigit(c & 15)]
  }

  function FromHex(hi: byte, lo: byte): byte {
    (hi << 4) | lo
  }

  lemma HexRoundTrip(c: byte)
    ensures HexNibble(HexDigit(c >> 4)) < 16 && HexNibble(HexDigit(c & 15)) < 16
    ensures FromHex(HexNibble(HexDigit(c >> 4)), HexNibble(HexDigit(c & 15))) == c
    ensures 48 <= HexDigit(c >> 4) <= 70 && 48 <= HexDigit(c & 15) <= 70
  {
  }

  // ----- the encoder

  /** How a byte other than CR and LF is written; a blank at the end of a line is escaped. */
  function Piece(c: byte, lineEnds: bool): (p: seq<byte>)
    ensures 1 <= |p| <= 3
  {
    if c == EQUALS then HexPair(c)
    else if c == SPACE || c == TAB then (if lineEnds then HexPair(c) else [c])
    else if 33 <= c <= 126 then [c]
    else HexPair(c)
  }

  /** Whether nothing more stands on the line after s[0]. */
  predicate EndsLine(s: seq<byte>)
    requires s != []
  {
    |s| == 1 || s[1] == LF || s[1] == CR
  }

  /** The text for s when the current line already holds col characters. */
  function Encoded(s: seq<byte>, col: nat): seq<byte>
    decreases |s|
  {
    if s == [] then []
    else if s[0] == LF then [LF] + Encoded(s[1..], 0)
    else if s[0] == CR then Encoded(s[1..], col)
    else
      var p := Piece(s[0], EndsLine(s));
      if col + |p| > LIMIT then [EQUALS, LF] + (p + Encoded(s[1..], |p|)) else p + Encoded(s[1..], col + |p|)
  }

  /** phpQPEncode */
  method QpEncode(data: seq<byte>) returns (b: seq<byte>)
    ensures b == Encoded(data, 0)
  {
    hide Encoded, Piece, HexDigit, HexPair;
    b := [];
    var col := 0;
    var i := 0;
    assert data[0..] == data;
    while i < |data|
      invariant 0 <= i <= |data| && 0 <= col
      invariant b + Encoded(data[i..], col) == Encoded(data, 0)
    {
      var c := data[i];
      EncodedStep(data, i, col);
      ghost var rest := data[i + 1..];
      i := i + 1;
      var enc;
      if c == EQUALS {
        enc := HexPair(c);
      } else if c == SPACE || c == TAB {
        if i >= |data| || data[i] == LF || data[i] == CR {
          enc := HexPair(c);
        } else {
          enc := [c];
        }
      } else if c == LF {
        Cat(b, [LF], Encoded(rest, 0));
        b := b + [LF];
        col := 0;
        continue;
      } else if c == CR {
        continue;
      } else if c >= 33 && c <= 126 {
        enc := [c];
      } else {
        enc := HexPair(c);
      }
      PieceCases(data[i - 1..]);
      if col + |enc| > 75 {
        Cat(b, [EQUALS, LF], enc + Encoded(rest, |enc|));
        b := b + [EQUALS, LF];
        col := 0;
      }
      Cat(b, enc, Encoded(rest, col + |enc|));
      b := b + enc;
      col := col + |enc|;
    }
    NothingEncoded(data[i..], col);
  }

  lemma NothingEncoded(s: seq<byte>, col: nat)
    requires s == []
    ensures Encoded(s, col) == []
  {
  }

  lemma PieceCases(s: seq<byte>)
    requires s != []
    ensures Piece(s[0], EndsLine(s))
         == if s[0] == EQUALS then HexPair(s[0])
            else if s[0] == SPACE || s[0] == TAB then (if EndsLine(s) then HexPair(s[0]) else [s[0]])
            else if 33 <= s[0] <= 126 then [s[0]] else HexPair(s[0])
  {
  }

  lemma EncodedStep(data: seq<byte>, i: nat, col: nat)
    requires i < |data|
    ensures
      var s, rest := data[i..], data[i + 1..];
      var p := Piece(s[0], EndsLine(s));
      Encoded(s, col) ==
        if s[0] == LF then [LF] + Encoded(rest, 0)
        else if s[0] == CR then Encoded(rest, col)
        else if col + |p| > LIMIT then [EQUALS, LF] + (p + Encoded(rest, |p|)) else p + Encoded(rest, col + |p|)
  {
  }

  // ----- the decoder

  function Decoded(s: seq<byte>): seq<byte>
    decreases |s|
  {
    if s == [] then []
    else if s[0] == EQUALS then
      if |s| > 1 && s[1] == LF then Decoded(s[2..])
      else if |s| > 2 && s[1] == CR && s[2] == LF then Decoded(s[3..])
      else if |s| > 2 && HexNibble(s[1]) < 16 && HexNibble(s[2]) < 16 then
        [FromHex(HexNibble(s[1]), HexNibble(s[2]))] + Decoded(s[3..])
      else [EQUALS] + Decoded(s[1..])
    else if s[0] == CR then Decoded(s[1..])
    else [s[0]] + Decoded(s[1..])
  }

  /** phpQPDecode */
  method QpDecode(data: seq<byte>) returns (b: seq<byte>)
    ensures b == Decoded(data)
  {
    hide Decoded, HexNibble, FromHex;
    b := [];
    var i := 0;
    assert data[0..] == data;
    while i < |data|
      invariant 0 <= i <= |data|
      invariant b + Decoded(data[i..]) == Decoded(data)
    {
      var c := data[i];
      DecodedStep(data, i);
      if c == EQUALS {
        if i + 1 < |data| && data[i + 1] == LF {
          i := i + 2;
          continue;
        }
        if i + 2 < |data| && data[i + 1] == CR && data[i + 2] == LF {
          i := i + 3;
          continue;
        }
        if i + 2 < |data| {
          var hi, lo := HexNibble(data[i + 1]), HexNibble(data[i + 2]);
          if hi < 16 && lo < 16 {
            Cat(b, [FromHex(hi, lo)], Decoded(data[i + 3..]));
            b := b + [FromHex(hi, lo)];
            i := i + 3;
            continue;
          }
        }
        Cat(b, [EQUALS], Decoded(data[i + 1..]));
        b := b + [EQUALS];
      } else if c == CR {
      } else {
        Cat(b, [c], Decoded(data[i + 1..]));
        b := b + [c];
      }
      i := i + 1;
    }
    NothingDecoded(data[i..]);
  }

  lemma NothingDecoded(s: seq<byte>)
    requires s == []
    ensures Decoded(s) == []
  {
  }

  lemma DecodedStep(s: seq<byte>, i: nat)
    requires i < |s|
    ensures Decoded(s[i..]) ==
      if s[i] == EQUALS then
        if i + 1 < |s| && s[i + 1] == LF then Decoded(s[i + 2..])
        else if i + 2 < |s| && s[i + 1] == CR && s[i + 2] == LF then Decoded(s[i + 3..])
        else if i + 2 < |s| && HexNibble(s[i + 1]) < 16 && HexNibble(s[i + 2]) < 16 then
          [FromHex(HexNibble(s[i + 1]), HexNibble(s[i + 2]))] + Decoded(s[i + 3..])
        else [EQUALS] + Decoded(s[i + 1..])
      else if s[i] == CR then Decoded(s[i + 1..])
      else [s[i]] + Decoded(s[i + 1..])
  {
  }

  // ----- decode after encode

  function WithoutCr(s: seq<byte>): seq<byte> {
    if s == [] then [] else if s[0] == CR then WithoutCr(s[1..]) else [s[0]] + WithoutCr(s[1..])
  }

  lemma DecodePlain(c: byte, rest: seq<byte>)
    requires c != EQUALS && c != CR
    ensures Decoded([c] + rest) == [c] + Decoded(rest)
  {
  }

  lemma DecodeSoftBreak(rest: seq<byte>)
    ensures Decoded([EQUALS, LF] + rest) == Decoded(rest)
  {
  }

  lemma DecodePiece(c: byte, lineEnds: bool, rest: seq<byte>)
    requires c != LF && c != CR
    ensures Decoded(Piece(c, lineEnds) + rest) == [c] + Decoded(rest)
  {
  }

  lemma {:induction false} DecodeEncoded(s: seq<byte>, col: nat)
    ensures Decoded(Encoded(s, col)) == WithoutCr(s)
    decreases |s|
  {
    hide Decoded, Piece;
    if s == [] {
      NothingDecoded([]);
    } else if s[0] == LF {
      DecodeEncoded(s[1..], 0);
      DecodePlain(LF, Encoded(s[1..], 0));
    } else if s[0] == CR {
      DecodeEncoded(s[1..], col);
    } else {
      var p := Piece(s[0], EndsLine(s));
      var broken := col + |p| > LIMIT;
      var rest := Encoded(s[1..], if broken then |p| else col + |p|);
      DecodeEncoded(s[1..], if broken then |p| else col + |p|);
      DecodePiece(s[0], EndsLine(s), rest);
      DecodeSoftBreak(p + rest);
    }
  }

  lemma {:induction false} WithoutCrIdentity(s: seq<byte>)
    ensures WithoutCr(s) == s <==> CR !in s
    ensures |WithoutCr(s)| <= |s|
  {
    if s != [] {
      WithoutCrIdentity(s[1..]);
      assert s == [s[0]] + s[1..];
    }
  }

  /** Decoding what was encoded gives the text without its carriage returns, so exactly CR-free texts survive. */
  lemma QpRoundTrip(s: seq<byte>)
    ensures Decoded(Encoded(s, 0)) == WithoutCr(s)
    ensures Decoded(Encoded(s, 0)) == s <==> CR !in s
  {
    DecodeEncoded(s, 0);
    WithoutCrIdentity(s);
  }

  // ----- the shape of the encoded text

  predicate IsBlank(c: byte) {
    c == SPACE || c == TAB
  }

  /** The first of these lines may hold first characters, the others limit. */
  predicate Fit(lines: seq<seq<byte>>, first: int, limit: int)
    requires lines != []
  {
    |lines[0]| <= first && forall k :: 0 < k < |lines| ==> |lines[k]| <= limit
  }

  /** No line ends in a blank; the first line may be empty. */
  predicate NoTrailingBlank(lines: seq<seq<byte>>) {
    forall k :: 0 <= k < |lines| && lines[k] != [] ==> !IsBlank(lines[k][|lines[k]| - 1])
  }

  predicate SafeBytes(t: seq<byte>) {
    forall k :: 0 <= k < |t| ==> 33 <= t[k] <= 126 || IsBlank(t[k]) || t[k] == LF
  }

  lemma {:induction false} SplitPiece(p: seq<byte>, t: seq<byte>)
    requires LF !in p
    ensures Split(p + t) == [p + Split(t)[0]] + Split(t)[1..]
  {
    if p == [] {
      assert p + t == t && p + Split(t)[0] == Split(t)[0];
      assert Split(t) == [Split(t)[0]] + Split(t)[1..];
    } else {
      SplitPiece(p[1..], t);
      assert (p + t)[1..] == p[1..] + t;
      assert [p[0]] + (p[1..] + Split(t)[0]) == p + Split(t)[0];
    }
  }

  lemma PieceSafe(c: byte, lineEnds: bool)
    requires c != LF && c != CR
    ensures SafeBytes(Piece(c, lineEnds)) && LF !in Piece(c, lineEnds)
    ensures var p := Piece(c, lineEnds); IsBlank(p[|p| - 1]) ==> !lineEnds
  {
  }

  /** A line that does not end here has a next byte, and something is written for it. */
  lemma SomethingWritten(s: seq<byte>, col: nat)
    requires s != [] && !EndsLine(s)
    ensures Split(Encoded(s[1..], col))[0] != []
  {
  }

  /** The text t, written after col characters, keeps the rules for encoded lines. */
  predicate Shaped(t: seq<byte>, col: nat) {
    Fit(Split(t), 76 - col, 76) && NoTrailingBlank(Split(t)) && SafeBytes(t)
  }

  lemma {:induction false} EncodedShape(s: seq<byte>, col: nat)
    requires col <= LIMIT
    ensures Shaped(Encoded(s, col), col)
    decreases |s|
  {
    hide Piece, Split, Shaped, EndsLine, SafeBytes;
    if s == [] {
      NoLines(col);
    } else if s[0] == LF {
      EncodedShape(s[1..], 0);
      ShapedBreak([], Encoded(s[1..], 0), col);
      assert [] + [LF] + Encoded(s[1..], 0) == [LF] + Encoded(s[1..], 0);
    } else if s[0] == CR {
      EncodedShape(s[1..], col);
    } else {
      var p := Piece(s[0], EndsLine(s));
      var broken := col + |p| > LIMIT;
      var used := if broken then |p| else col + |p|;
      var rest := Encoded(s[1..], used);
      EncodedShape(s[1..], used);
      PieceSafe(s[0], EndsLine(s));
      if !EndsLine(s) {
        SomethingWritten(s, used);
      }
      PieceShape(p, rest, used - |p|);
      if broken {
        ShapedBreak([EQUALS], p + rest, col);
        assert [EQUALS] + [LF] + (p + rest) == [EQUALS, LF] + (p + rest);
      }
    }
  }

  /** A line break, soft or hard, starts a fresh line. */
  lemma ShapedBreak(mark: seq<byte>, rest: seq<byte>, col: nat)
    requires col <= LIMIT && (mark == [] || mark == [EQUALS])
    requires Shaped(rest, 0)
    ensures Shaped(mark + [LF] + rest, col)
  {
  }

  lemma NoLines(col: nat)
    requires col <= LIMIT
    ensures Shaped([], col)
  {
  }

  /** One piece in front of a text of the right shape. */
  lemma PieceShape(p: seq<byte>, rest: seq<byte>, col: nat)
    requires p != [] && SafeBytes(p) && LF !in p && Shaped(rest, col + |p|)
    requires IsBlank(p[|p| - 1]) ==> Split(rest)[0] != []
    ensures Shaped(p + rest, col)
  {
    hide Split;
    SplitPiece(p, rest);
    var lines, more := Split(p + rest), Split(rest);
    assert forall k :: 0 < k < |lines| ==> lines[k] == more[k];
  }

  /** Section 6.7 of RFC 2045: no line over 76 characters, none ends in a blank, only printable bytes. */
  lemma QpLines(s: seq<byte>)
    ensures forall line :: line in Split(Encoded(s, 0)) ==> |line| <= 76 && (line != [] ==> !IsBlank(line[|line| - 1]))
    ensures SafeBytes(Encoded(s, 0))
  {
    hide Split, SafeBytes;
    EncodedShape(s, 0);
  }
}
