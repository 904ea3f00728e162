/** Bytes as eight-bit vectors, and the library's line splitting. */
module Bytes {
  type byte = bv8

  const TAB: byte := 9
  const LF: byte := 10
  const CR: byte := 13
  const SPACE: byte := 32
  const EQUALS: byte := 61
  const BACKTICK: byte := 96

  /** strings.Split(s, "\n"): always at least one piece. */
  function Split(s: seq<byte>): (lines: seq<seq<byte>>)
    ensures |lines| > 0
    ensures forall l :: l in lines ==> LF !in l
  {
    if s == [] then [[]]
    else
      var rest := Split(s[1..]);
      if s[0] == LF then [[]] + rest else [[s[0]] + rest[0]] + rest[1..]
  }

  /** A text that starts with one full line splits into that line and the pieces of the rest. */
  lemma {:induction false} SplitLine(line: seq<byte>, rest: seq<byte>)
    requires LF !in line
    ensures Split(line + [LF] + rest) == [line] + Split(rest)
  {
    var s := line + [LF] + rest;
    if line == [] {
      assert s[1..] == rest;
    } else {
      SplitLine(line[1..], rest);
      assert s[1..] == line[1..] + [LF] + rest;
      assert [line[0]] + line[1..] == line;
    }
  }

  /** strings.TrimRight(line, "\r") */
  function WithoutTrailingCr(line: seq<byte>): seq<byte> {
    if line != [] && line[|line| - 1] == CR then WithoutTrailingCr(line[..|line| - 1]) else line
  }
}
