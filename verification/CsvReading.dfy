/**
 How the reader takes texts that the writer did not produce: Windows line ends, lines without
 quotes, and bytes around quotes and escapes that it reads leniently.
 */
module CsvReading {
  import opened Basics
  import opened CsvSpec
  import opened CsvRoundTrip

  // ----- Windows line ends

  /** The written records with "\r\n" in place of the "\n" that ends each of them. */
  function CrlfText(d: Dialect, records: seq<seq<string>>): string {
    if records == [] then "" else
      var t := FieldsText(d, records[0]);
      (if t == "" then "" else t[..|t| - 1]) + "\r\n" + CrlfText(d, records[1..])
  }

  lemma LineEnd(d: Dialect, b: string, rest: string, fields: seq<string>, started: bool)
    requires Proper(d)
    ensures Scan(d, "\n" + rest, b, fields, false, started) == Record(fields + [b], rest)
    ensures Scan(d, "\r\n" + rest, b, fields, false, started) == Record(fields + [b], rest)
  {
    assert ("\n" + rest)[1..] == rest;
    assert ("\r\n" + rest)[1..] == "\n" + rest;
    assert Scan(d, "\n" + rest, b, fields, false, true) == Record(fields + [b], rest);
  }

  /** A field that its line end follows, with or without the carriage return. */
  lemma {:induction false} PlainLast(d: Dialect, f: string, i: nat, rest: string, fields: seq<string>, started: bool)
    requires Proper(d) && i <= |f| && forall j :: 0 <= j < |f| ==> !Special(d, f[j])
    ensures Scan(d, f[i..] + ("\r\n" + rest), f[..i], fields, false, started) == Record(fields + [f], rest)
    decreases |f| - i
  {
    var tail := "\r\n" + rest;
    var s := f[i..] + tail;
    if i == |f| {
      assert s == tail && f[..i] == f;
      LineEnd(d, f, rest, fields, started);
    } else {
      assert s[0] == f[i] && s[1..] == f[i + 1..] + tail && f[..i] + [f[i]] == f[..i + 1];
      PlainLast(d, f, i + 1, rest, fields, true);
    }
  }

  lemma {:induction false} QuotedLast(d: Dialect, f: string, i: nat, rest: string, fields: seq<string>)
    requires Proper(d) && i <= |f| && EscapeSafe(d, f)
    ensures Scan(d, Doubled(d, f[i..]) + ([d.encl] + ("\r\n" + rest)), f[..i], fields, true, true) == Record(fields + [f], rest)
    decreases |f| - i
  {
    hide Doubled;
    var tail := [d.encl] + ("\r\n" + rest);
    if i == |f| {
      assert Doubled(d, f[i..]) == "" by {
        NothingDoubled(d, f[i..]);
      }
      assert Doubled(d, f[i..]) + tail == tail && f[..i] == f;
      CloseCrlf(d, f, rest, fields);
    } else {
      hide Scan;
      QuotedStep(d, f, i, tail, fields);
      QuotedLast(d, f, if f[i] == d.esc then i + 2 else i + 1, rest, fields);
    }
  }

  lemma NothingDoubled(d: Dialect, f: string)
    requires f == ""
    ensures Doubled(d, f) == ""
  {
  }

  lemma CloseCrlf(d: Dialect, f: string, rest: string, fields: seq<string>)
    requires Proper(d)
    ensures Scan(d, [d.encl] + ("\r\n" + rest), f, fields, true, true) == Record(fields + [f], rest)
  {
    var s := [d.encl] + ("\r\n" + rest);
    assert s[1..][1..] == "\n" + rest;
    LineEnd(d, f, rest, fields, true);
  }

  lemma SafeLast(d: Dialect, f: string, rest: string, fields: seq<string>, started: bool)
    requires Proper(d) && EscapeSafe(d, f)
    ensures Scan(d, FieldText(d, f) + ("\r\n" + rest), "", fields, false, started) == Record(fields + [f], rest)
  {
    assert f[0..] == f && f[..0] == "";
    if NeedsQuotes(d, f) {
      EnterQuotes(d, f, "\r\n" + rest, fields, started);
      QuotedLast(d, f, 0, rest, fields);
    } else {
      PlainLast(d, f, 0, rest, fields, started);
    }
  }

  /** The text of one record without its line end. */
  function Line(d: Dialect, fields: seq<string>): string
    requires fields != []
  {
    if |fields| == 1 then FieldText(d, fields[0]) else FieldText(d, fields[0]) + ([d.delim] + Line(d, fields[1..]))
  }

  lemma {:induction false} LineIsText(d: Dialect, fields: seq<string>)
    requires fields != []
    ensures FieldsText(d, fields) == Line(d, fields) + "\n"
  {
    hide FieldText;
    if |fields| > 1 {
      LineIsText(d, fields[1..]);
      Cat([d.delim], Line(d, fields[1..]), "\n");
      Cat(FieldText(d, fields[0]), [d.delim] + Line(d, fields[1..]), "\n");
    }
  }

  lemma {:induction false} LineReads(d: Dialect, fields: seq<string>, rest: string, done: seq<string>, started: bool)
    requires Proper(d) && fields != [] && AllSafe(d, fields)
    ensures Scan(d, Line(d, fields) + ("\r\n" + rest), "", done, false, started) == Record(done + fields, rest)
    decreases |fields|
  {
    hide EscapeSafe, FieldText, Scan, Proper, AllSafe;
    var f, end := fields[0], "\r\n" + rest;
    SafeCons(d, fields);
    FieldsSplit(done, fields);
    if |fields| == 1 {
      SafeLast(d, f, rest, done, started);
      assert done + [f] == done + fields;
    } else {
      var tail := [d.delim] + (Line(d, fields[1..]) + end);
      Cat([d.delim], Line(d, fields[1..]), end);
      Cat(FieldText(d, f), [d.delim] + Line(d, fields[1..]), end);
      SafeField(d, f, tail, done, started);
      assert tail[1..] == Line(d, fields[1..]) + end;
      LineReads(d, fields[1..], rest, done + [f], true);
    }
  }

  /** Written records read back from a file with Windows line ends, too. */
  lemma {:induction false} CrlfReadsBack(d: Dialect, records: seq<seq<string>>)
    requires Proper(d) && forall i :: 0 <= i < |records| ==> records[i] != [] && AllSafe(d, records[i])
    ensures ReadsBack(d, CrlfText(d, records), records)
    decreases |records|
  {
    hide AllSafe, Scan, FieldsText, Line;
    if records == [] {
      ScanEmpty(d);
    } else {
      var rest := CrlfText(d, records[1..]);
      LineIsText(d, records[0]);
      assert CrlfText(d, records) == Line(d, records[0]) + "\r\n" + rest;
      Cat(Line(d, records[0]), "\r\n", rest);
      LineReads(d, records[0], rest, [], false);
      assert [] + records[0] == records[0];
      CrlfReadsBack(d, records[1..]);
    }
  }

  // ----- lines without quotes

  function WithoutCr(s: string): string {
    if s == "" then "" else (if s[0] == '\r' then "" else [s[0]]) + WithoutCr(s[1..])
  }

  function Split(s: string, c: char): (parts: seq<string>)
    ensures parts != []
  {
    if s == "" then [""]
    else
      var parts := Split(s[1..], c);
      if s[0] == c then [""] + parts else [[s[0]] + parts[0]] + parts[1..]
  }

  /** The parts with b in front of the first one. */
  function Prepended(b: string, parts: seq<string>): seq<string>
    requires parts != []
  {
    [b + parts[0]] + parts[1..]
  }

  predicate Unquoted(d: Dialect, s: string) {
    forall i :: 0 <= i < |s| ==> s[i] != d.encl && s[i] != d.esc && s[i] != '\n'
  }

  lemma {:induction false} UnquotedReads(d: Dialect, s: string, rest: string, b: string, fields: seq<string>, started: bool)
    requires Proper(d) && Unquoted(d, s)
    ensures Scan(d, s + ("\n" + rest), b, fields, false, started) == Record(fields + Prepended(b, Split(WithoutCr(s), d.delim)), rest)
    ensures s != "" || started ==>
      Scan(d, s, b, fields, false, started) == Record(fields + Prepended(b, Split(WithoutCr(s), d.delim)), "")
    decreases |s|
  {
    hide Split, WithoutCr;
    var end := "\n" + rest;
    SplitStep(d, s);
    if s == "" {
      assert s + end == end && b + "" == b;
      LineEnd(d, b, rest, fields, started);
    } else {
      var c, r := s[0], s[1..];
      assert (s + end)[0] == c && (s + end)[1..] == r + end;
      var parts := Split(WithoutCr(r), d.delim);
      if c == '\r' {
        UnquotedReads(d, r, rest, b, fields, true);
      } else if c == d.delim {
        UnquotedReads(d, r, rest, "", fields + [b], true);
        PrependNew(fields, b, parts);
      } else {
        UnquotedReads(d, r, rest, b + [c], fields, true);
        assert (b + [c]) + parts[0] == b + ([c] + parts[0]);
      }
    }
  }

  lemma SplitStep(d: Dialect, s: string)
    ensures s == "" ==> Split(WithoutCr(s), d.delim) == [""]
    ensures s != "" ==>
      var parts := Split(WithoutCr(s[1..]), d.delim);
      Split(WithoutCr(s), d.delim) ==
        if s[0] == '\r' then parts
        else if s[0] == d.delim then [""] + parts
        else [[s[0]] + parts[0]] + parts[1..]
  {
    if s != "" {
      var w := WithoutCr(s[1..]);
      assert WithoutCr(s) == if s[0] == '\r' then w else [s[0]] + w by {
        assert "" + w == w;
      }
      hide WithoutCr;
      if s[0] != '\r' {
        SplitCons(s[0], w, d.delim);
      }
    }
  }

  lemma SplitCons(x: char, s: string, c: char)
    ensures
      var parts := Split(s, c);
      Split([x] + s, c) == if x == c then [""] + parts else [[x] + parts[0]] + parts[1..]
  {
    assert ([x] + s)[1..] == s;
  }

  lemma PrependNew(fields: seq<string>, b: string, parts: seq<string>)
    requires parts != []
    ensures fields + [b] + Prepended("", parts) == fields + Prepended(b, [""] + parts)
  {
    assert "" + parts[0] == parts[0] && b + "" == b;
    assert Prepended("", parts) == parts;
    assert Prepended(b, [""] + parts) == [b] + parts;
  }

  /**
   A line without enclosure and escape bytes: its fields are what stands between delimiters,
   without any carriage return. At the end of a file the line end may be missing.
   */
  lemma UnquotedLine(d: Dialect, s: string, rest: string)
    requires Proper(d) && Unquoted(d, s)
    ensures ReadRecord(d, s + ("\n" + rest)) == Record(Split(WithoutCr(s), d.delim), rest)
    ensures ReadRecord(d, s) == if s == "" then AtEnd else Record(Split(WithoutCr(s), d.delim), "")
  {
    UnquotedReads(d, s, rest, "", [], false);
    var parts := Split(WithoutCr(s), d.delim);
    assert "" + parts[0] == parts[0];
    assert [] + Prepended("", parts) == parts;
  }

  // ----- around quotes and escapes

  /** Bytes that mean themselves inside and outside of quotes. */
  predicate Ordinary(d: Dialect, s: string) {
    forall i :: 0 <= i < |s| ==> s[i] !in {d.delim, d.encl, d.esc, '\n', '\r'}
  }

  lemma {:induction false} OrdinaryRun(d: Dialect, p: string, s: string, b: string, fields: seq<string>, inQuotes: bool)
    requires Proper(d) && Ordinary(d, p)
    ensures Scan(d, p + s, b, fields, inQuotes, true) == Scan(d, s, b + p, fields, inQuotes, true)
    decreases |p|
  {
    if p == "" {
      assert p + s == s && b + p == b;
    } else {
      assert (p + s)[0] == p[0] && (p + s)[1..] == p[1..] + s && b + [p[0]] + p[1..] == b + p;
      OrdinaryRun(d, p[1..], s, b + [p[0]], fields, inQuotes);
    }
  }

  /** The first byte of a record makes it started, whatever it is. */
  lemma StartsAnyway(d: Dialect, s: string, b: string, fields: seq<string>, inQuotes: bool)
    requires s != ""
    ensures Scan(d, s, b, fields, inQuotes, false) == Scan(d, s, b, fields, inQuotes, true)
  {
  }

  lemma LineEnds(d: Dialect, q: string, rest: string, b: string)
    requires Proper(d) && Ordinary(d, q)
    ensures Scan(d, q + ("\n" + rest), b, [], false, true) == Record([b + q], rest)
  {
    OrdinaryRun(d, q, "\n" + rest, b, [], false);
    assert ("\n" + rest)[1..] == rest;
  }

  /** Outside quotes an escape byte keeps itself and the byte after it, even a delimiter or a line end. */
  lemma EscapeOutside(d: Dialect, p: string, x: char, q: string, rest: string)
    requires Proper(d) && Ordinary(d, p) && Ordinary(d, q)
    ensures ReadRecord(d, p + ([d.esc, x] + (q + ("\n" + rest)))) == Record([p + [d.esc, x] + q], rest)
    ensures ReadRecord(d, p + [d.esc]) == Record([p + [d.esc]], "")
  {
    var tail := q + ("\n" + rest);
    var s := [d.esc, x] + tail;
    StartsAnyway(d, p + s, "", [], false);
    OrdinaryRun(d, p, s, "", [], false);
    assert s[1..][1..] == tail;
    LineEnds(d, q, rest, p + [d.esc, x]);
    StartsAnyway(d, p + [d.esc], "", [], false);
    OrdinaryRun(d, p, [d.esc], "", [], false);
    assert "" + p == p;
    assert Scan(d, s, p, [], false, true) == Scan(d, tail, p + [d.esc, x], [], false, true);
    assert [d.esc][1..] == "";
    assert Scan(d, "", p + [d.esc], [], false, true) == Record([p + [d.esc]], "");
  }

  /** An enclosure byte that does not begin the field is an ordinary byte. */
  lemma QuoteInside(d: Dialect, p: string, q: string, rest: string)
    requires Proper(d) && Ordinary(d, p) && Ordinary(d, q) && p != ""
    ensures ReadRecord(d, p + ([d.encl] + (q + ("\n" + rest)))) == Record([p + [d.encl] + q], rest)
  {
    var s := [d.encl] + (q + ("\n" + rest));
    StartsAnyway(d, p + s, "", [], false);
    OrdinaryRun(d, p, s, "", [], false);
    assert "" + p == p && s[1..] == q + ("\n" + rest);
    LineEnds(d, q, rest, p + [d.encl]);
  }

  /** Opening quotes and what is in them. */
  lemma QuotedPrefix(d: Dialect, p: string, s: string)
    requires Proper(d) && Ordinary(d, p)
    ensures ReadRecord(d, [d.encl] + (p + s)) == Scan(d, s, p, [], true, true)
  {
    OpeningQuote(d, p + s, [], false);
    OrdinaryRun(d, p, s, "", [], true);
    assert "" + p == p;
  }

  /** After the closing enclosure: a carriage return is dropped, any other byte joins the field, and the rest is read without quotes. */
  lemma AfterQuotes(d: Dialect, p: string, x: char, q: string, rest: string)
    requires Proper(d) && Ordinary(d, p) && Ordinary(d, q) && x !in {d.encl, d.delim, '\n'}
    ensures ReadRecord(d, [d.encl] + (p + ([d.encl, x] + (q + ("\n" + rest)))))
         == Record([p + (if x == '\r' then "" else [x]) + q], rest)
  {
    var tail := q + ("\n" + rest);
    var s := [d.encl, x] + tail;
    QuotedPrefix(d, p, s);
    assert s[1..][1..] == tail;
    LineEnds(d, q, rest, p + (if x == '\r' then "" else [x]));
    assert p + "" == p;
    assert Scan(d, s, p, [], true, true) == Scan(d, tail, p + (if x == '\r' then "" else [x]), [], false, true);
  }

  /** In quotes an escape byte vanishes in front of itself and of the enclosure, and stays in front of other bytes. */
  lemma EscapeInQuotes(d: Dialect, p: string, x: char, q: string, rest: string)
    requires Proper(d) && Ordinary(d, p) && Ordinary(d, q)
    ensures ReadRecord(d, [d.encl] + (p + ([d.esc, x] + (q + ([d.encl, '\n'] + rest)))))
         == Record([p + (if x in {d.esc, d.encl} then [x] else [d.esc, x]) + q], rest)
  {
    var tail := [d.encl, '\n'] + rest;
    var s := [d.esc, x] + (q + tail);
    QuotedPrefix(d, p, s);
    assert s[1..][1..] == q + tail;
    var b := p + (if x in {d.esc, d.encl} then [x] else [d.esc, x]);
    OrdinaryRun(d, q, tail, b, [], true);
    assert tail[1..][1..] == rest;
  }

  /** A file that ends inside quotes, on the closing enclosure, or on an escape byte in quotes. */
  lemma EndsInQuotes(d: Dialect, p: string)
    requires Proper(d) && Ordinary(d, p)
    ensures ReadRecord(d, [d.encl] + p) == Record([p], "")
    ensures ReadRecord(d, [d.encl] + (p + [d.encl])) == Record([p], "")
    ensures ReadRecord(d, [d.encl] + (p + [d.esc])) == Record([p + [d.esc]], "")
  {
    QuotedPrefix(d, p, "");
    assert p + "" == p;
    QuotedPrefix(d, p, [d.encl]);
    QuotedPrefix(d, p, [d.esc]);
    assert [d.esc][1..] == "";
    assert Scan(d, "", p + [d.esc], [], true, true) == Record([p + [d.esc]], "");
  }
}
