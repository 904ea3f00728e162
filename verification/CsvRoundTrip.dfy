/** Written records read back exactly when every field is escape-safe. */
module CsvRoundTrip {
  import opened Basics
  import opened CsvSpec

  /** What may follow a field: the delimiter or a line end. */
  predicate Closes(d: Dialect, tail: string) {
    tail != "" && (tail[0] == d.delim || tail[0] == '\n')
  }

  /** The reader after a complete field. */
  function AfterField(d: Dialect, tail: string, fields: seq<string>, f: string): Read
    requires Closes(d, tail)
  {
    if tail[0] == d.delim then Scan(d, tail[1..], "", fields + [f], false, true) else Record(fields + [f], tail[1..])
  }

  // ----- safe fields come back

  lemma {:induction false} PlainField(d: Dialect, f: string, i: nat, tail: string, fields: seq<string>, started: bool)
    requires Proper(d) && i <= |f| && Closes(d, tail) && forall j :: 0 <= j < |f| ==> !Special(d, f[j])
    ensures Scan(d, f[i..] + tail, f[..i], fields, false, started) == AfterField(d, tail, fields, f)
    decreases |f| - i
  {
    var s := f[i..] + tail;
    if i == |f| {
      assert s == tail && f[..i] == f;
    } else {
      assert s[0] == f[i] && s[1..] == f[i + 1..] + tail && f[..i] + [f[i]] == f[..i + 1];
      PlainField(d, f, i + 1, tail, fields, true);
    }
  }

  /** Inside quotes the reader advances over a safe stretch of the field. */
  lemma QuotedStep(d: Dialect, f: string, i: nat, tail: string, fields: seq<string>)
    requires Proper(d) && i < |f|
    requires f[i] == d.esc ==> i + 1 < |f| && f[i + 1] != d.esc && f[i + 1] != d.encl
    ensures
      var n := if f[i] == d.esc then 2 else 1;
      i + n <= |f| &&
      Scan(d, Doubled(d, f[i..]) + tail, f[..i], fields, true, true)
      == Scan(d, Doubled(d, f[i + n..]) + tail, f[..i + n], fields, true, true)
  {
    hide Scan, Doubled;
    var b, more := f[..i], Doubled(d, f[i + 1..]);
    assert b + [f[i]] == f[..i + 1];
    DoubledAt(d, f, i);
    if f[i] == d.encl {
      Cat([d.encl, d.encl], more, tail);
      ReadTwice(d, more + tail, b, fields);
    } else if f[i] == d.esc {
      DoubledAt(d, f, i + 1);
      var more2 := Doubled(d, f[i + 2..]);
      assert b + [f[i], f[i + 1]] == f[..i + 2];
      assert [f[i]] + ([f[i + 1]] + more2) + tail == [f[i], f[i + 1]] + (more2 + tail);
      ReadEscaped(d, f[i + 1], more2 + tail, b, fields);
    } else {
      Cat([f[i]], more, tail);
      ReadOther(d, f[i], more + tail, b, fields);
    }
  }

  lemma ReadTwice(d: Dialect, rest: string, b: string, fields: seq<string>)
    requires Proper(d)
    ensures Scan(d, [d.encl, d.encl] + rest, b, fields, true, true) == Scan(d, rest, b + [d.encl], fields, true, true)
  {
  }

  lemma ReadEscaped(d: Dialect, x: char, rest: string, b: string, fields: seq<string>)
    requires Proper(d) && x != d.esc && x != d.encl
    ensures Scan(d, [d.esc, x] + rest, b, fields, true, true) == Scan(d, rest, b + [d.esc, x], fields, true, true)
  {
  }

  lemma ReadOther(d: Dialect, x: char, rest: string, b: string, fields: seq<string>)
    requires x != d.esc && x != d.encl
    ensures Scan(d, [x] + rest, b, fields, true, true) == Scan(d, rest, b + [x], fields, true, true)
  {
  }

  lemma {:induction false} QuotedField(d: Dialect, f: string, i: nat, tail: string, fields: seq<string>)
    requires Proper(d) && i <= |f| && Closes(d, tail) && EscapeSafe(d, f)
    ensures Scan(d, Doubled(d, f[i..]) + ([d.encl] + tail), f[..i], fields, true, true) == AfterField(d, tail, fields, f)
    decreases |f| - i
  {
    if i == |f| {
      assert Doubled(d, f[i..]) + ([d.encl] + tail) == [d.encl] + tail && f[..i] == f;
    } else {
      QuotedStep(d, f, i, [d.encl] + tail, fields);
      QuotedField(d, f, if f[i] == d.esc then i + 2 else i + 1, tail, fields);
    }
  }

  /** Reading a field starts: a quoted field enters its quotes. */
  lemma EnterQuotes(d: Dialect, f: string, tail: string, fields: seq<string>, started: bool)
    requires Proper(d) && NeedsQuotes(d, f)
    ensures Scan(d, FieldText(d, f) + tail, "", fields, false, started)
         == Scan(d, Doubled(d, f) + ([d.encl] + tail), "", fields, true, true)
  {
    hide Scan, Doubled, NeedsQuotes;
    var body := Doubled(d, f) + [d.encl];
    Cat([d.encl], body, tail);
    Cat(Doubled(d, f), [d.encl], tail);
    OpeningQuote(d, body + tail, fields, started);
  }

  lemma OpeningQuote(d: Dialect, rest: string, fields: seq<string>, started: bool)
    requires Proper(d)
    ensures Scan(d, [d.encl] + rest, "", fields, false, started) == Scan(d, rest, "", fields, true, true)
  {
  }

  lemma SafeField(d: Dialect, f: string, tail: string, fields: seq<string>, started: bool)
    requires Proper(d) && Closes(d, tail) && EscapeSafe(d, f)
    ensures Scan(d, FieldText(d, f) + tail, "", fields, false, started) == AfterField(d, tail, fields, f)
  {
    assert f[0..] == f && f[..0] == "";
    if NeedsQuotes(d, f) {
      EnterQuotes(d, f, tail, fields, started);
      QuotedField(d, f, 0, tail, fields);
    } else {
      PlainField(d, f, 0, tail, fields, started);
    }
  }

  // ----- unsafe fields do not

  /** The record that comes out keeps the finished fields and extends the field being built. */
  predicate Extends(read: Read, b: string, fields: seq<string>) {
    read.Record? && |read.fields| > |fields| && fields <= read.fields && b <= read.fields[|fields|]
  }

  lemma {:induction false} ScanExtends(d: Dialect, s: string, b: string, fields: seq<string>, inQuotes: bool, started: bool)
    ensures started ==> Extends(Scan(d, s, b, fields, inQuotes, started), b, fields)
    ensures s != "" ==> Extends(Scan(d, s, b, fields, inQuotes, started), b, fields)
    decreases |s|
  {
    if s != "" {
      var c, r := s[0], s[1..];
      if inQuotes && c == d.encl {
        if r != "" {
          ScanExtends(d, r[1..], b + [r[0]], fields, true, true);
          ScanExtends(d, r[1..], b + [r[0]], fields, false, true);
          ScanExtends(d, r[1..], b, fields, false, true);
          ScanExtends(d, r[1..], "", fields + [b], false, true);
        }
      } else if c == d.esc {
        ScanExtends(d, r, b + [d.esc], fields, inQuotes, true);
        if r != "" {
          ScanExtends(d, r[1..], b + [r[0]], fields, inQuotes, true);
          ScanExtends(d, r[1..], b + [d.esc, r[0]], fields, inQuotes, true);
        }
        ScanExtends(d, r, "", fields + [b], false, true);
        ScanExtends(d, r, b, fields, true, true);
        ScanExtends(d, r, b, fields, false, true);
      } else {
        ScanExtends(d, r, b + [c], fields, inQuotes, true);
        ScanExtends(d, r, b, fields, false, true);
        ScanExtends(d, r, b, fields, true, true);
        ScanExtends(d, r, "", fields + [b], false, true);
      }
    }
  }

  /** The next field of the record read is not f. */
  predicate Misreads(read: Read, fields: seq<string>, f: string) {
    read.Record? && |read.fields| > |fields| && fields <= read.fields && read.fields[|fields|] != f
  }

  /** Once the field being built is not a prefix of f, it never becomes f. */
  lemma Diverged(d: Dialect, s: string, b: string, fields: seq<string>, f: string)
    requires !(b <= f)
    ensures Misreads(Scan(d, s, b, fields, true, true), fields, f)
  {
    ScanExtends(d, s, b, fields, true, true);
  }

  /** A wrong byte in place of an escape byte. */
  lemma WrongByte(d: Dialect, s: string, m: nat, x: char, fields: seq<string>, f: string)
    requires m < |f| && f[m] != x
    ensures Misreads(Scan(d, s, f[..m] + [x], fields, true, true), fields, f)
  {
    var b := f[..m] + [x];
    assert b[m] == x;
    Diverged(d, s, b, fields, f);
  }

  /**
   The reader has fallen behind by swallowing escape bytes: it has built f[..m], the text goes
   on from f[j], and f[m..j] are escape bytes. It never catches up.
   */
  lemma {:induction false} Behind(d: Dialect, f: string, m: nat, j: nat, tail: string, fields: seq<string>)
    requires Proper(d) && m < j <= |f| && Closes(d, tail) && forall i :: m <= i < j ==> f[i] == d.esc
    ensures Misreads(Scan(d, Doubled(d, f[j..]) + ([d.encl] + tail), f[..m], fields, true, true), fields, f)
    decreases |f| - j
  {
    var s := Doubled(d, f[j..]) + ([d.encl] + tail);
    if j == |f| {
      assert s == [d.encl] + tail;
      if tail[0] == d.delim {
        ScanExtends(d, tail[1..], "", fields + [f[..m]], false, true);
      }
    } else if f[j] == d.encl {
      assert f[j..][1..] == f[j + 1..];
      assert s[1..][0] == d.encl;
      WrongByte(d, s[1..][1..], m, d.encl, fields, f);
    } else if f[j] == d.esc {
      assert f[j..][1..] == f[j + 1..] && s[0] == d.esc;
      BehindEscape(d, f, m, j, tail, fields);
    } else {
      assert s[0] == f[j];
      WrongByte(d, s[1..], m, f[j], fields, f);
    }
  }

  lemma {:induction false} BehindEscape(d: Dialect, f: string, m: nat, j: nat, tail: string, fields: seq<string>)
    requires Proper(d) && m < j < |f| && Closes(d, tail) && forall i :: m <= i <= j ==> f[i] == d.esc
    ensures Misreads(Scan(d, Doubled(d, f[j..]) + ([d.encl] + tail), f[..m], fields, true, true), fields, f)
    decreases |f| - j, 0
  {
    var s := Doubled(d, f[j..]) + ([d.encl] + tail);
    assert f[j..][1..] == f[j + 1..];
    assert s[1..] == Doubled(d, f[j + 1..]) + ([d.encl] + tail);
    if j + 1 == |f| {
      assert s[1..][0] == d.encl;
      WrongByte(d, s[1..][1..], m, d.encl, fields, f);
    } else {
      var y := f[j + 1];
      assert f[j + 1..][1..] == f[j + 2..];
      assert s[1..][0] == y;
      if y == d.encl {
        WrongByte(d, s[1..][1..], m, d.encl, fields, f);
      } else if y == d.esc {
        assert s[1..][1..] == Doubled(d, f[j + 2..]) + ([d.encl] + tail);
        assert f[..m] + [y] == f[..m + 1];
        Behind(d, f, m + 1, j + 2, tail, fields);
      } else {
        assert f[..m] + [d.esc, y] == f[..m + 1] + [y];
        WrongByte(d, s[1..][1..], m + 1, y, fields, f);
      }
    }
  }

  /** The first unsafe escape byte is at i: the bytes before it are read correctly, and then the field goes wrong. */
  lemma {:induction false} UnsafeFrom(d: Dialect, f: string, k: nat, i: nat, tail: string, fields: seq<string>)
    requires Proper(d) && k <= i < |f| && Closes(d, tail) && f[i] == d.esc
    requires i + 1 == |f| || f[i + 1] == d.esc || f[i + 1] == d.encl
    requires forall j :: 0 <= j < i && f[j] == d.esc ==> f[j + 1] != d.esc && f[j + 1] != d.encl
    ensures Misreads(Scan(d, Doubled(d, f[k..]) + ([d.encl] + tail), f[..k], fields, true, true), fields, f)
    decreases i - k
  {
    if k < i {
      QuotedStep(d, f, k, [d.encl] + tail, fields);
      UnsafeFrom(d, f, if f[k] == d.esc then k + 2 else k + 1, i, tail, fields);
    } else {
      var s := Doubled(d, f[i..]) + ([d.encl] + tail);
      assert f[i..][1..] == f[i + 1..];
      assert s[0] == d.esc && s[1..] == Doubled(d, f[i + 1..]) + ([d.encl] + tail);
      if i + 1 == |f| || f[i + 1] == d.encl {
        assert s[1..][0] == d.encl;
        WrongByte(d, s[1..][1..], i, d.encl, fields, f);
      } else {
        assert f[i + 1..][1..] == f[i + 2..];
        assert s[1..][0] == d.esc && s[1..][1..] == Doubled(d, f[i + 2..]) + ([d.encl] + tail);
        assert f[..i] + [d.esc] == f[..i + 1];
        Behind(d, f, i + 1, i + 2, tail, fields);
      }
    }
  }

  lemma {:induction false} FirstUnsafe(d: Dialect, f: string, n: nat) returns (i: nat)
    requires n <= |f| && !EscapeSafe(d, f)
    requires forall j :: 0 <= j < n && f[j] == d.esc ==> j + 1 < |f| && f[j + 1] != d.esc && f[j + 1] != d.encl
    ensures i < |f| && f[i] == d.esc && (i + 1 == |f| || f[i + 1] == d.esc || f[i + 1] == d.encl)
    ensures forall j :: 0 <= j < i && f[j] == d.esc ==> f[j + 1] != d.esc && f[j + 1] != d.encl
    decreases |f| - n
  {
    if f[n] == d.esc && (n + 1 == |f| || f[n + 1] == d.esc || f[n + 1] == d.encl) {
      i := n;
    } else {
      i := FirstUnsafe(d, f, n + 1);
    }
  }

  lemma UnsafeField(d: Dialect, f: string, tail: string, fields: seq<string>, started: bool)
    requires Proper(d) && Closes(d, tail) && !EscapeSafe(d, f)
    ensures Misreads(Scan(d, FieldText(d, f) + tail, "", fields, false, started), fields, f)
  {
    var i := FirstUnsafe(d, f, 0);
    assert Special(d, f[i]);
    EnterQuotes(d, f, tail, fields, started);
    assert f[0..] == f && f[..0] == "";
    UnsafeFrom(d, f, 0, i, tail, fields);
  }

  // ----- records

  predicate AllSafe(d: Dialect, fields: seq<string>) {
    forall i :: 0 <= i < |fields| ==> EscapeSafe(d, fields[i])
  }

  lemma SafeCons(d: Dialect, fields: seq<string>)
    requires fields != []
    ensures AllSafe(d, fields) <==> EscapeSafe(d, fields[0]) && AllSafe(d, fields[1..])
    ensures |fields| == 1 ==> AllSafe(d, fields[1..])
  {
    hide EscapeSafe;
    assert forall i :: 1 <= i < |fields| ==> fields[i] == fields[1..][i - 1];
  }

  lemma FieldsSplit(done: seq<string>, fields: seq<string>)
    requires fields != []
    ensures done + [fields[0]] + fields[1..] == done + fields && (done + fields)[|done|] == fields[0]
  {
  }

  lemma RecordSplit(d: Dialect, fields: seq<string>, rest: string) returns (tail: string)
    requires Proper(d) && fields != []
    ensures FieldsText(d, fields) + rest == FieldText(d, fields[0]) + tail && Closes(d, tail)
    ensures if |fields| == 1 then tail == "\n" + rest else tail == [d.delim] + (FieldsText(d, fields[1..]) + rest)
    ensures |fields| == 1 ==> tail[0] != d.delim && tail[1..] == rest
    ensures |fields| > 1 ==> tail[0] == d.delim && tail[1..] == FieldsText(d, fields[1..]) + rest
  {
    hide FieldText;
    tail := if |fields| == 1 then "\n" + rest else [d.delim] + (FieldsText(d, fields[1..]) + rest);
  }

  /** The text of a record reads as its fields when they are safe, and as something else when one is not. */
  lemma {:induction false} RecordReads(d: Dialect, fields: seq<string>, rest: string, done: seq<string>, started: bool)
    requires Proper(d) && fields != []
    ensures AllSafe(d, fields) ==>
      Scan(d, FieldsText(d, fields) + rest, "", done, false, started) == Record(done + fields, rest)
    ensures !AllSafe(d, fields) ==>
      var read := Scan(d, FieldsText(d, fields) + rest, "", done, false, started);
      read.Record? && read.fields != done + fields
    decreases |fields|
  {
    hide EscapeSafe, FieldText, FieldsText, Scan, Proper, AllSafe, Closes;
    var f := fields[0];
    var tail := RecordSplit(d, fields, rest);
    SafeCons(d, fields);
    FieldsSplit(done, fields);
    if !EscapeSafe(d, f) {
      UnsafeField(d, f, tail, done, started);
    } else {
      SafeField(d, f, tail, done, started);
      if |fields| == 1 {
        assert fields == [f];
      } else {
        RecordReads(d, fields[1..], rest, done + [f], true);
      }
    }
  }

  /**
   For every proper dialect and every list of non-empty records: reading as many records as
   were written returns them and then the end if and only if every field is escape-safe.
   */
  lemma {:induction false} RoundTripExactly(d: Dialect, records: seq<seq<string>>)
    requires Proper(d) && forall i :: 0 <= i < |records| ==> records[i] != []
    ensures ReadsBack(d, RecordsText(d, records), records) <==> forall i :: 0 <= i < |records| ==> AllSafe(d, records[i])
    decreases |records|
  {
    hide AllSafe, Scan, FieldsText;
    if records == [] {
      assert ReadRecord(d, "") == AtEnd by {
        ScanEmpty(d);
      }
    } else {
      var rest := RecordsText(d, records[1..]);
      RecordReads(d, records[0], rest, [], false);
      assert [] + records[0] == records[0];
      RoundTripExactly(d, records[1..]);
      assert forall i :: 1 <= i < |records| ==> records[i] == records[1..][i - 1];
    }
  }

  lemma ScanEmpty(d: Dialect)
    ensures Scan(d, "", "", [], false, false) == AtEnd
  {
  }

  /** The default dialect of fputcsv and fgetcsv loses a field that ends in a backslash. */
  lemma BackslashLost()
    ensures var d := Dialect(',', '"', '\\');
      Proper(d) && !ReadsBack(d, RecordsText(d, [["a\\"]]), [["a\\"]])
  {
    var d := Dialect(',', '"', '\\');
    var f := "a\\";
    assert f[1] == d.esc && !EscapeSafe(d, f);
    assert [f][0] == f;
    RoundTripExactly(d, [[f]]);
    assert !AllSafe(d, [f]);
    assert [[f]][0] == [f];
  }
}
