/**
 One CSV record read from the front of a text, and one written: the state machine of the
 reader and the quoting rule of the writer. A byte is a `char`.
 */
module CsvSpec {

  datatype Dialect = Dialect(delim: char, encl: char, esc: char)

  /** The dialects of the round trip: three different bytes, none of them a line ending. */
  predicate Proper(d: Dialect) {
    && d.delim != d.encl && d.delim != d.esc && d.encl != d.esc
    && {d.delim, d.encl, d.esc} !! {'\r', '\n'}
  }

  datatype Read = AtEnd | Record(fields: seq<string>, rest: string)

  /**
   The reader with the text s to go: b is the field being built, `fields` are the finished
   ones, and `started` says whether the record has any byte at all.
   */
  function Scan(d: Dialect, s: string, b: string, fields: seq<string>, inQuotes: bool, started: bool): Read
    decreases |s|
  {
    if s == "" then
      if started then Record(fields + [b], "") else AtEnd
    else if inQuotes then
      ScanQuoted(d, s, b, fields)
    else
      ScanPlain(d, s, b, fields)
  }

  function ScanQuoted(d: Dialect, s: string, b: string, fields: seq<string>): Read
    requires s != ""
    decreases |s|, 0
  {
    var c, r := s[0], s[1..];
    if c == d.encl then
      if r == "" then Record(fields + [b], "")
      else if r[0] == d.encl then Scan(d, r[1..], b + [d.encl], fields, true, true)
      else if r[0] == d.delim then Scan(d, r[1..], "", fields + [b], false, true)
      else if r[0] == '\n' then Record(fields + [b], r[1..])
      else if r[0] == '\r' then Scan(d, r[1..], b, fields, false, true)
      else Scan(d, r[1..], b + [r[0]], fields, false, true)
    else if c == d.esc then
      if r == "" then Scan(d, r, b + [d.esc], fields, true, true)
      else if r[0] == d.esc || r[0] == d.encl then Scan(d, r[1..], b + [r[0]], fields, true, true)
      else Scan(d, r[1..], b + [d.esc, r[0]], fields, true, true)
    else
      Scan(d, r, b + [c], fields, true, true)
  }

  function ScanPlain(d: Dialect, s: string, b: string, fields: seq<string>): Read
    requires s != ""
    decreases |s|, 0
  {
    var c, r := s[0], s[1..];
    if c == '\r' then Scan(d, r, b, fields, false, true)
    else if c == '\n' then Record(fields + [b], r)
    else if c == d.delim then Scan(d, r, "", fields + [b], false, true)
    else if c == d.encl then
      if b == "" then Scan(d, r, b, fields, true, true) else Scan(d, r, b + [c], fields, false, true)
    else if c == d.esc then
      if r == "" then Scan(d, r, b + [c], fields, false, true)
      else Scan(d, r[1..], b + [c, r[0]], fields, false, true)
    else
      Scan(d, r, b + [c], fields, false, true)
  }

  /** phpReadCSVRecord on a text. */
  function ReadRecord(d: Dialect, s: string): Read {
    Scan(d, s, "", [], false, false)
  }

  // ----- writing

  predicate Special(d: Dialect, c: char) {
    c == d.delim || c == d.encl || c == d.esc || c == '\n' || c == '\r' || c == '\t'
  }

  predicate NeedsQuotes(d: Dialect, f: string) {
    (exists i :: 0 <= i < |f| && Special(d, f[i])) || (f != "" && (f[0] == ' ' || f[|f| - 1] == ' '))
  }

  /** The enclosure byte is doubled; nothing else changes. */
  function Doubled(d: Dialect, f: string): string {
    if f == "" then "" else (if f[0] == d.encl then [d.encl, d.encl] else [f[0]]) + Doubled(d, f[1..])
  }

  lemma DoubledAt(d: Dialect, f: string, i: nat)
    requires i < |f|
    ensures Doubled(d, f[i..]) == (if f[i] == d.encl then [d.encl, d.encl] else [f[i]]) + Doubled(d, f[i + 1..])
  {
  }

  function FieldText(d: Dialect, f: string): string {
    if NeedsQuotes(d, f) then [d.encl] + (Doubled(d, f) + [d.encl]) else f
  }

  /** The fields from the first on, each followed by the delimiter or the line end. */
  function FieldsText(d: Dialect, fields: seq<string>): string {
    if fields == [] then "\n"
    else if |fields| == 1 then FieldText(d, fields[0]) + "\n"
    else FieldText(d, fields[0]) + ([d.delim] + FieldsText(d, fields[1..]))
  }

  function RecordsText(d: Dialect, records: seq<seq<string>>): string {
    if records == [] then "" else FieldsText(d, records[0]) + RecordsText(d, records[1..])
  }

  /** Reading once for each record gives the records in order, and once more meets the end. */
  predicate ReadsBack(d: Dialect, s: string, records: seq<seq<string>>)
    decreases |records|
  {
    match ReadRecord(d, s)
    case AtEnd => records == []
    case Record(fields, rest) => records != [] && fields == records[0] && ReadsBack(d, rest, records[1..])
  }

  /** Every escape byte is followed, in the field, by a byte that is neither escape nor enclosure. */
  predicate EscapeSafe(d: Dialect, f: string) {
    forall i :: 0 <= i < |f| && f[i] == d.esc ==> i + 1 < |f| && f[i + 1] != d.esc && f[i + 1] != d.encl
  }
}
