/** phpReadCSVRecord and phpWriteCSVRecord as loops over bytes. */
module Csv {
  import opened Basics
  import opened CsvSpec

  /** An io.Reader over bytes that are all there. */
  class ByteReader {
    const data: string
    var pos: nat

    ghost predicate Valid()
      reads this
    {
      pos <= |data|
    }

    ghost function Rest(): string
      requires Valid()
      reads this
    {
      data[pos..]
    }

    constructor (data: string)
      ensures Valid() && Rest() == data && this.data == data
    {
      this.data, pos := data, 0;
    }

    method ReadByte() returns (c: char, ok: bool)
      requires Valid()
      modifies this
      ensures Valid() && (ok <==> old(Rest()) != "")
      ensures ok ==> pos == old(pos) + 1 && c == old(Rest())[0] && Rest() == old(Rest())[1..]
      ensures !ok ==> pos == old(pos)
    {
      if pos == |data| {
        return '\0', false;
      }
      c, ok := data[pos], true;
      pos := pos + 1;
    }
  }

  method ReadCSVRecord(r: ByteReader, d: Dialect) returns (fields: seq<string>, eof: bool)
    requires r.Valid()
    modifies r
    ensures r.Valid()
    ensures ReadRecord(d, old(r.Rest())) == if eof then AtEnd else Record(fields, r.Rest())
  {
    fields := [];
    var b := "";
    var inQuotes, started := false, false;
    ghost var all := ReadRecord(d, r.Rest());
    while true
      invariant r.Valid()
      invariant all == Scan(d, r.Rest(), b, fields, inQuotes, started)
      decreases |r.data| - r.pos
    {
      var c, ok := r.ReadByte();
      if !ok {
        if !started {
          return [], true;
        }
        return fields + [b], false;
      }
      started := true;
      if inQuotes {
        if c == d.encl {
          var nxt, ok2 := r.ReadByte();
          if ok2 && nxt == d.encl {
            b := b + [d.encl];
            continue;
          }
          inQuotes := false;
          if !ok2 {
            return fields + [b], false;
          }
          if nxt == d.delim {
            fields, b := fields + [b], "";
            continue;
          }
          if nxt == '\n' {
            return fields + [b], false;
          }
          if nxt == '\r' {
            continue;
          }
          b := b + [nxt];
          continue;
        }
        if c == d.esc {
          var nxt, ok2 := r.ReadByte();
          if ok2 && (nxt == d.esc || nxt == d.encl) {
            b := b + [nxt];
            continue;
          }
          if ok2 {
            b := b + [d.esc, nxt];
          } else {
            b := b + [d.esc];
          }
          continue;
        }
        b := b + [c];
        continue;
      }
      if c == '\r' {
        continue;
      } else if c == '\n' {
        return fields + [b], false;
      } else if c == d.delim {
        fields, b := fields + [b], "";
      } else if c == d.encl {
        if b == "" {
          inQuotes := true;
          continue;
        }
        b := b + [c];
      } else if c == d.esc {
        var nxt, ok2 := r.ReadByte();
        if ok2 {
          b := b + [c, nxt];
        } else {
          b := b + [c];
        }
      } else {
        b := b + [c];
      }
    }
  }

  /** The text of the fields from i on, with the separator before them when they are not the first. */
  function FieldsFrom(d: Dialect, fields: seq<string>, i: nat): string
    requires i <= |fields|
  {
    if i == |fields| then "\n"
    else if i == 0 then FieldsText(d, fields)
    else [d.delim] + FieldsText(d, fields[i..])
  }

  lemma FieldsFromStep(d: Dialect, fields: seq<string>, i: nat)
    requires i < |fields|
    ensures FieldsFrom(d, fields, i) == (if i > 0 then [d.delim] else "") + (FieldText(d, fields[i]) + FieldsFrom(d, fields, i + 1))
  {
  }

  method WriteCSVRecord(fields: seq<string>, d: Dialect) returns (text: string)
    ensures text == FieldsText(d, fields)
  {
    hide FieldsFrom, FieldText, FieldsText;
    text := "";
    var i := 0;
    ghost var all := FieldsFrom(d, fields, 0);
    while i < |fields|
      invariant 0 <= i <= |fields|
      invariant text + FieldsFrom(d, fields, i) == all
    {
      FieldsFromStep(d, fields, i);
      ghost var more := FieldsFrom(d, fields, i + 1);
      var field := WriteField(fields[i], d);
      if i > 0 {
        Cat(text, [d.delim], field + more);
        text := text + [d.delim];
      }
      Cat(text, field, more);
      text := text + field;
      i := i + 1;
    }
    FieldsFromEnds(d, fields);
    text := text + "\n";
  }

  lemma FieldsFromEnds(d: Dialect, fields: seq<string>)
    ensures FieldsFrom(d, fields, |fields|) == "\n"
    ensures FieldsFrom(d, fields, 0) == FieldsText(d, fields)
  {
  }

  /** The quoting decision and the doubling loop for one field. */
  method WriteField(f: string, d: Dialect) returns (text: string)
    ensures text == FieldText(d, f)
  {
    hide Doubled;
    var needQuote := false;
    var k := 0;
    while k < |f| && !needQuote
      invariant 0 <= k <= |f|
      invariant needQuote <==> exists i :: 0 <= i < k && Special(d, f[i])
    {
      needQuote := Special(d, f[k]);
      k := k + 1;
    }
    if !needQuote && |f| > 0 && (f[0] == ' ' || f[|f| - 1] == ' ') {
      needQuote := true;
    }
    if !needQuote {
      return f;
    }
    var body := DoubleEnclosures(f, d);
    text := [d.encl] + (body + [d.encl]);
  }

  method DoubleEnclosures(f: string, d: Dialect) returns (body: string)
    ensures body == Doubled(d, f)
  {
    hide Doubled;
    body := "";
    var j := 0;
    assert f[0..] == f;
    while j < |f|
      invariant 0 <= j <= |f|
      invariant body + Doubled(d, f[j..]) == Doubled(d, f)
    {
      DoubledAt(d, f, j);
      Cat(body, if f[j] == d.encl then [d.encl, d.encl] else [f[j]], Doubled(d, f[j + 1..]));
      ghost var before := body;
      if f[j] == d.encl {
        body := body + [d.encl];
      }
      body := body + [f[j]];
      assert body == before + (if f[j] == d.encl then [d.encl, d.encl] else [f[j]]);
      j := j + 1;
    }
    DoubledNothing(d, f[j..]);
  }

  lemma DoubledNothing(d: Dialect, f: string)
    requires f == ""
    ensures Doubled(d, f) == ""
  {
  }
}
