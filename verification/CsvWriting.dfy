/** What the CSV writer puts down for a field and for a record. */
module CsvWriting {
  import opened CsvSpec

  /** A field with a special byte anywhere, or a blank at either end, is written between enclosures. */
  lemma Enclosed(d: Dialect, p: string, x: char, q: string)
    ensures
      x in [d.delim, d.encl, d.esc, '\n', '\r', '\t'] ==>
        FieldText(d, p + [x] + q) == [d.encl] + Doubled(d, p + [x] + q) + [d.encl]
    ensures FieldText(d, " " + p) == [d.encl] + Doubled(d, " " + p) + [d.encl]
    ensures FieldText(d, p + " ") == [d.encl] + Doubled(d, p + " ") + [d.encl]
  {
    hide Doubled;
    assert (p + [x] + q)[|p|] == x;
  }

  /** Every other field is written as it is. */
  lemma AsItIs(d: Dialect, f: string)
    requires forall x :: x in f ==> x !in [d.delim, d.encl, d.esc, '\n', '\r', '\t']
    requires f != "" ==> f[0] != ' ' && f[|f| - 1] != ' '
    ensures FieldText(d, f) == f
  {
    assert forall i :: 0 <= i < |f| ==> f[i] in f;
  }

  /** Doubling takes the bytes one by one: two enclosures for one, everything else once. */
  lemma {:induction false} DoubledCat(d: Dialect, p: string, q: string)
    ensures Doubled(d, p + q) == Doubled(d, p) + Doubled(d, q)
    ensures d.encl !in p ==> Doubled(d, p) == p
    ensures Doubled(d, [d.encl]) == [d.encl, d.encl]
  {
    assert [d.encl][1..] == "";
    if p == "" {
      assert p + q == q;
    } else {
      assert (p + q)[1..] == p[1..] + q;
      assert p == [p[0]] + p[1..];
      DoubledCat(d, p[1..], q);
    }
  }

  /** The fields stand in order with the delimiter between them and a line feed at the end. */
  lemma RecordText(d: Dialect, first: string, more: seq<string>)
    ensures FieldsText(d, []) == "\n" && FieldsText(d, [first]) == FieldText(d, first) + "\n"
    ensures more != [] ==> FieldsText(d, [first] + more) == FieldText(d, first) + [d.delim] + FieldsText(d, more)
  {
    hide FieldText;
    assert ([first] + more)[1..] == more;
  }

  /** One record: a plain field, an empty one, one with a delimiter, and one with an enclosure. */
  lemma OneRecord()
    ensures FieldsText(Dialect(',', '"', '\\'), ["ab", "", "c,d", "e\"f"]) == "ab,,\"c,d\",\"e\"\"f\"\n"
  {
    hide FieldText, FieldsText;
    var d := Dialect(',', '"', '\\');
    AsItIs(d, "ab");
    AsItIs(d, "");
    CommaField(d);
    QuoteField(d);
    RecordText(d, "e\"f", []);
    RecordText(d, "c,d", ["e\"f"]);
    RecordText(d, "", ["c,d", "e\"f"]);
    RecordText(d, "ab", ["", "c,d", "e\"f"]);
    assert ["ab"] + ["", "c,d", "e\"f"] == ["ab", "", "c,d", "e\"f"] && [""] + ["c,d", "e\"f"] == ["", "c,d", "e\"f"];
    assert ["c,d"] + ["e\"f"] == ["c,d", "e\"f"];
  }

  lemma CommaField(d: Dialect)
    requires d == Dialect(',', '"', '\\')
    ensures FieldText(d, "c,d") == "\"c,d\""
  {
    hide FieldText;
    Enclosed(d, "c", ',', "d");
    DoubledCat(d, "c,d", "");
    assert "c" + [','] + "d" == "c,d";
  }

  lemma QuoteField(d: Dialect)
    requires d == Dialect(',', '"', '\\')
    ensures FieldText(d, "e\"f") == "\"e\"\"f\""
  {
    hide FieldText;
    Enclosed(d, "e", '"', "f");
    DoubledCat(d, "e", "\"" + "f");
    DoubledCat(d, "\"", "f");
    DoubledCat(d, "f", "");
    assert "e" + ['"'] + "f" == "e\"f" == "e" + ("\"" + "f");
    assert [d.encl] == "\"";
  }
}
