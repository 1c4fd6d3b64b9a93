/**
  Rows of comma-separated values (`parse_csv_row`), with quoted fields and doubled quotes (section 2 of RFC 4180).
*/
module CsvRow {

  /** The fields of `s`, when `field` is what the current field holds so far. */
  function ParseFrom(s: string, field: string, inQuotes: bool): (fields: seq<string>)
    ensures fields != []
    decreases |s|
  {
    if s == "" then [field]
    else if s[0] == '"' then
      if !inQuotes then
        if field != "" then ParseFrom(s[1..], field + ['"'], false) else ParseFrom(s[1..], field, true)
      else if |s| > 1 && s[1] == '"' then ParseFrom(s[2..], field + ['"'], true)
      else ParseFrom(s[1..], field, false)
    else if s[0] == ',' && !inQuotes then [field] + ParseFrom(s[1..], "", false)
    else ParseFrom(s[1..], field + [s[0]], inQuotes)
  }

  function Parsed(input: string): seq<string> {
    ParseFrom(input, "", false)
  }

  method ParseCsvRow(input: string) returns (fields: seq<string>)
    ensures fields == Parsed(input)
  {
    fields := [];
    var field, inQuotes := "", false;
    var i := 0;
    assert input[0..] == input;
    while i < |input|
      invariant i <= |input|
      invariant fields + ParseFrom(input[i..], field, inQuotes) == Parsed(input)
    {
      var ch := input[i];
      assert input[i..][1..] == input[i + 1..];
      if ch == '"' {
        if !inQuotes {
          if field != "" {
            field := field + ['"'];
          } else {
            inQuotes := true;
          }
        } else if i + 1 < |input| && input[i + 1] == '"' {
          assert input[i..][2..] == input[i + 2..];
          field := field + ['"'];
          i := i + 1;
        } else {
          inQuotes := false;
        }
      } else if ch == ',' {
        if inQuotes {
          field := field + [','];
        } else {
          fields := fields + [field];
          field := "";
        }
      } else {
        field := field + [ch];
      }
      i := i + 1;
    }
    fields := fields + [field];
  }

  // ----- Writing a row -----

  /** The text with every quote doubled. */
  function Doubled(f: string): string {
    if f == "" then "" else (if f[0] == '"' then "\"\"" else [f[0]]) + Doubled(f[1..])
  }

  function Quoted(f: string): string {
    "\"" + Doubled(f) + "\""
  }

  /** A field that needs no quotes: it has no comma and does not begin with a quote. */
  predicate IsBare(f: string) {
    (forall i :: 0 <= i < |f| ==> f[i] != ',') && (f == "" || f[0] != '"')
  }

  predicate Writes(w: string, f: string) {
    w == Quoted(f) || (w == f && IsBare(f))
  }

  function JoinCommas(ws: seq<string>): string
    requires ws != []
  {
    if |ws| == 1 then ws[0] else ws[0] + "," + JoinCommas(ws[1..])
  }

  // ----- Reading it back -----

  /** The end of the row or a comma. */
  predicate EndsField(rest: string) {
    rest == "" || rest[0] == ','
  }

  lemma {:induction false} ReadDoubled(f: string, field: string, rest: string)
    requires rest == "" || rest[0] != '"'
    ensures ParseFrom(Doubled(f) + "\"" + rest, field, true) == ParseFrom(rest, field + f, false)
    decreases |f|
  {
    var s := Doubled(f) + "\"" + rest;
    if f == "" {
      assert s == ['"'] + rest && s[1..] == rest && field + f == field;
    } else {
      var tail := Doubled(f[1..]) + "\"" + rest;
      ReadDoubled(f[1..], field + [f[0]], rest);
      assert field + f == field + [f[0]] + f[1..];
      if f[0] == '"' {
        assert s == ['"'] + (['"'] + tail);
        assert s[2..] == tail;
      } else {
        assert s == [f[0]] + tail;
        assert s[1..] == tail;
      }
    }
  }

  lemma {:induction false} ReadBare(f: string, field: string, rest: string)
    requires EndsField(rest)
    requires forall i :: 0 <= i < |f| ==> f[i] != ','
    requires f == "" || field != "" || f[0] != '"'
    ensures ParseFrom(f + rest, field, false) == ParseFrom(rest, field + f, false)
    decreases |f|
  {
    if f == "" {
      assert f + rest == rest && field + f == field;
    } else {
      assert (f + rest)[1..] == f[1..] + rest;
      assert field + f == field + [f[0]] + f[1..];
      ReadBare(f[1..], field + [f[0]], rest);
    }
  }

  lemma ReadField(w: string, f: string, rest: string)
    requires Writes(w, f) && EndsField(rest)
    ensures ParseFrom(w + rest, "", false) == ParseFrom(rest, f, false)
  {
    if w == Quoted(f) {
      ReadDoubled(f, "", rest);
      assert w + rest == ['"'] + (Doubled(f) + "\"" + rest);
      assert (w + rest)[1..] == Doubled(f) + "\"" + rest;
      assert "" + f == f;
    } else {
      ReadBare(f, "", rest);
      assert "" + f == f;
    }
  }

  /** Parsing gives back the fields, each of which was written in quotes or bare. */
  lemma {:induction false} ParseInvertsWrite(fs: seq<string>, ws: seq<string>)
    requires fs != [] && |ws| == |fs|
    requires forall i :: 0 <= i < |fs| ==> Writes(ws[i], fs[i])
    ensures Parsed(JoinCommas(ws)) == fs
    decreases |fs|
  {
    if |fs| == 1 {
      ReadField(ws[0], fs[0], "");
      assert ws[0] + "" == ws[0] && fs == [fs[0]];
    } else {
      var rest := "," + JoinCommas(ws[1..]);
      ReadField(ws[0], fs[0], rest);
      assert JoinCommas(ws) == ws[0] + rest;
      ParseInvertsWrite(fs[1..], ws[1..]);
      assert rest[1..] == JoinCommas(ws[1..]);
      assert fs == [fs[0]] + fs[1..];
    }
  }

  function QuoteAll(fs: seq<string>): (ws: seq<string>)
    ensures |ws| == |fs| && forall i :: 0 <= i < |fs| ==> ws[i] == Quoted(fs[i])
  {
    if fs == [] then [] else [Quoted(fs[0])] + QuoteAll(fs[1..])
  }

  /** Quoting every field always works: no list of fields is lost. */
  lemma QuotedRowRoundTrip(fs: seq<string>)
    requires fs != []
    ensures Parsed(JoinCommas(QuoteAll(fs))) == fs
  {
    ParseInvertsWrite(fs, QuoteAll(fs));
  }

  // ----- Which text may stand without quotes -----

  /** The characters of all fields and the commas between them. */
  function Size(fields: seq<string>): nat {
    if fields == [] then 0 else |fields[0]| + (if |fields| > 1 then 1 else 0) + Size(fields[1..])
  }

  /** Parsing never makes text longer. */
  lemma {:induction false} ParsingDoesNotGrow(s: string, field: string, inQuotes: bool)
    ensures Size(ParseFrom(s, field, inQuotes)) <= |field| + |s|
    decreases |s|
  {
    if s == "" {
      assert [field][1..] == [];
    } else if s[0] == '"' && inQuotes && |s| > 1 && s[1] == '"' {
      ParsingDoesNotGrow(s[2..], field + ['"'], true);
    } else if s[0] == '"' && (inQuotes || field == "") {
      ParsingDoesNotGrow(s[1..], field, !inQuotes);
    } else if s[0] == ',' && !inQuotes {
      ParsingDoesNotGrow(s[1..], "", false);
      var rest := ParseFrom(s[1..], "", false);
      assert ([field] + rest)[1..] == rest;
    } else {
      ParsingDoesNotGrow(s[1..], field + [s[0]], inQuotes);
    }
  }

  /** A comma outside quotes ends the field. */
  lemma {:induction false} CommaSplits(f: string, field: string)
    requires exists i :: 0 <= i < |f| && f[i] == ','
    requires field != "" || f[0] != '"'
    ensures |ParseFrom(f, field, false)| > 1
    decreases |f|
  {
    if f[0] != ',' {
      var i :| 0 <= i < |f| && f[i] == ',';
      assert f[1..][i - 1] == ',';
      CommaSplits(f[1..], field + [f[0]]);
    }
  }

  /** A text is a row of just itself exactly when it has no comma and does not begin with a quote. */
  lemma BareExactly(f: string)
    ensures Parsed(f) == [f] <==> IsBare(f)
  {
    if f == "" {
    } else if f[0] == '"' {
      ParsingDoesNotGrow(f[1..], "", true);
      assert Size([f]) == |f| by {
        assert [f][1..] == [];
      }
    } else if IsBare(f) {
      ReadBare(f, "", "");
      assert f + "" == f && "" + f == f;
    } else {
      CommaSplits(f, "");
    }
  }

  // ----- Rows that are not written so -----

  /** Text behind a closing quote still belongs to the field, and a quote that is never closed ends with the row. */
  lemma LooseQuotes(f: string, t: string)
    requires t != "" && t[0] != '"' && forall i :: 0 <= i < |t| ==> t[i] != ','
    ensures Parsed(Quoted(f) + t) == [f + t]
    ensures Parsed("\"" + Doubled(f)) == [f]
  {
    ReadDoubled(f, "", t);
    assert Quoted(f) + t == ['"'] + (Doubled(f) + "\"" + t);
    assert (Quoted(f) + t)[1..] == Doubled(f) + "\"" + t && "" + f == f;
    ReadBare(t, f, "");
    assert t + "" == t;
    ReadUnclosed(f, "");
    assert ("\"" + Doubled(f))[1..] == Doubled(f);
  }

  lemma {:induction false} ReadUnclosed(f: string, field: string)
    ensures ParseFrom(Doubled(f), field, true) == [field + f]
    decreases |f|
  {
    if f == "" {
      assert field + f == field;
    } else {
      ReadUnclosed(f[1..], field + [f[0]]);
      assert field + f == field + [f[0]] + f[1..];
      assert Doubled(f) == (if f[0] == '"' then "\"\"" else [f[0]]) + Doubled(f[1..]);
      if f[0] == '"' {
        assert Doubled(f)[2..] == Doubled(f[1..]);
      } else {
        assert Doubled(f)[1..] == Doubled(f[1..]);
      }
    }
  }
}
