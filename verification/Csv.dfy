/** The CSV row printer, against an independent reader of the grammar in section 2 of RFC 4180. */
module Csv {
  import opened Wrappers
  import opened Bytes

  // ---------------------------------------------------------------- printing

  predicate NeedsQuotes(s: string) { ',' in s || '"' in s || '\n' in s }

  function Doubled(s: string): string {
    if s == "" then "" else (if s[0] == '"' then "\"\"" else [s[0]]) + Doubled(s[1..])
  }

  function Cell(s: string): string {
    if NeedsQuotes(s) then "\"" + (Doubled(s) + "\"") else s
  }

  function Row(fields: seq<string>): (line: string)
    ensures |line| > 0
  {
    if fields == [] then "\n"
    else if |fields| == 1 then Cell(fields[0]) + "\n"
    else Cell(fields[0]) + ("," + Row(fields[1..]))
  }

  /** The text of each schema field of a record; a missing value prints as nothing. */
  function Texts(names: seq<string>, record: map<string, string>): (t: seq<string>)
    ensures |t| == |names|
    ensures forall i :: 0 <= i < |names| ==> t[i] == if names[i] in record then record[names[i]] else ""
  {
    seq(|names|, i requires 0 <= i < |names| => if names[i] in record then record[names[i]] else "")
  }

  /** What is still to be printed once `i` fields are out. */
  function Remaining(fields: seq<string>, i: nat): string
    requires i <= |fields|
  {
    if i == |fields| then "\n" else Row(fields[i..])
  }

  method PrintRow(names: seq<string>, record: map<string, string>) returns (line: string)
    ensures line == Row(Texts(names, record))
  {
    line := "";
    ghost var fields := Texts(names, record);
    assert fields[0..] == fields;
    for i := 0 to |names|
      invariant line + Remaining(fields, i) == Row(fields)
    {
      var text := if names[i] in record then record[names[i]] else "";
      if NeedsQuotes(text) { text := "\"" + Doubled(text) + "\""; }
      assert text == Cell(fields[i]);
      ghost var before := line;
      line := line + text;
      assert fields[i..][1..] == fields[i + 1..];
      if i < |names| - 1 {
        line := line + ",";
        Assoc(before + text, ",", Remaining(fields, i + 1));
        Assoc(before, text, "," + Remaining(fields, i + 1));
      } else {
        Assoc(before, text, "\n");
      }
    }
    line := line + "\n";
  }

  // ----------------------------------------------------------------- reading

  /** TEXTDATA, widened to every character but the four separators. `crIsText` drops CR from them. */
  predicate IsText(c: char, crIsText: bool) {
    c != '"' && c != ',' && c != '\n' && (crIsText || c != '\r')
  }

  function ReadPlain(s: string, crIsText: bool, acc: string): (string, string) {
    if s == "" || !IsText(s[0], crIsText) then (acc, s) else ReadPlain(s[1..], crIsText, acc + [s[0]])
  }

  /** After the opening quote: a doubled quote is a quote, a single one ends the field. */
  function ReadQuoted(s: string, acc: string): Option<(string, string)> {
    if s == "" then None
    else if s[0] != '"' then ReadQuoted(s[1..], acc + [s[0]])
    else if |s| > 1 && s[1] == '"' then ReadQuoted(s[2..], acc + ['"'])
    else Some((acc, s[1..]))
  }

  function ReadField(s: string, crIsText: bool): Option<(string, string)> {
    if s != "" && s[0] == '"' then ReadQuoted(s[1..], "") else Some(ReadPlain(s, crIsText, ""))
  }

  lemma {:induction false} ReadPlainShortens(s: string, crIsText: bool, acc: string)
    ensures |ReadPlain(s, crIsText, acc).1| <= |s|
  {
    if s != "" && IsText(s[0], crIsText) { ReadPlainShortens(s[1..], crIsText, acc + [s[0]]); }
  }

  lemma {:induction false} ReadQuotedShortens(s: string, acc: string)
    ensures ReadQuoted(s, acc).Some? ==> |ReadQuoted(s, acc).value.1| < |s|
  {
    if s == "" {
    } else if s[0] != '"' {
      ReadQuotedShortens(s[1..], acc + [s[0]]);
    } else if |s| > 1 && s[1] == '"' {
      ReadQuotedShortens(s[2..], acc + ['"']);
    }
  }

  lemma ReadFieldShortens(s: string, crIsText: bool)
    ensures ReadField(s, crIsText).Some? ==> |ReadField(s, crIsText).value.1| <= |s|
  {
    if s != "" && s[0] == '"' { ReadQuotedShortens(s[1..], ""); } else { ReadPlainShortens(s, crIsText, ""); }
  }

  /** One record: fields separated by commas and ended by a line feed. */
  function ReadRecord(s: string, crIsText: bool, acc: seq<string>): Option<(seq<string>, string)>
    decreases |s|
  {
    ReadFieldShortens(s, crIsText);
    match ReadField(s, crIsText)
    case None => None
    case Some((field, rest)) =>
      if rest == "" then None
      else if rest[0] == '\n' then Some((acc + [field], rest[1..]))
      else if rest[0] == ',' then ReadRecord(rest[1..], crIsText, acc + [field])
      else None
  }

  // -------------------------------------------------------------- round trip

  lemma {:induction false} ReadQuotedBack(s: string, rest: string, acc: string)
    requires rest == "" || rest[0] != '"'
    ensures ReadQuoted(Doubled(s) + ("\"" + rest), acc) == Some((acc + s, rest))
    decreases |s|
  {
    if s == "" {
      assert Doubled(s) + ("\"" + rest) == "\"" + rest;
      assert ("\"" + rest)[1..] == rest && acc + s == acc;
    } else {
      var head := if s[0] == '"' then "\"\"" else [s[0]];
      var tail := Doubled(s[1..]) + ("\"" + rest);
      Assoc(head, Doubled(s[1..]), "\"" + rest);
      Seam(head, tail);
      ReadQuotedBack(s[1..], rest, acc + [s[0]]);
      assert acc + [s[0]] + s[1..] == acc + s;
    }
  }

  /** No character of an unquoted field stops the reader. */
  predicate AllText(s: string, crIsText: bool) { forall c :: c in s ==> IsText(c, crIsText) }

  lemma {:induction false} ReadPlainBack(s: string, rest: string, crIsText: bool, acc: string)
    requires rest != "" && !IsText(rest[0], crIsText)
    ensures AllText(s, crIsText) ==> ReadPlain(s + rest, crIsText, acc) == (acc + s, rest)
    ensures !NeedsQuotes(s) && !AllText(s, crIsText) ==>
              var r := ReadPlain(s + rest, crIsText, acc).1; r != "" && r[0] == '\r'
    decreases |s|
  {
    if s == "" {
      assert s + rest == rest && acc + s == acc;
    } else {
      assert (s + rest)[1..] == s[1..] + rest;
      assert forall c :: c in s <==> c == s[0] || c in s[1..];
      if IsText(s[0], crIsText) {
        ReadPlainBack(s[1..], rest, crIsText, acc + [s[0]]);
        assert acc + [s[0]] + s[1..] == acc + s;
      }
    }
  }

  /** A field survives when it is quoted, or when the reader takes all its characters as text. */
  predicate Readable(field: string, crIsText: bool) {
    NeedsQuotes(field) || crIsText || '\r' !in field
  }

  lemma ReadFieldBack(field: string, rest: string, crIsText: bool)
    requires rest != "" && (rest[0] == ',' || rest[0] == '\n')
    ensures Readable(field, crIsText) ==> ReadField(Cell(field) + rest, crIsText) == Some((field, rest))
    ensures !Readable(field, crIsText) ==>
              var r := ReadField(Cell(field) + rest, crIsText); r.Some? && r.value.1 != "" && r.value.1[0] == '\r'
  {
    if NeedsQuotes(field) {
      Assoc("\"", Doubled(field) + "\"", rest);
      Assoc(Doubled(field), "\"", rest);
      Seam("\"", Doubled(field) + ("\"" + rest));
      ReadQuotedBack(field, rest, "");
      assert "" + field == field;
    } else {
      ReadPlainBack(field, rest, crIsText, "");
      assert "" + field == field;
      assert AllText(field, crIsText) <==> Readable(field, crIsText);
    }
  }

  lemma {:induction false} DoubledLonger(s: string)
    ensures |Doubled(s)| >= |s|
  {
    if s != "" { DoubledLonger(s[1..]); }
  }

  /** A field prints as itself exactly when it holds no comma, no quote and no line feed; otherwise it is
      quoted. */
  lemma PlainFieldsStay(s: string)
    ensures Cell(s) == s <==> forall c :: c in s ==> c != ',' && c != '"' && c != '\n'
    ensures Cell(s) != s ==> |Cell(s)| >= |s| + 2 && Cell(s)[0] == '"' && Cell(s)[|Cell(s)| - 1] == '"'
  {
    DoubledLonger(s);
  }

  /** What follows the first cell of a row. */
  function AfterFirst(fields: seq<string>, rest: string): (r: string)
    requires fields != []
    ensures r != "" && (r[0] == ',' || r[0] == '\n')
  {
    if |fields| == 1 then "\n" + rest else "," + (Row(fields[1..]) + rest)
  }

  lemma RowSplit(fields: seq<string>, rest: string)
    requires fields != []
    ensures Row(fields) + rest == Cell(fields[0]) + AfterFirst(fields, rest)
    ensures AfterFirst(fields, rest)[1..] == if |fields| == 1 then rest else Row(fields[1..]) + rest
  {
    var later := if |fields| == 1 then "\n" else "," + Row(fields[1..]);
    Assoc(Cell(fields[0]), later, rest);
    if |fields| > 1 { Assoc(",", Row(fields[1..]), rest); }
  }

  predicate AllReadable(fields: seq<string>, crIsText: bool) {
    forall f :: f in fields ==> Readable(f, crIsText)
  }

  lemma ReadableSplit(fields: seq<string>, crIsText: bool)
    requires fields != []
    ensures AllReadable(fields, crIsText) <==> Readable(fields[0], crIsText) && AllReadable(fields[1..], crIsText)
    ensures [fields[0]] + fields[1..] == fields && (|fields| == 1 ==> fields == [fields[0]])
  {
    assert forall f :: f in fields <==> f == fields[0] || f in fields[1..];
  }

  /** Reading a printed row of one or more fields back gives exactly its fields, and leaves what
      follows, exactly when no unquoted field contains a CR that the reader refuses. */
  lemma {:induction false} RowRoundTrip(fields: seq<string>, rest: string, crIsText: bool, acc: seq<string>)
    requires fields != []
    ensures ReadRecord(Row(fields) + rest, crIsText, acc) ==
            if AllReadable(fields, crIsText) then Some((acc + fields, rest)) else None
    decreases |fields|
  {
    RowSplit(fields, rest);
    ReadFieldBack(fields[0], AfterFirst(fields, rest), crIsText);
    ReadableSplit(fields, crIsText);
    if |fields| > 1 && Readable(fields[0], crIsText) {
      RowRoundTrip(fields[1..], rest, crIsText, acc + [fields[0]]);
      Assoc(acc, [fields[0]], fields[1..]);
    }
  }

  /** The printer is injective on rows of one or more fields, whatever the fields contain, even when
      more text follows on each side. */
  lemma RowInjective(a: seq<string>, b: seq<string>, restA: string, restB: string)
    requires a != [] && b != [] && Row(a) + restA == Row(b) + restB
    ensures a == b && restA == restB
  {
    RowRoundTrip(a, restA, true, []);
    RowRoundTrip(b, restB, true, []);
    assert [] + a == a && [] + b == b;
  }

  /** The empty row is the one exception: it prints like a row with one empty field. */
  lemma EmptyRowCollides()
    ensures Row([]) == Row([""])
  {
    assert Cell("") + "\n" == "\n";
  }

  function Table(rows: seq<seq<string>>): string {
    if rows == [] then "" else Row(rows[0]) + Table(rows[1..])
  }

  /** Rows printed one after another can be told apart again. */
  lemma {:induction false} TableInjective(a: seq<seq<string>>, b: seq<seq<string>>)
    requires (forall r :: r in a ==> r != []) && (forall r :: r in b ==> r != [])
    requires Table(a) == Table(b)
    ensures a == b
  {
    if a != [] && b != [] {
      assert forall r :: r in a[1..] ==> r in a;
      assert forall r :: r in b[1..] ==> r in b;
      assert a[0] in a && b[0] in b;
      RowInjective(a[0], b[0], Table(a[1..]), Table(b[1..]));
      TableInjective(a[1..], b[1..]);
    }
  }
}
