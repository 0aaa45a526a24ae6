/**
 * `toCSV` (app.js): the first row's keys as the header line, then one line
 * per row, lines separated by `\n`. A cell that is `null` or missing is
 * empty, every `"` is doubled, and a field is quoted iff it holds `"`, `,`
 * or `\n` (the field rules of section 2 of RFC 4180, with `\n` instead of
 * CRLF as the line break and no quoting for a lone `\r`).
 *
 * `ReadTable` is a reader for that format; `TableRoundTrip` shows that it
 * recovers every table of fields from its text.
 */
module Csv {
  import opened JsValues
  import opened Resolver

  /** `s.replace(/"/g, '""')` */
  function EscapeQuotes(s: string): (r: string)
    ensures forall c :: c != '"' ==> (c in r <==> c in s)
    ensures '"' in r <==> '"' in s
  {
    if s == [] then []
    else
      assert s == [s[0]] + s[1..];
      (if s[0] == '"' then "\"\"" else [s[0]]) + EscapeQuotes(s[1..])
  }

  /** `/[",\n]/.test(s)` */
  predicate NeedsQuotes(s: string) {
    '"' in s || ',' in s || '\n' in s
  }

  /** One field as `toCSV` writes it. */
  function Field(s: string): string {
    var e := EscapeQuotes(s);
    if NeedsQuotes(e) then "\"" + e + "\"" else e
  }

  /** `parts.join(sep)` */
  function Join(parts: seq<string>, sep: char): string {
    if parts == [] then ""
    else if |parts| == 1 then parts[0]
    else parts[0] + [sep] + Join(parts[1..], sep)
  }

  /** The fields of one record, written and joined by `,`. */
  function Line(fields: seq<string>): string {
    Join(Written(fields), ',')
  }

  /** Each field as written. */
  function Written(fields: seq<string>): (w: seq<string>)
    ensures |w| == |fields|
  {
    seq(|fields|, i requires 0 <= i < |fields| => Field(fields[i]))
  }

  /** `"" + (r[h] ?? "")` */
  function CellText(v: Option<Value>): string {
    match v
    case None => ""
    case Some(Null) => ""
    case Some(x) => ToJsString(x)
  }

  /** `Object.keys(r)` */
  function Keys(r: Record): (ks: seq<string>)
    ensures |ks| == |r|
  {
    seq(|r|, i requires 0 <= i < |r| => r[i].0)
  }

  /** The cells of row `r` under the given headers. */
  function Cells(headers: seq<string>, r: Record): (cs: seq<string>)
    ensures |cs| == |headers|
  {
    seq(|headers|, i requires 0 <= i < |headers| => CellText(Get(r, headers[i])))
  }

  /** The text `toCSV(rows)` returns. */
  function CsvText(rows: seq<Record>): string {
    if rows == [] then ""
    else
      var headers := Keys(rows[0]);
      Join([Join(headers, ',')] + seq(|rows|, i requires 0 <= i < |rows| => Line(Cells(headers, rows[i]))), '\n')
  }

  /** `toCSV(rows)`: the line array is filled row by row, then joined. */
  method ToCsv(rows: seq<Record>) returns (text: string)
    ensures text == CsvText(rows)
  {
    if |rows| == 0 {
      return "";
    }
    var headers := Keys(rows[0]);
    var lines := [Join(headers, ',')];
    for i := 0 to |rows|
      invariant lines == [Join(headers, ',')] + seq(i, j requires 0 <= j < i => Line(Cells(headers, rows[j])))
    {
      lines := lines + [Line(Cells(headers, rows[i]))];
    }
    text := Join(lines, '\n');
  }

  // ---------------------------------------------------------------------------
  // Reading the text back

  /**
   * The content of a quoted field, read after its opening quote, and the
   * text after its closing quote: `""` stands for one quote and a lone `"`
   * closes the field.
   */
  function ReadQuoted(s: string): (r: Option<(string, string)>)
    ensures r.Some? ==> |r.value.1| < |s|
    decreases |s|
  {
    if s == [] then None
    else if s[0] == '"' then
      if |s| >= 2 && s[1] == '"' then
        match ReadQuoted(s[2..])
        case None => None
        case Some(p) => Some(("\"" + p.0, p.1))
      else Some(("", s[1..]))
    else
      match ReadQuoted(s[1..])
      case None => None
      case Some(p) => Some(([s[0]] + p.0, p.1))
  }

  /** Position of the first `,` or `\n`, or `|s|`. */
  function FieldEnd(s: string): (k: nat)
    ensures k <= |s|
    ensures k < |s| ==> s[k] == ',' || s[k] == '\n'
    ensures forall i :: 0 <= i < k ==> s[i] != ',' && s[i] != '\n'
  {
    if s == [] || s[0] == ',' || s[0] == '\n' then 0 else 1 + FieldEnd(s[1..])
  }

  /** One field and the text after it. */
  function ReadField(s: string): (r: Option<(string, string)>)
    ensures r.Some? ==> |r.value.1| <= |s|
  {
    if s != [] && s[0] == '"' then ReadQuoted(s[1..])
    else
      var k := FieldEnd(s);
      Some((s[..k], s[k..]))
  }

  /** The fields of one record and the text after it, which is empty or starts with the line break. */
  function ReadRecord(s: string): (r: Option<(seq<string>, string)>)
    ensures r.Some? ==> |r.value.1| <= |s| && (r.value.1 == [] || r.value.1[0] == '\n')
    decreases |s|
  {
    match ReadField(s)
    case None => None
    case Some(p) =>
      var f, rest := p.0, p.1;
      if rest == [] || rest[0] == '\n' then Some(([f], rest))
      else if rest[0] == ',' then
        match ReadRecord(rest[1..])
        case None => None
        case Some(q) => Some(([f] + q.0, q.1))
      else None
  }

  /** All records of a text. */
  function ReadTable(s: string): Option<seq<seq<string>>>
    decreases |s|
  {
    match ReadRecord(s)
    case None => None
    case Some(p) =>
      if p.1 == [] then Some([p.0])
      else
        match ReadTable(p.1[1..])
        case None => None
        case Some(t) => Some([p.0] + t)
  }

  // ---------------------------------------------------------------------------

  lemma {:induction false} QuotedRoundTrip(f: string, rest: string)
    requires rest == [] || rest[0] != '"'
    ensures ReadQuoted(EscapeQuotes(f) + "\"" + rest) == Some((f, rest))
  {
    var s := EscapeQuotes(f) + "\"" + rest;
    if f == [] {
      assert s == "\"" + rest;
      assert s[1..] == rest;
    } else if f[0] == '"' {
      assert s == "\"\"" + (EscapeQuotes(f[1..]) + "\"" + rest);
      QuotedRoundTrip(f[1..], rest);
      assert [f[0]] + f[1..] == f;
    } else {
      assert s == [f[0]] + (EscapeQuotes(f[1..]) + "\"" + rest);
      QuotedRoundTrip(f[1..], rest);
      assert [f[0]] + f[1..] == f;
    }
  }

  lemma {:induction false} EscapeWithoutQuotes(s: string)
    requires '"' !in s
    ensures EscapeQuotes(s) == s
  {
    if s != [] {
      assert s == [s[0]] + s[1..];
      EscapeWithoutQuotes(s[1..]);
    }
  }

  /** A written field reads back as itself, whatever follows it at a field or record boundary. */
  lemma {:induction false} FieldRoundTrip(f: string, rest: string)
    requires rest == [] || rest[0] == ',' || rest[0] == '\n'
    ensures ReadField(Field(f) + rest) == Some((f, rest))
  {
    if NeedsQuotes(EscapeQuotes(f)) {
      QuotedFieldRoundTrip(f, rest);
    } else {
      PlainFieldRoundTrip(f, rest);
    }
  }

  lemma {:induction false} QuotedFieldRoundTrip(f: string, rest: string)
    requires NeedsQuotes(EscapeQuotes(f))
    requires rest == [] || rest[0] == ',' || rest[0] == '\n'
    ensures ReadField(Field(f) + rest) == Some((f, rest))
  {
    var e := EscapeQuotes(f);
    var body := e + "\"" + rest;
    assert Field(f) == "\"" + e + "\"";
    Regroup("\"", e, "\"", rest);
    Regroup(e, "\"", rest, "");
    assert Field(f) + rest == "\"" + body;
    DropFirst('"', body);
    QuotedRoundTrip(f, rest);
  }

  lemma {:induction false} DropFirst(c: char, s: string)
    ensures ([c] + s)[0] == c && ([c] + s)[1..] == s
  {
  }

  lemma {:induction false} PlainFieldRoundTrip(f: string, rest: string)
    requires !NeedsQuotes(EscapeQuotes(f))
    requires rest == [] || rest[0] == ',' || rest[0] == '\n'
    ensures ReadField(Field(f) + rest) == Some((f, rest))
  {
    EscapeWithoutQuotes(f);
    assert Field(f) == f;
    var s := f + rest;
    if f != [] {
      assert s[0] == f[0];
      assert f[0] in f;
    }
    forall i | 0 <= i < |f| ensures s[i] != ',' && s[i] != '\n' {
      assert s[i] == f[i] && f[i] in f;
    }
    FieldEndAt(s, |f|);
    assert s[..|f|] == f && s[|f|..] == rest;
  }

  lemma {:induction false} FieldEndAt(s: string, k: nat)
    requires k <= |s| && (k == |s| || s[k] == ',' || s[k] == '\n')
    requires forall i :: 0 <= i < k ==> s[i] != ',' && s[i] != '\n'
    ensures FieldEnd(s) == k
  {
    if k > 0 {
      FieldEndAt(s[1..], k - 1);
    }
  }

  lemma {:induction false} LineCons(fields: seq<string>)
    requires |fields| >= 2
    ensures Line(fields) == Field(fields[0]) + [','] + Line(fields[1..])
  {
    WrittenTail(fields);
    assert Written(fields)[0] == Field(fields[0]);
  }

  lemma {:induction false} WrittenTail(fields: seq<string>)
    requires fields != []
    ensures Written(fields)[1..] == Written(fields[1..])
  {
    forall i | 0 <= i < |fields| - 1 ensures Written(fields)[1..][i] == Written(fields[1..])[i] {
      assert fields[1..][i] == fields[i + 1];
    }
  }

  lemma {:induction false} ReadRecordCons(s: string, f: string, tail: string, fs: seq<string>, rest: string)
    requires ReadField(s) == Some((f, [','] + tail))
    requires ReadRecord(tail) == Some((fs, rest))
    ensures ReadRecord(s) == Some(([f] + fs, rest))
  {
    assert ([','] + tail)[1..] == tail;
  }

  lemma {:induction false} ReadRecordLast(s: string, f: string, rest: string)
    requires ReadField(s) == Some((f, rest))
    requires rest == [] || rest[0] == '\n'
    ensures ReadRecord(s) == Some(([f], rest))
  {
  }

  lemma {:induction false} ReadTableCons(s: string, fields: seq<string>, tail: string, t: seq<seq<string>>)
    requires ReadRecord(s) == Some((fields, ['\n'] + tail))
    requires ReadTable(tail) == Some(t)
    ensures ReadTable(s) == Some([fields] + t)
  {
    assert (['\n'] + tail)[1..] == tail;
  }

  lemma {:induction false} ReadTableLast(s: string, fields: seq<string>)
    requires ReadRecord(s) == Some((fields, ""))
    ensures ReadTable(s) == Some([fields])
  {
  }

  /** A written record reads back as its fields, up to the next line break. */
  lemma {:induction false} RecordRoundTrip(fields: seq<string>, rest: string)
    requires fields != []
    requires rest == [] || rest[0] == '\n'
    ensures ReadRecord(Line(fields) + rest) == Some((fields, rest))
    decreases |fields|
  {
    if |fields| == 1 {
      RecordRoundTripOne(fields, rest);
    } else {
      RecordRoundTrip(fields[1..], rest);
      RecordRoundTripCons(fields, rest);
    }
  }

  lemma {:induction false} RecordRoundTripOne(fields: seq<string>, rest: string)
    requires |fields| == 1
    requires rest == [] || rest[0] == '\n'
    ensures ReadRecord(Line(fields) + rest) == Some((fields, rest))
  {
    assert Line(fields) == Field(fields[0]);
    FieldRoundTrip(fields[0], rest);
    ReadRecordLast(Line(fields) + rest, fields[0], rest);
    assert fields == [fields[0]];
  }

  lemma {:induction false} RecordRoundTripCons(fields: seq<string>, rest: string)
    requires |fields| >= 2
    requires rest == [] || rest[0] == '\n'
    requires ReadRecord(Line(fields[1..]) + rest) == Some((fields[1..], rest))
    ensures ReadRecord(Line(fields) + rest) == Some((fields, rest))
  {
    SplitFirst(fields);
    var tail := Line(fields[1..]) + rest;
    LineCons(fields);
    Regroup(Field(fields[0]), [','], Line(fields[1..]), rest);
    FieldRoundTrip(fields[0], [','] + tail);
    ReadRecordCons(Line(fields) + rest, fields[0], tail, fields[1..], rest);
  }

  lemma {:induction false} SplitFirst<T>(s: seq<T>)
    requires s != []
    ensures [s[0]] + s[1..] == s
  {
  }

  lemma {:induction false} Regroup(a: string, b: string, c: string, d: string)
    ensures a + b + c + d == a + (b + (c + d))
  {
  }

  /** The written lines of a table of records. */
  function Lines(table: seq<seq<string>>): (ls: seq<string>)
    ensures |ls| == |table|
  {
    seq(|table|, i requires 0 <= i < |table| => Line(table[i]))
  }

  /** Writing a table of records and reading the text back gives the same table. */
  lemma {:induction false} TableRoundTrip(table: seq<seq<string>>)
    requires table != []
    requires forall i :: 0 <= i < |table| ==> table[i] != []
    ensures ReadTable(Join(Lines(table), '\n')) == Some(table)
    decreases |table|
  {
    if |table| == 1 {
      TableRoundTripOne(table);
    } else {
      TableRoundTrip(table[1..]);
      TableRoundTripCons(table);
    }
  }

  lemma {:induction false} TableRoundTripOne(table: seq<seq<string>>)
    requires |table| == 1 && table[0] != []
    ensures ReadTable(Join(Lines(table), '\n')) == Some(table)
  {
    var text := Join(Lines(table), '\n');
    assert text == Line(table[0]) + "";
    RecordRoundTrip(table[0], "");
    ReadTableLast(text, table[0]);
    assert table == [table[0]];
  }

  lemma {:induction false} TableRoundTripCons(table: seq<seq<string>>)
    requires |table| >= 2 && table[0] != []
    requires ReadTable(Join(Lines(table[1..]), '\n')) == Some(table[1..])
    ensures ReadTable(Join(Lines(table), '\n')) == Some(table)
  {
    SplitFirst(table);
    var lines := Lines(table);
    LinesTail(table);
    var tail := Join(lines[1..], '\n');
    var text := Join(lines, '\n');
    Regroup(Line(table[0]), ['\n'], tail, "");
    assert text == Line(table[0]) + (['\n'] + tail);
    RecordRoundTrip(table[0], ['\n'] + tail);
    ReadTableCons(text, table[0], tail, table[1..]);
  }

  lemma {:induction false} LinesTail(table: seq<seq<string>>)
    requires table != []
    ensures Lines(table)[1..] == Lines(table[1..])
  {
    forall i | 0 <= i < |table| - 1 ensures Lines(table)[1..][i] == Lines(table[1..])[i] {
      assert table[1..][i] == table[i + 1];
    }
  }

  // ---------------------------------------------------------------------------

  /** A header that needs no quoting. */
  predicate PlainHeader(h: string) {
    !NeedsQuotes(h)
  }

  lemma {:induction false} PlainFieldUnchanged(h: string)
    requires PlainHeader(h)
    ensures Field(h) == h
  {
    EscapeWithoutQuotes(h);
  }

  lemma {:induction false} PlainLine(headers: seq<string>)
    requires forall i :: 0 <= i < |headers| ==> PlainHeader(headers[i])
    ensures Line(headers) == Join(headers, ',')
    decreases |headers|
  {
    var written := Written(headers);
    forall i | 0 <= i < |headers| ensures written[i] == headers[i] {
      PlainFieldUnchanged(headers[i]);
    }
    assert written == headers;
  }

  /**
   * The text of a non-empty row list reads back as the header row followed by
   * each row's cells, as long as the headers need no quoting (the header line
   * is written without escaping).
   */
  lemma {:induction false} CsvReadsBack(rows: seq<Record>)
    requires rows != [] && rows[0] != []
    requires forall i :: 0 <= i < |rows[0]| ==> PlainHeader(rows[0][i].0)
    ensures ReadTable(CsvText(rows)) ==
      Some([Keys(rows[0])] + seq(|rows|, i requires 0 <= i < |rows| => Cells(Keys(rows[0]), rows[i])))
  {
    var headers := Keys(rows[0]);
    var table := [headers] + seq(|rows|, i requires 0 <= i < |rows| => Cells(headers, rows[i]));
    PlainLine(headers);
    assert Lines(table) == [Join(headers, ',')] + seq(|rows|, i requires 0 <= i < |rows| => Line(Cells(headers, rows[i])));
    TableRoundTrip(table);
  }

  /** No rows, no text. */
  lemma EmptyCsv()
    ensures CsvText([]) == ""
  {
  }
}
