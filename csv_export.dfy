/** export-to-csv.ts: `arrayToCSV`, which writes a header line and one
    line per object with each field escaped in the manner of section 2 of
    RFC 4180 (rules 6 and 7: quote a field holding a comma, line break or
    double quote, and double every quote inside it; lines end in LF), and
    the first-seen union of object keys that makes the readings header.
    A small quote-aware reader states what the escaping guarantees. */
module CsvExport {
  import opened Wrappers
  import opened Seqs
  import opened Strings

  /** One exported object: `String(value)` of each property, `None` for a
      property that is `null` or `undefined`; an absent key is `undefined`. */
  type CsvRow = map<string, Option<string>>

  /** `includes(c)` on a one-character string is membership. */
  lemma ContainsChar(s: string, c: char)
    ensures Contains(s, [c]) <==> c in s
  {
    if c in s {
      var i :| 0 <= i < |s| && s[i] == c;
      assert OccursAt(s, [c], i);
    }
    if Contains(s, [c]) {
      var i :| OccursAt(s, [c], i);
      assert s[i] == s[i..i + 1][0];
    }
  }

  /** The test that decides quoting: a comma, a newline or a double quote. */
  predicate NeedsQuoting(s: string) {
    ',' in s || '\n' in s || '"' in s
  }

  /** The test is the three `includes` calls of the exporter. */
  lemma NeedsQuotingIsIncludes(s: string)
    ensures NeedsQuoting(s) <==> (Contains(s, ",") || Contains(s, "\n") || Contains(s, "\""))
  {
    ContainsChar(s, ',');
    ContainsChar(s, '\n');
    ContainsChar(s, '"');
  }

  /** `s.replace(/"/g, '""')`. */
  function DoubleQuotes(s: string): (r: string)
    ensures |r| >= |s|
  {
    if s == [] then []
    else (if s[0] == '"' then "\"\"" else [s[0]]) + DoubleQuotes(s[1..])
  }

  /** The text of one non-null field. */
  function EscapeField(s: string): string {
    if NeedsQuoting(s) then "\"" + DoubleQuotes(s) + "\"" else s
  }

  /** The text of the field for `header` in `row`: empty for `null` and
      `undefined`, the escaped string otherwise. */
  function Cell(row: CsvRow, header: string): string {
    if header in row && row[header].Some? then EscapeField(row[header].value) else ""
  }

  /** The value a reader should recover for `header`: the string, or the
      empty string for `null` and `undefined`. */
  function Raw(row: CsvRow, header: string): string {
    if header in row && row[header].Some? then row[header].value else ""
  }

  /** `values.join(',')` for one object: a field per header, in header order. */
  function RowLine(row: CsvRow, headers: seq<string>): string {
    Join(seq(|headers|, i requires 0 <= i < |headers| => Cell(row, headers[i])), ",")
  }

  /** The lines of the output before they are joined. */
  function Lines(data: seq<CsvRow>, headers: seq<string>): (lines: seq<string>)
    ensures |lines| == |data| + 1 && lines[0] == Join(headers, ",")
    ensures forall i :: 0 <= i < |data| ==> lines[i + 1] == RowLine(data[i], headers)
  {
    [Join(headers, ",")] + seq(|data|, i requires 0 <= i < |data| => RowLine(data[i], headers))
  }

  /** What `arrayToCSV(data, headers)` returns. The header line is written
      as it is, without escaping. */
  function CsvText(data: seq<CsvRow>, headers: seq<string>): string {
    if |data| == 0 then Join(headers, ",") + "\n" else Join(Lines(data, headers), "\n")
  }

  /** `arrayToCSV`: the early return for no data, then the loop that
      pushes one line per object onto `csvRows`. */
  method ArrayToCsv(data: seq<CsvRow>, headers: seq<string>) returns (csv: string)
    ensures csv == CsvText(data, headers)
  {
    if |data| == 0 {
      return Join(headers, ",") + "\n";
    }
    var csvRows := [Join(headers, ",")];
    for i := 0 to |data|
      invariant csvRows == Lines(data[..i], headers)
    {
      var values := seq(|headers|, k requires 0 <= k < |headers| => Cell(data[i], headers[k]));
      csvRows := csvRows + [Join(values, ",")];
      assert Lines(data[..i + 1], headers) == Lines(data[..i], headers) + [RowLine(data[i], headers)];
    }
    assert data[..|data|] == data;
    csv := Join(csvRows, "\n");
  }

  /** No data: just the header line, with a trailing newline. */
  lemma EmptyDataIsHeaderLine(headers: seq<string>)
    ensures CsvText([], headers) == Join(headers, ",") + "\n"
  {
  }

  /** With data the output has no trailing newline: it ends with the last
      object's line. */
  lemma NoTrailingNewline(data: seq<CsvRow>, headers: seq<string>)
    requires |data| >= 1
    ensures var text := CsvText(data, headers);
      var last := RowLine(data[|data| - 1], headers);
      |last| <= |text| && text[|text| - |last|..] == last
  {
    JoinEndsWithLast(Lines(data, headers), "\n");
  }

  lemma {:induction false} JoinEndsWithLast(parts: seq<string>, sep: string)
    requires |parts| >= 1
    ensures var j := Join(parts, sep); var last := parts[|parts| - 1];
      |last| <= |j| && j[|j| - |last|..] == last
  {
    if |parts| > 1 {
      JoinEndsWithLast(parts[1..], sep);
    }
  }

  /** Keys of an object that are not headers do not reach the output. */
  lemma OtherKeysIgnored(row: CsvRow, headers: seq<string>, key: string, v: Option<string>)
    requires key !in headers
    ensures RowLine(row[key := v], headers) == RowLine(row, headers)
  {
    var a := seq(|headers|, i requires 0 <= i < |headers| => Cell(row[key := v], headers[i]));
    var b := seq(|headers|, i requires 0 <= i < |headers| => Cell(row, headers[i]));
    assert a == b;
  }

  /** A plain field, quoted and doubled field, or the empty string for
      `null`: the field text of the cell. */
  lemma CellIsEscapedRaw(row: CsvRow, header: string)
    ensures Cell(row, header) == EscapeField(Raw(row, header))
  {
  }

  // ---- The inverse of the escaping ----

  /** Collapses every `""` to `"`. */
  function Collapse(s: string): string {
    if |s| >= 2 && s[0] == '"' && s[1] == '"' then "\"" + Collapse(s[2..])
    else if s == [] then []
    else [s[0]] + Collapse(s[1..])
  }

  /** Strips the outer quotes of a quoted field and collapses its `""`. */
  function Unescape(t: string): string {
    if |t| >= 2 && t[0] == '"' && t[|t| - 1] == '"' then Collapse(t[1..|t| - 1]) else t
  }

  lemma {:induction false} CollapseDoubleQuotes(s: string)
    ensures Collapse(DoubleQuotes(s)) == s
  {
    if s != [] {
      CollapseDoubleQuotes(s[1..]);
      if s[0] == '"' {
        assert DoubleQuotes(s)[2..] == DoubleQuotes(s[1..]);
      } else {
        assert DoubleQuotes(s)[1..] == DoubleQuotes(s[1..]);
      }
    }
  }

  /** Escaping is invertible: stripping the outer quotes and collapsing
      `""` recovers every value. */
  lemma UnescapeEscape(s: string)
    ensures Unescape(EscapeField(s)) == s
  {
    if NeedsQuoting(s) {
      var t := "\"" + DoubleQuotes(s) + "\"";
      assert t[1..|t| - 1] == DoubleQuotes(s);
      CollapseDoubleQuotes(s);
    } else if |s| >= 2 {
      assert s[0] in s;
    }
  }

  // ---- A quote-aware reader ----

  /** Reads the rest of a quoted field after its opening quote: the
      content with `""` collapsed and the text after the closing quote;
      `None` when the closing quote is missing. */
  function ReadQuoted(s: string): (res: Option<(string, string)>)
    ensures res.Some? ==> |res.value.1| < |s|
  {
    if s == [] then None
    else if s[0] == '"' then
      if |s| >= 2 && s[1] == '"' then
        match ReadQuoted(s[2..])
        case None => None
        case Some(p) => Some(("\"" + p.0, p.1))
      else Some(("", s[1..]))
    else
      match ReadQuoted(s[1..])
      case None => None
      case Some(p) => Some(([s[0]] + p.0, p.1))
  }

  /** Reads an unquoted field: everything up to a comma or a newline. */
  function ReadPlain(s: string): (res: (string, string))
    ensures |res.1| <= |s|
  {
    if s == [] || s[0] == ',' || s[0] == '\n' then ("", s)
    else
      var p := ReadPlain(s[1..]);
      ([s[0]] + p.0, p.1)
  }

  /** Reads one field, quoted or not. */
  function ReadField(s: string): (res: Option<(string, string)>)
    ensures res.Some? ==> |res.value.1| <= |s|
  {
    if s != [] && s[0] == '"' then ReadQuoted(s[1..]) else Some(ReadPlain(s))
  }

  /** Reads the comma-separated fields of one line, and the text after its
      newline. */
  function ReadRecord(s: string): (res: Option<(seq<string>, string)>)
    ensures res.Some? ==> |res.value.1| <= |s| && (s != [] ==> |res.value.1| < |s|)
    decreases |s|
  {
    match ReadField(s)
    case None => None
    case Some(p) =>
      var r := p.1;
      if r != [] && r[0] == ',' then
        match ReadRecord(r[1..])
        case None => None
        case Some(q) => Some(([p.0] + q.0, q.1))
      else if r == [] then Some(([p.0], []))
      else if r[0] == '\n' then Some(([p.0], r[1..]))
      else None
  }

  /** Reads a whole text into lines of fields; a final newline ends the
      last line and starts no new one. */
  function ReadCsv(s: string): Option<seq<seq<string>>>
    decreases |s|
  {
    if s == [] then Some([])
    else
      match ReadRecord(s)
      case None => None
      case Some(p) =>
        match ReadCsv(p.1)
        case None => None
        case Some(rest) => Some([p.0] + rest)
  }

  lemma ReadQuotedClose(t: string)
    requires t == [] || t[0] != '"'
    ensures ReadQuoted("\"" + t) == Some(("", t))
  {
    var s := "\"" + t;
    if t != [] {
      assert s[1] == t[0];
    }
    assert s[1..] == t;
  }

  lemma ReadQuotedPair(rest: string, x: string, t: string)
    requires ReadQuoted(rest) == Some((x, t))
    ensures ReadQuoted("\"\"" + rest) == Some(("\"" + x, t))
  {
    var s := "\"\"" + rest;
    assert s[2..] == rest;
  }

  lemma ReadQuotedChar(c: char, rest: string, x: string, t: string)
    requires c != '"' && ReadQuoted(rest) == Some((x, t))
    ensures ReadQuoted([c] + rest) == Some(([c] + x, t))
  {
    var s := [c] + rest;
    assert s[1..] == rest;
  }

  lemma QuotedReadStep(x: string, t: string)
    requires x != []
    requires ReadQuoted(DoubleQuotes(x[1..]) + "\"" + t) == Some((x[1..], t))
    ensures ReadQuoted(DoubleQuotes(x) + "\"" + t) == Some((x, t))
  {
    var rest := DoubleQuotes(x[1..]) + "\"" + t;
    var pre := if x[0] == '"' then "\"\"" else [x[0]];
    assert DoubleQuotes(x) + "\"" + t == pre + rest by {
      assert DoubleQuotes(x) == pre + DoubleQuotes(x[1..]);
    }
    assert ReadQuoted(pre + rest) == Some((x, t)) by {
      if x[0] == '"' {
        ReadQuotedPair(rest, x[1..], t);
      } else {
        ReadQuotedChar(x[0], rest, x[1..], t);
      }
      assert [x[0]] + x[1..] == x;
    }
  }

  lemma {:induction false} QuotedRead(x: string, t: string)
    requires t == [] || t[0] != '"'
    ensures ReadQuoted(DoubleQuotes(x) + "\"" + t) == Some((x, t))
  {
    if x == [] {
      assert DoubleQuotes(x) + "\"" + t == "\"" + t;
      ReadQuotedClose(t);
    } else {
      QuotedRead(x[1..], t);
      QuotedReadStep(x, t);
    }
  }

  lemma {:induction false} PlainRead(x: string, t: string)
    requires ',' !in x && '\n' !in x
    requires t == [] || t[0] == ',' || t[0] == '\n'
    ensures ReadPlain(x + t) == (x, t)
  {
    if x != [] {
      var s := x + t;
      assert s[0] == x[0] && s[1..] == x[1..] + t;
      assert x[0] != ',' && x[0] != '\n' by {
        assert x[0] in x;
      }
      assert ',' !in x[1..] && '\n' !in x[1..];
      PlainRead(x[1..], t);
      assert [x[0]] + x[1..] == x;
    } else {
      assert x + t == t;
    }
  }

  /** Every escaped field reads back as its value when a comma, a newline
      or the end of the text follows it. */
  lemma FieldRead(x: string, t: string)
    requires t == [] || t[0] == ',' || t[0] == '\n'
    ensures ReadField(EscapeField(x) + t) == Some((x, t))
  {
    if NeedsQuoting(x) {
      var s := "\"" + DoubleQuotes(x) + "\"" + t;
      assert s[1..] == DoubleQuotes(x) + "\"" + t;
      QuotedRead(x, t);
    } else {
      if x != [] {
        assert x[0] in x;
        assert (x + t)[0] == x[0];
      }
      PlainRead(x, t);
    }
  }

  /** The field texts of a list of values. */
  function Escaped(xs: seq<string>): (es: seq<string>)
    ensures |es| == |xs| && forall i :: 0 <= i < |xs| ==> es[i] == EscapeField(xs[i])
  {
    seq(|xs|, i requires 0 <= i < |xs| => EscapeField(xs[i]))
  }

  lemma ReadRecordComma(s: string, f: string, r: string, fs: seq<string>, r2: string)
    requires ReadField(s) == Some((f, "," + r)) && ReadRecord(r) == Some((fs, r2))
    ensures ReadRecord(s) == Some(([f] + fs, r2))
  {
    assert ("," + r)[1..] == r;
  }

  lemma ReadRecordEnd(s: string, f: string, t: string)
    requires ReadField(s) == Some((f, t)) && (t == [] || t[0] == '\n')
    ensures ReadRecord(s) == Some(([f], if t == [] then [] else t[1..]))
  {
  }

  lemma RecordReadOne(xs: seq<string>, t: string)
    requires |xs| == 1
    requires t == [] || t[0] == '\n'
    ensures ReadRecord(Join(Escaped(xs), ",") + t) == Some((xs, if t == [] then [] else t[1..]))
  {
    assert Join(Escaped(xs), ",") == EscapeField(xs[0]);
    FieldRead(xs[0], t);
    ReadRecordEnd(EscapeField(xs[0]) + t, xs[0], t);
    assert [xs[0]] == xs;
  }

  lemma JoinEscapedCons(xs: seq<string>)
    requires |xs| >= 2
    ensures Join(Escaped(xs), ",") == EscapeField(xs[0]) + "," + Join(Escaped(xs[1..]), ",")
  {
    assert Escaped(xs)[1..] == Escaped(xs[1..]);
  }

  lemma EscapedFieldThenComma(xs: seq<string>, rest: string, t2: string)
    requires |xs| >= 1 && ReadRecord(rest) == Some((xs[1..], t2))
    ensures ReadRecord(EscapeField(xs[0]) + ("," + rest)) == Some((xs, t2))
  {
    FieldRead(xs[0], "," + rest);
    ReadRecordComma(EscapeField(xs[0]) + ("," + rest), xs[0], rest, xs[1..], t2);
    assert [xs[0]] + xs[1..] == xs;
  }

  lemma RecordReadStep(xs: seq<string>, t: string, t2: string)
    requires |xs| >= 2
    requires ReadRecord(Join(Escaped(xs[1..]), ",") + t) == Some((xs[1..], t2))
    ensures ReadRecord(Join(Escaped(xs), ",") + t) == Some((xs, t2))
  {
    LineSplit(xs, t);
    EscapedFieldThenComma(xs, Join(Escaped(xs[1..]), ",") + t, t2);
  }

  lemma LineSplit(xs: seq<string>, t: string)
    requires |xs| >= 2
    ensures Join(Escaped(xs), ",") + t == EscapeField(xs[0]) + ("," + (Join(Escaped(xs[1..]), ",") + t))
  {
    JoinEscapedCons(xs);
  }

  /** A line of escaped fields reads back as the list of values: the
      number of fields is kept, whatever commas, quotes and newlines the
      values hold. */
  lemma {:induction false} RecordRead(xs: seq<string>, t: string)
    requires |xs| >= 1
    requires t == [] || t[0] == '\n'
    ensures ReadRecord(Join(Escaped(xs), ",") + t) == Some((xs, if t == [] then [] else t[1..]))
  {
    if |xs| == 1 {
      RecordReadOne(xs, t);
    } else {
      RecordRead(xs[1..], t);
      RecordReadStep(xs, t, if t == [] then [] else t[1..]);
    }
  }

  /** The text of one line of values. */
  function LineText(rec: seq<string>): string {
    Join(Escaped(rec), ",")
  }

  /** The text of a list of lines of values. */
  function Text(recs: seq<seq<string>>): string {
    Join(seq(|recs|, i requires 0 <= i < |recs| => LineText(recs[i])), "\n")
  }

  lemma TextCons(recs: seq<seq<string>>)
    requires |recs| >= 2
    ensures Text(recs) == LineText(recs[0]) + "\n" + Text(recs[1..])
  {
    var lines := seq(|recs|, i requires 0 <= i < |recs| => LineText(recs[i]));
    assert lines[1..] == seq(|recs| - 1, i requires 0 <= i < |recs| - 1 => LineText(recs[1..][i]));
  }

  lemma ReadCsvStep(s: string, fs: seq<string>, r: string, rest: seq<seq<string>>)
    requires s != [] && ReadRecord(s) == Some((fs, r)) && ReadCsv(r) == Some(rest)
    ensures ReadCsv(s) == Some([fs] + rest)
  {
  }

  lemma TextReadOne(recs: seq<seq<string>>, t: string)
    requires |recs| == 1 && |recs[0]| >= 1
    requires t == [] || t == "\n"
    requires LineText(recs[0]) + t != []
    ensures ReadCsv(Text(recs) + t) == Some(recs)
  {
    assert Text(recs) == LineText(recs[0]);
    RecordRead(recs[0], t);
    assert ReadCsv([]) == Some([]);
    ReadCsvStep(Text(recs) + t, recs[0], [], []);
    assert [recs[0]] + [] == recs;
  }

  lemma TextReadStep(recs: seq<seq<string>>, t: string)
    requires |recs| >= 2 && |recs[0]| >= 1
    requires t == [] || t == "\n"
    requires ReadCsv(Text(recs[1..]) + t) == Some(recs[1..])
    ensures ReadCsv(Text(recs) + t) == Some(recs)
  {
    var restText := Text(recs[1..]) + t;
    TextSplit(recs, t);
    FirstLineRead(recs[0], restText);
    ReadCsvStep(LineText(recs[0]) + ("\n" + restText), recs[0], restText, recs[1..]);
    assert [recs[0]] + recs[1..] == recs;
  }

  lemma TextSplit(recs: seq<seq<string>>, t: string)
    requires |recs| >= 2
    ensures Text(recs) + t == LineText(recs[0]) + ("\n" + (Text(recs[1..]) + t))
  {
    TextCons(recs);
  }

  /** A line followed by a newline reads as its values, up to the newline. */
  lemma FirstLineRead(xs: seq<string>, restText: string)
    requires |xs| >= 1
    ensures ReadRecord(LineText(xs) + ("\n" + restText)) == Some((xs, restText))
  {
    RecordRead(xs, "\n" + restText);
    assert ("\n" + restText)[1..] == restText;
  }

  /** Lines of escaped fields read back as the lines of values, with or
      without a final newline, provided the text does not end in an empty
      line (an empty last line is indistinguishable from none). */
  lemma {:induction false} TextRead(recs: seq<seq<string>>, t: string)
    requires |recs| >= 1 && forall i :: 0 <= i < |recs| ==> |recs[i]| >= 1
    requires t == [] || t == "\n"
    requires LineText(recs[|recs| - 1]) + t != []
    ensures ReadCsv(Text(recs) + t) == Some(recs)
  {
    if |recs| == 1 {
      TextReadOne(recs, t);
    } else {
      var tail := recs[1..];
      assert ReadCsv(Text(tail) + t) == Some(tail) by {
        assert tail[|tail| - 1] == recs[|recs| - 1];
        assert forall i :: 0 <= i < |tail| ==> tail[i] == recs[i + 1];
        TextRead(tail, t);
      }
      TextReadStep(recs, t);
    }
  }

  /** The values of one object in header order, as a reader recovers them. */
  function RawLine(row: CsvRow, headers: seq<string>): (vs: seq<string>)
    ensures |vs| == |headers| && forall k :: 0 <= k < |headers| ==> vs[k] == Raw(row, headers[k])
  {
    seq(|headers|, k requires 0 <= k < |headers| => Raw(row, headers[k]))
  }

  lemma RowLineIsEscaped(row: CsvRow, headers: seq<string>)
    ensures RowLine(row, headers) == Join(Escaped(RawLine(row, headers)), ",")
  {
    forall k | 0 <= k < |headers| ensures Cell(row, headers[k]) == EscapeField(Raw(row, headers[k])) {
      CellIsEscapedRaw(row, headers[k]);
    }
    assert seq(|headers|, i requires 0 <= i < |headers| => Cell(row, headers[i])) == Escaped(RawLine(row, headers));
  }

  lemma HeaderLineIsEscaped(headers: seq<string>)
    requires forall k :: 0 <= k < |headers| ==> !NeedsQuoting(headers[k])
    ensures Join(headers, ",") == LineText(headers)
  {
    assert Escaped(headers) == headers;
  }

  /** What a reader gets back: the header line, then each object's values
      in header order with `null` and `undefined` as empty fields. */
  function Table(data: seq<CsvRow>, headers: seq<string>): (recs: seq<seq<string>>)
    ensures |recs| == |data| + 1 && recs[0] == headers
    ensures forall i :: 0 <= i < |data| ==> recs[i + 1] == RawLine(data[i], headers)
  {
    [headers] + seq(|data|, i requires 0 <= i < |data| => RawLine(data[i], headers))
  }

  /** The exporter's lines are the texts of the reader's lines. */
  lemma LinesAreLineTexts(data: seq<CsvRow>, headers: seq<string>)
    requires forall k :: 0 <= k < |headers| ==> !NeedsQuoting(headers[k])
    ensures var recs := Table(data, headers);
      Lines(data, headers) == seq(|recs|, i requires 0 <= i < |recs| => LineText(recs[i]))
  {
    var recs := Table(data, headers);
    var lines := seq(|recs|, i requires 0 <= i < |recs| => LineText(recs[i]));
    forall i | 0 <= i < |recs| ensures Lines(data, headers)[i] == lines[i] {
      if i == 0 {
        HeaderLineIsEscaped(headers);
      } else {
        RowLineIsEscaped(data[i - 1], headers);
      }
    }
  }

  lemma RoundTripHeaderOnly(headers: seq<string>)
    requires |headers| >= 1 && forall k :: 0 <= k < |headers| ==> !NeedsQuoting(headers[k])
    ensures ReadCsv(CsvText([], headers)) == Some(Table([], headers))
  {
    var recs := Table([], headers);
    assert recs == [headers];
    assert Text(recs) == Join(headers, ",") by {
      HeaderLineIsEscaped(headers);
    }
    TextRead(recs, "\n");
  }

  lemma CsvTextIsText(data: seq<CsvRow>, headers: seq<string>)
    requires forall k :: 0 <= k < |headers| ==> !NeedsQuoting(headers[k])
    requires |data| >= 1
    ensures CsvText(data, headers) == Text(Table(data, headers))
  {
    LinesAreLineTexts(data, headers);
  }

  lemma TextReadBare(recs: seq<seq<string>>)
    requires |recs| >= 1 && forall i :: 0 <= i < |recs| ==> |recs[i]| >= 1
    requires LineText(recs[|recs| - 1]) != []
    ensures ReadCsv(Text(recs)) == Some(recs)
  {
    assert LineText(recs[|recs| - 1]) + [] == LineText(recs[|recs| - 1]);
    TextRead(recs, []);
    assert Text(recs) + [] == Text(recs);
  }

  lemma LastLineText(data: seq<CsvRow>, headers: seq<string>)
    requires |data| >= 1
    ensures var recs := Table(data, headers);
      LineText(recs[|recs| - 1]) == RowLine(data[|data| - 1], headers)
  {
    RowLineIsEscaped(data[|data| - 1], headers);
  }

  lemma RoundTripWithData(data: seq<CsvRow>, headers: seq<string>)
    requires |headers| >= 1 && forall k :: 0 <= k < |headers| ==> !NeedsQuoting(headers[k])
    requires |data| >= 1 && RowLine(data[|data| - 1], headers) != ""
    ensures ReadCsv(CsvText(data, headers)) == Some(Table(data, headers))
  {
    var recs := Table(data, headers);
    assert ReadCsv(Text(recs)) == Some(recs) by {
      LastLineText(data, headers);
      TextReadBare(recs);
    }
    assert CsvText(data, headers) == Text(recs) by {
      CsvTextIsText(data, headers);
    }
  }

  /** The output of `arrayToCSV` reads back as the header line and one
      line per object with exactly one field per header, holding the
      object's values; a comma, quote or newline inside a value never
      shifts a column. Headers are written unescaped, so they must not
      need quoting; and a single-column export whose last value is empty
      ends in an empty line, which a reader cannot see (see
      `SingleEmptyColumnIsAmbiguous`). */
  lemma CsvRoundTrip(data: seq<CsvRow>, headers: seq<string>)
    requires |headers| >= 1 && forall k :: 0 <= k < |headers| ==> !NeedsQuoting(headers[k])
    requires |data| >= 1 ==> RowLine(data[|data| - 1], headers) != ""
    ensures ReadCsv(CsvText(data, headers)) == Some(Table(data, headers))
  {
    if |data| == 0 {
      RoundTripHeaderOnly(headers);
    } else {
      RoundTripWithData(data, headers);
    }
  }

  /** The hole: with a single header, no data and one object whose value
      is `null` give the same text. */
  lemma SingleEmptyColumnIsAmbiguous(h: string)
    ensures CsvText([map[h := None]], [h]) == CsvText([], [h])
  {
    var row: CsvRow := map[h := None];
    assert RowLine(row, [h]) == "" by {
      assert seq(1, i requires 0 <= i < 1 => Cell(row, [h][i])) == [""];
    }
    assert Lines([row], [h]) == [h, ""];
    assert [h, ""][1..] == [""];
    assert Join([h, ""], "\n") == h + "\n" + "";
  }

  // ---- The readings header ----

  /** All keys of all objects, in order, with repetitions. */
  function Flatten(keyLists: seq<seq<string>>): seq<string> {
    if keyLists == [] then [] else Flatten(keyLists[..|keyLists| - 1]) + keyLists[|keyLists| - 1]
  }

  /** `allKeys.add(key)` for every key of every object, then
      `Array.from(allKeys)`: the keys in first-seen order, each once. */
  method UnionKeys(keyLists: seq<seq<string>>) returns (all: seq<string>)
    ensures all == Distinct(Flatten(keyLists))
  {
    all := [];
    for i := 0 to |keyLists|
      invariant all == Distinct(Flatten(keyLists[..i]))
    {
      var keys := keyLists[i];
      ghost var seen := Flatten(keyLists[..i]);
      assert seen + keys[..0] == seen;
      for j := 0 to |keys|
        invariant all == Distinct(seen + keys[..j])
      {
        UnionStep(seen, keys, j);
        if keys[j] !in all {
          all := all + [keys[j]];
        }
      }
      assert keys[..|keys|] == keys;
      FlattenSnoc(keyLists, i);
    }
    assert keyLists[..|keyLists|] == keyLists;
  }

  lemma FlattenSnoc(keyLists: seq<seq<string>>, i: nat)
    requires i < |keyLists|
    ensures Flatten(keyLists[..i + 1]) == Flatten(keyLists[..i]) + keyLists[i]
  {
    assert keyLists[..i + 1][..i] == keyLists[..i];
  }

  lemma DistinctMembership(s: seq<string>, x: string)
    ensures x in Distinct(s) <==> x in s
  {
  }

  /** Adding one more key to the set: appended when it is new. */
  lemma UnionStep(seen: seq<string>, keys: seq<string>, j: nat)
    requires j < |keys|
    ensures var d := Distinct(seen + keys[..j]);
      Distinct(seen + keys[..j + 1]) == if keys[j] in d then d else d + [keys[j]]
  {
    assert seen + keys[..j + 1] == (seen + keys[..j]) + [keys[j]];
    DistinctSnoc(seen + keys[..j], keys[j]);
    DistinctMembership(seen + keys[..j], keys[j]);
  }

  /** Every key of every object is a header exactly once, and nothing
      else is. */
  lemma UnionKeysCoversAll(keyLists: seq<seq<string>>, i: nat, k: string)
    requires i < |keyLists| && k in keyLists[i]
    ensures k in Distinct(Flatten(keyLists)) && NoDuplicates(Distinct(Flatten(keyLists)))
  {
    FlattenContains(keyLists, i, k);
    DistinctMembership(Flatten(keyLists), k);
  }

  lemma {:induction false} FlattenContains(keyLists: seq<seq<string>>, i: nat, k: string)
    requires i < |keyLists| && k in keyLists[i]
    ensures k in Flatten(keyLists)
  {
    if i < |keyLists| - 1 {
      FlattenContains(keyLists[..|keyLists| - 1], i, k);
    }
  }
}
