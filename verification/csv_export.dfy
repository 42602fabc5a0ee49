/** The CSV serialiser of the export script (`customersToCSV` in
    `scripts/export-all-customers.ts`): a header line, then one line per
    customer; the four free-text fields are quoted with inner quotes doubled
    (section 2, rule 7 of RFC 4180), the date and the URL are written raw.
    The parsing functions here are not part of the program: they are the
    reader the serialiser is proved against. */
module CsvExport {
  import opened Wrappers
  import opened Text
  import opened Domain

  const Headers: seq<string> :=
    ["Detection Date", "Company Name", "Industry", "Country", "Description", "Detail URL"]

  const HeaderLine: string := Join(Headers, ",")

  function CountChar(s: string, x: char): (n: nat)
    ensures n <= |s|
  {
    if s == [] then 0 else (if s[0] == x then 1 else 0) + CountChar(s[1..], x)
  }

  /** Every `"` of `r` is the first of a `""` pair. */
  predicate QuotesPaired(r: string)
    decreases |r|
  {
    if r == [] then true
    else if r[0] != '"' then QuotesPaired(r[1..])
    else |r| >= 2 && r[1] == '"' && QuotesPaired(r[2..])
  }

  /** `s.replace(/"/g, '""')`. */
  function DoubleQuotes(s: string): (r: string)
    ensures |r| == |s| + CountChar(s, '"')
    ensures QuotesPaired(r)
  {
    if s == [] then []
    else if s[0] == '"' then "\"\"" + DoubleQuotes(s[1..])
    else [s[0]] + DoubleQuotes(s[1..])
  }

  /** A quoted field: `"` + the doubled text + `"`. */
  function Quote(s: string): string {
    "\"" + DoubleQuotes(s) + "\""
  }

  /** The cells of one customer's row, in header order. */
  function Cells(c: Customer): (r: seq<string>)
    ensures |r| == |Headers|
  {
    [c.detectedDate, Quote(c.name), Quote(c.industry), Quote(c.country), Quote(c.description), c.detailUrl]
  }

  function Row(c: Customer): string {
    Join(Cells(c), ",")
  }

  function Rows(cs: seq<Customer>): (r: seq<string>)
    ensures |r| == |cs|
    ensures forall i :: 0 <= i < |cs| ==> r[i] == Row(cs[i])
  {
    seq(|cs|, i requires 0 <= i < |cs| => Row(cs[i]))
  }

  /** `customersToCSV`. */
  function CustomersToCsv(cs: seq<Customer>): string {
    Join([HeaderLine] + Rows(cs), "\n")
  }

  // ---------------------------------------------------------------------
  // The reader

  /** The body of a quoted field after its opening quote: `""` stands for a
      quote, a lone `"` closes the field. Yields the text and what follows
      the closing quote; None when the field is never closed. */
  function Unescape(r: string): (res: Option<(string, string)>)
    decreases |r|
  {
    if r == [] then None
    else if r[0] == '"' then
      if |r| >= 2 && r[1] == '"' then
        match Unescape(r[2..])
        case None => None
        case Some((s, rest)) => Some(("\"" + s, rest))
      else Some(("", r[1..]))
    else
      match Unescape(r[1..])
      case None => None
      case Some((s, rest)) => Some(([r[0]] + s, rest))
  }

  /** A quoted field followed by a comma: its text and what follows the comma. */
  function QuotedCell(r: string): Option<(string, string)> {
    if r == [] || r[0] != '"' then None
    else
      match Unescape(r[1..])
      case None => None
      case Some((s, rest)) => if rest != [] && rest[0] == ',' then Some((s, rest[1..])) else None
  }

  /** A raw field: everything up to the first comma, and the rest from it. */
  function RawCell(r: string): (res: (string, string))
    ensures res.0 + res.1 == r
    ensures ',' !in res.0
    ensures res.1 == [] || res.1[0] == ','
  {
    if r == [] then ("", "")
    else if r[0] == ',' then ("", r)
    else
      var (a, b) := RawCell(r[1..]);
      assert [r[0]] + (a + b) == r;
      ([r[0]] + a, b)
  }

  /** Reads one row back into a customer; the URL is the rest of the line. */
  function ParseRow(row: string): Option<Customer> {
    var (date, r0) := RawCell(row);
    if r0 == [] then None
    else
      match QuotedCell(r0[1..])
      case None => None
      case Some((name, r1)) =>
        match QuotedCell(r1)
        case None => None
        case Some((industry, r2)) =>
          match QuotedCell(r2)
          case None => None
          case Some((country, r3)) =>
            match QuotedCell(r3)
            case None => None
            case Some((description, url)) =>
              Some(Customer(name, industry, country, description, url, date))
  }

  function Lines(s: string): seq<string> {
    Split(s, '\n')
  }

  function ParseRows(lines: seq<string>): Option<seq<Customer>> {
    if lines == [] then Some([])
    else
      match ParseRow(lines[0])
      case None => None
      case Some(c) =>
        match ParseRows(lines[1..])
        case None => None
        case Some(cs) => Some([c] + cs)
  }

  /** Reads a whole export back: the header line, then one customer per line. */
  function ParseCsv(doc: string): Option<seq<Customer>> {
    var lines := Lines(doc);
    if lines[0] != HeaderLine then None else ParseRows(lines[1..])
  }

  // ---------------------------------------------------------------------
  // Round trips

  /** The doubled text followed by the closing quote reads back as the
      original text, whatever comes after that is not a quote. */
  lemma {:induction false} UnescapeDoubled(s: string, rest: string)
    requires rest == [] || rest[0] != '"'
    ensures Unescape(DoubleQuotes(s) + "\"" + rest) == Some((s, rest))
  {
    if s == [] {
      ClosingQuote(rest);
    } else {
      UnescapeDoubled(s[1..], rest);
      DoubledStep(s, rest);
    }
  }

  /** The closing quote alone ends the field. */
  lemma ClosingQuote(rest: string)
    requires rest == [] || rest[0] != '"'
    ensures Unescape(DoubleQuotes([]) + "\"" + rest) == Some(([], rest))
  {
    assert DoubleQuotes([]) + "\"" + rest == "\"" + rest;
  }

  /** One character more in front of the doubled text reads back as one
      character more of the field. */
  lemma DoubledStep(s: string, rest: string)
    requires s != []
    requires Unescape(DoubleQuotes(s[1..]) + "\"" + rest) == Some((s[1..], rest))
    ensures Unescape(DoubleQuotes(s) + "\"" + rest) == Some((s, rest))
  {
    var tail := DoubleQuotes(s[1..]) + "\"" + rest;
    DoubledFront(s, rest);
    if s[0] == '"' {
      UnescapePair(tail, s[1..], rest);
      assert "\"" + s[1..] == s;
    } else {
      UnescapeCons(s[0], tail, s[1..], rest);
      assert [s[0]] + s[1..] == s;
    }
  }

  /** The doubling of `s`, closed, split after its first character's part. */
  lemma DoubledFront(s: string, rest: string)
    requires s != []
    ensures DoubleQuotes(s) + "\"" + rest
            == (if s[0] == '"' then "\"\"" else [s[0]]) + (DoubleQuotes(s[1..]) + "\"" + rest)
  {
    var head := if s[0] == '"' then "\"\"" else [s[0]];
    var d := DoubleQuotes(s[1..]);
    if s[0] == '"' {
      assert DoubleQuotes(s) == "\"\"" + d;
    } else {
      assert DoubleQuotes(s) == [s[0]] + d;
    }
    AppendAssoc(DoubleQuotes(s), "\"", rest);
    AppendAssoc(head, d, "\"" + rest);
    AppendAssoc(d, "\"", rest);
  }

  /** Reading `""` yields one quote of the text. */
  lemma UnescapePair(tail: string, s': string, rest: string)
    requires Unescape(tail) == Some((s', rest))
    ensures Unescape("\"\"" + tail) == Some(("\"" + s', rest))
  {
    var r := "\"\"" + tail;
    assert r[0] == '"' && r[1] == '"' && r[2..] == tail;
  }

  /** Reading any other character copies it into the text. */
  lemma UnescapeCons(c: char, tail: string, s': string, rest: string)
    requires c != '"' && Unescape(tail) == Some((s', rest))
    ensures Unescape([c] + tail) == Some(([c] + s', rest))
  {
    var r := [c] + tail;
    assert r[0] == c && r[1..] == tail;
  }

  /** Conversely, whatever reads back as a field is exactly the doubled text
      and the closing quote: the escaping loses nothing and adds nothing. */
  lemma {:induction false} UnescapeIsDoubled(r: string, s: string, rest: string)
    requires Unescape(r) == Some((s, rest))
    ensures r == DoubleQuotes(s) + "\"" + rest
    decreases |r|
  {
    if r[0] == '"' {
      if |r| >= 2 && r[1] == '"' {
        var (s', rest') := Unescape(r[2..]).value;
        UnescapeIsDoubled(r[2..], s', rest');
        assert s == "\"" + s' && rest == rest';
        EscapedQuoteStep(r, s', rest);
      } else {
        assert s == "" && rest == r[1..];
        assert r == "\"" + r[1..];
      }
    } else {
      var (s', rest') := Unescape(r[1..]).value;
      UnescapeIsDoubled(r[1..], s', rest');
      assert s == [r[0]] + s' && rest == rest';
      PlainCharStep(r, s', rest);
    }
  }

  /** `""` in front of a doubled text is the doubling of one more quote. */
  lemma EscapedQuoteStep(r: string, s': string, rest: string)
    requires |r| >= 2 && r[0] == '"' && r[1] == '"'
    requires r[2..] == DoubleQuotes(s') + "\"" + rest
    ensures r == DoubleQuotes("\"" + s') + "\"" + rest
  {
    var t := "\"" + s';
    assert t[0] == '"' && t[1..] == s';
    assert DoubleQuotes(t) == "\"\"" + DoubleQuotes(s');
    assert r == r[..2] + r[2..] && r[..2] == "\"\"";
  }

  /** Any other character in front of a doubled text is copied as it is. */
  lemma PlainCharStep(r: string, s': string, rest: string)
    requires |r| >= 1 && r[0] != '"'
    requires r[1..] == DoubleQuotes(s') + "\"" + rest
    ensures r == DoubleQuotes([r[0]] + s') + "\"" + rest
  {
    var c := r[0];
    var t := [c] + s';
    assert t != [] && t[0] == c && t[0] != '"' && t[1..] == s';
    assert DoubleQuotes(t) == [c] + DoubleQuotes(s');
    calc {
      r;
      [c] + r[1..];
      [c] + (DoubleQuotes(s') + "\"" + rest);
      ([c] + DoubleQuotes(s')) + "\"" + rest;
    }
  }

  lemma QuotedCellOf(s: string, rest: string)
    ensures QuotedCell(Quote(s) + "," + rest) == Some((s, rest))
  {
    var r := Quote(s) + "," + rest;
    assert r[0] == '"';
    assert r[1..] == DoubleQuotes(s) + "\"" + ("," + rest);
    UnescapeDoubled(s, "," + rest);
    assert ("," + rest)[1..] == rest;
  }

  lemma {:induction false} RawCellOf(a: string, rest: string)
    requires ',' !in a
    ensures RawCell(a + "," + rest) == (a, "," + rest)
  {
    var r := a + "," + rest;
    if a == [] {
      assert r == "," + rest;
    } else {
      RawCellOf(a[1..], rest);
      assert r[0] == a[0] && r[0] != ',';
      assert r[1..] == a[1..] + "," + rest;
      assert [a[0]] + a[1..] == a;
    }
  }

  /** Joins six cells, written out. */
  lemma JoinSix(a: string, b: string, c: string, d: string, e: string, f: string, sep: string)
    ensures Join([a, b, c, d, e, f], sep) == a + sep + (b + sep + (c + sep + (d + sep + (e + sep + f))))
  {
    JoinCons([a, b, c, d, e, f], sep);
    assert [a, b, c, d, e, f][1..] == [b, c, d, e, f];
    JoinCons([b, c, d, e, f], sep);
    assert [b, c, d, e, f][1..] == [c, d, e, f];
    JoinCons([c, d, e, f], sep);
    assert [c, d, e, f][1..] == [d, e, f];
    JoinCons([d, e, f], sep);
    assert [d, e, f][1..] == [e, f];
    JoinCons([e, f], sep);
    assert [e, f][1..] == [f];
  }

  lemma RowShape(c: Customer)
    ensures Row(c) == c.detectedDate + "," + (Quote(c.name) + "," + (Quote(c.industry) + "," +
      (Quote(c.country) + "," + (Quote(c.description) + "," + c.detailUrl))))
  {
    JoinSix(c.detectedDate, Quote(c.name), Quote(c.industry), Quote(c.country), Quote(c.description), c.detailUrl, ",");
  }

  /** A customer whose date holds no comma is read back from its row. */
  lemma RowRoundTrip(c: Customer)
    requires ',' !in c.detectedDate
    ensures ParseRow(Row(c)) == Some(c)
  {
    var r4 := Quote(c.description) + "," + c.detailUrl;
    var r3 := Quote(c.country) + "," + r4;
    var r2 := Quote(c.industry) + "," + r3;
    var r1 := Quote(c.name) + "," + r2;
    RowShape(c);
    RawCellOf(c.detectedDate, r1);
    assert ("," + r1)[1..] == r1;
    QuotedCellOf(c.name, r2);
    QuotedCellOf(c.industry, r3);
    QuotedCellOf(c.country, r4);
    QuotedCellOf(c.description, c.detailUrl);
  }

  /** What the round trip needs of a customer: no line break in any field
      and no comma in the raw date. */
  predicate Exportable(c: Customer) {
    && '\n' !in c.detectedDate && '\n' !in c.name && '\n' !in c.industry
    && '\n' !in c.country && '\n' !in c.description && '\n' !in c.detailUrl
    && ',' !in c.detectedDate
  }

  lemma {:induction false} DoubleQuotesKeepsLine(s: string)
    requires '\n' !in s
    ensures '\n' !in DoubleQuotes(s)
  {
    if s != [] {
      DoubleQuotesKeepsLine(s[1..]);
    }
  }

  lemma RowIsLine(c: Customer)
    requires Exportable(c)
    ensures '\n' !in Row(c)
  {
    var cells := Cells(c);
    forall i | 0 <= i < |cells| ensures '\n' !in cells[i] {
      if 1 <= i <= 4 {
        var f := [c.name, c.industry, c.country, c.description][i - 1];
        assert cells[i] == Quote(f);
        QuoteKeepsLine(f);
      }
    }
    JoinAvoids(cells, ",", '\n');
  }

  lemma QuoteKeepsLine(s: string)
    requires '\n' !in s
    ensures '\n' !in Quote(s)
  {
    DoubleQuotesKeepsLine(s);
  }

  lemma ParseRowsOfRows(cs: seq<Customer>)
    requires forall i :: 0 <= i < |cs| ==> Exportable(cs[i])
    ensures ParseRows(Rows(cs)) == Some(cs)
  {
    var rows := Rows(cs);
    forall i | 0 <= i < |cs| ensures ParseRow(rows[i]) == Some(cs[i]) {
      RowRoundTrip(cs[i]);
    }
    ParseRowsEach(rows, cs);
  }

  /** Rows that each read back as one customer read back as all of them. */
  lemma {:induction false} ParseRowsEach(rows: seq<string>, cs: seq<Customer>)
    requires |rows| == |cs|
    requires forall i :: 0 <= i < |rows| ==> ParseRow(rows[i]) == Some(cs[i])
    ensures ParseRows(rows) == Some(cs)
  {
    if rows != [] {
      var tl := rows[1..];
      assert ParseRow(rows[0]) == Some(cs[0]);
      assert forall i :: 0 <= i < |tl| ==> tl[i] == rows[i + 1];
      ParseRowsEach(tl, cs[1..]);
      assert [cs[0]] + cs[1..] == cs;
    }
  }

  /** The header line holds no line break, and splits on commas into the
      six column names. */
  lemma HeaderLineCells()
    ensures '\n' !in HeaderLine
    ensures Split(HeaderLine, ',') == Headers
  {
    HeadersArePlain();
    JoinAvoids(Headers, ",", '\n');
    SplitOfJoin(Headers, ',');
  }

  lemma HeadersArePlain()
    ensures forall i :: 0 <= i < |Headers| ==> '\n' !in Headers[i] && ',' !in Headers[i]
  {
  }

  lemma {:induction false} RowsAreLines(cs: seq<Customer>)
    requires forall i :: 0 <= i < |cs| ==> Exportable(cs[i])
    ensures forall i :: 0 <= i < |cs| ==> '\n' !in Rows(cs)[i]
  {
    forall i | 0 <= i < |cs|
      ensures '\n' !in Rows(cs)[i]
    {
      RowIsLine(cs[i]);
    }
  }

  /** The export splits into the header line and one line per customer, in
      their order. */
  lemma CsvLines(cs: seq<Customer>)
    requires forall i :: 0 <= i < |cs| ==> Exportable(cs[i])
    ensures Lines(CustomersToCsv(cs)) == [HeaderLine] + Rows(cs)
  {
    var lines := [HeaderLine] + Rows(cs);
    LinesAreLines(cs);
    SplitOfJoin(lines, '\n');
  }

  /** No line of the export holds a line break. */
  lemma LinesAreLines(cs: seq<Customer>)
    requires forall i :: 0 <= i < |cs| ==> Exportable(cs[i])
    ensures forall i :: 0 <= i < |cs| + 1 ==> '\n' !in ([HeaderLine] + Rows(cs))[i]
  {
    var lines := [HeaderLine] + Rows(cs);
    HeaderLineCells();
    RowsAreLines(cs);
    forall i | 0 <= i < |cs| + 1 ensures '\n' !in lines[i] {
      if i > 0 {
        assert lines[i] == Rows(cs)[i - 1];
      }
    }
  }

  /** The export reads back as the customers it was made of. */
  lemma CsvRoundTrip(cs: seq<Customer>)
    requires forall i :: 0 <= i < |cs| ==> Exportable(cs[i])
    ensures ParseCsv(CustomersToCsv(cs)) == Some(cs)
  {
    CsvLines(cs);
    var lines := [HeaderLine] + Rows(cs);
    assert lines[0] == HeaderLine && lines[1..] == Rows(cs);
    ParseRowsOfRows(cs);
  }

  /** An empty export is the header line alone. */
  lemma EmptyExport()
    ensures CustomersToCsv([]) == HeaderLine
  {
    assert [HeaderLine] + Rows([]) == [HeaderLine];
  }
}
