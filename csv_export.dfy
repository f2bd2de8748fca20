/**
 * The CSV export of the tables (src/browsers/base/CSVExportButton.js):
 * formatting one cell, assembling the text, and building the header and data
 * rows from the column descriptions.
 */
module CsvExport {
  import opened Wrappers
  import opened Strings
  import opened JsValues
  import opened Columns
  import opened Seqs

  const LineBreak := "\r\n"

  /** The message of the TypeError `formatCell` throws on a value with no `includes` method. */
  const NotText := "TypeError: value.includes is not a function"

  /** The message of the TypeError `formatCell` throws on an array it decides to quote: arrays have no `replace`. */
  const NotReplaceable := "TypeError: value.replace is not a function"

  /** A text cell is quoted when it holds a comma, a double quote or a single quote. */
  predicate NeedsQuoting(s: string) {
    Contains(s, ",") || Contains(s, "\"") || Contains(s, "'")
  }

  /** The text branch of `formatCell` as written: only the first double quote is doubled. */
  function QuoteText(s: string): string {
    if NeedsQuoting(s) then "\"" + ReplaceFirst(s, "\"", "\"\"") + "\"" else s
  }

  /**
   * The text `Array.prototype.join(',')` writes for one element: nothing for
   * `undefined` and `null`, otherwise JavaScript's `String(v)`; a nested array
   * is joined in turn and a plain object reads `[object Object]`.
   */
  function JoinedText(v: Value, numberToString: real -> string): (r: string)
    ensures v.Str? ==> r == v.s
    decreases v
  {
    match v
    case Undefined => ""
    case Null => ""
    case Bool(b) => if b then "true" else "false"
    case Num(x) => numberToString(x)
    case NaN => "NaN"
    case Str(s) => s
    case Arr(items) => Join(seq(|items|, i requires 0 <= i < |items| => JoinedText(items[i], numberToString)), ",")
    case Obj(_) => "[object Object]"
  }

  /** An array has `includes`, which looks for an element equal to the text. */
  predicate HasQuotingElement(items: seq<Value>) {
    Str(",") in items || Str("\"") in items || Str("'") in items
  }

  /**
   * `formatCell`. `numberToString` stands for JavaScript's `String(n)` on a
   * finite number; booleans and objects have no `includes` and throw. An
   * array passes the `includes` test unless one element is exactly `,`, `"`
   * or `'`, in which case `replace` throws; otherwise the array itself is
   * returned and the row's `join` writes its elements joined by commas.
   */
  function FormatCell(v: Value, numberToString: real -> string): (r: Result<string, string>)
    ensures IsNullish(v) ==> r == Ok("")
    ensures v.Num? ==> r == Ok(numberToString(v.x))
    ensures v.Str? ==> r == Ok(QuoteText(v.s))
    ensures v.Arr? ==> (r.Err? <==> HasQuotingElement(v.items))
    ensures v.Arr? && r.Ok? ==> r.value == JoinedText(v, numberToString)
    ensures (v.Bool? || v.Obj?) ==> r.Err?
  {
    match v
    case Undefined => Ok("")
    case Null => Ok("")
    case Num(x) => Ok(numberToString(x))
    case NaN => Ok("NaN")
    case Str(s) => Ok(QuoteText(s))
    case Arr(items) => if HasQuotingElement(items) then Err(NotReplaceable) else Ok(JoinedText(v, numberToString))
    case _ => Err(NotText)
  }

  /**
   * An array of texts none of which is exactly `,`, `"` or `'` is written as
   * its texts joined by commas, without quoting, even when a text holds a comma.
   */
  lemma ArrayCellUnquoted(texts: seq<string>, numberToString: real -> string)
    requires forall k | 0 <= k < |texts| :: texts[k] != "," && texts[k] != "\"" && texts[k] != "'"
    ensures FormatCell(Arr(Map(texts, t => Str(t))), numberToString) == Ok(Join(texts, ","))
  {
    var items := Map(texts, t => Str(t));
    assert !HasQuotingElement(items) by {
      forall k | 0 <= k < |items| ensures items[k] != Str(",") && items[k] != Str("\"") && items[k] != Str("'") {
        assert items[k] == Str(texts[k]);
      }
    }
    var joined := seq(|items|, i requires 0 <= i < |items| => JoinedText(items[i], numberToString));
    assert joined == texts;
  }

  /** An array holding the single text `,` passes the `includes` test and then throws from `replace`. */
  lemma ArrayCellThrows(rest: seq<Value>, numberToString: real -> string)
    ensures FormatCell(Arr([Str(",")] + rest), numberToString) == Err(NotReplaceable)
  {
  }

  // ---------------------------------------------------------------------------
  // Section 2 of RFC 4180: a quoted field doubles every double quote it holds.
  // ---------------------------------------------------------------------------

  /** Every double quote of `s` doubled. */
  function DoubleQuotes(s: string): string
    decreases |s|
  {
    if s == [] then [] else (if s[0] == '"' then "\"\"" else [s[0]]) + DoubleQuotes(s[1..])
  }

  /** The inside of a well-formed quoted field: every double quote is one of a pair. */
  predicate WellDoubled(t: string)
    decreases |t|
  {
    if t == [] then true
    else if t[0] == '"' then |t| >= 2 && t[1] == '"' && WellDoubled(t[2..])
    else WellDoubled(t[1..])
  }

  /** Reading the inside of a quoted field: each pair stands for one double quote. */
  function Undouble(t: string): string
    requires WellDoubled(t)
    decreases |t|
  {
    if t == [] then []
    else if t[0] == '"' then "\"" + Undouble(t[2..])
    else [t[0]] + Undouble(t[1..])
  }

  /** The RFC 4180 escaping of a text cell, under the same quoting condition as `formatCell`. */
  function RfcQuoteText(s: string): string {
    if NeedsQuoting(s) then "\"" + DoubleQuotes(s) + "\"" else s
  }

  /** An RFC 4180 reader of one field: a well-formed quoted field is unquoted, anything else is kept. */
  function ReadField(f: string): string {
    if |f| >= 2 && f[0] == '"' && f[|f| - 1] == '"' && WellDoubled(f[1..|f| - 1]) then Undouble(f[1..|f| - 1])
    else f
  }

  lemma {:induction false} DoubleQuotesRoundTrip(s: string)
    ensures WellDoubled(DoubleQuotes(s)) && Undouble(DoubleQuotes(s)) == s
    decreases |s|
  {
    if s != [] {
      DoubleQuotesRoundTrip(s[1..]);
      var d := DoubleQuotes(s);
      if s[0] == '"' {
        assert d[2..] == DoubleQuotes(s[1..]);
      } else {
        assert d[1..] == DoubleQuotes(s[1..]);
      }
    }
  }

  lemma {:induction false} DoubleQuotesWithoutQuote(s: string)
    requires '"' !in s
    ensures DoubleQuotes(s) == s
    decreases |s|
  {
    if s != [] {
      DoubleQuotesWithoutQuote(s[1..]);
    }
  }

  lemma {:induction false} DoubleQuotesConcat(a: string, b: string)
    ensures DoubleQuotes(a + b) == DoubleQuotes(a) + DoubleQuotes(b)
    decreases |a|
  {
    if a == [] {
      assert a + b == b;
    } else {
      assert (a + b)[1..] == a[1..] + b;
      DoubleQuotesConcat(a[1..], b);
    }
  }

  /** The RFC 4180 escaping is read back to the original text by an RFC 4180 reader. */
  lemma RfcRoundTrip(s: string)
    ensures ReadField(RfcQuoteText(s)) == s
  {
    DoubleQuotesRoundTrip(s);
    if NeedsQuoting(s) {
      var f := "\"" + DoubleQuotes(s) + "\"";
      assert f[1..|f| - 1] == DoubleQuotes(s);
    } else {
      NoQuoteChar(s);
    }
  }

  lemma NoQuoteChar(s: string)
    requires !Contains(s, "\"")
    ensures forall i | 0 <= i < |s| :: s[i] != '"'
  {
    forall i | 0 <= i < |s| ensures s[i] != '"' {
      assert s[i..i + 1] == [s[i]];
      assert !OccursAt(s, "\"", i);
    }
  }

  /** With at most one double quote, `formatCell` agrees with RFC 4180 ... */
  lemma AsWrittenAgreesWithRfcOnOneQuote(s: string)
    requires forall i, j | 0 <= i < j < |s| :: !(s[i] == '"' && s[j] == '"')
    ensures QuoteText(s) == RfcQuoteText(s)
    ensures ReadField(QuoteText(s)) == s
  {
    RfcRoundTrip(s);
    match IndexOf(s, "\"", 0)
    case None =>
      IndexOfIsContains(s, "\"");
      NoQuoteChar(s);
      DoubleQuotesWithoutQuote(s);
    case Some(k) =>
      ReplaceFirstOneQuote(s, k);
  }

  lemma ReplaceFirstOneQuote(s: string, k: nat)
    requires forall i, j | 0 <= i < j < |s| :: !(s[i] == '"' && s[j] == '"')
    requires IndexOf(s, "\"", 0) == Some(k)
    ensures ReplaceFirst(s, "\"", "\"\"") == DoubleQuotes(s)
  {
    OnlyQuoteAt(s, k);
    ReplaceAtOnlyQuote(s, k);
  }

  lemma ReplaceAtOnlyQuote(s: string, k: nat)
    requires k < |s| && s[k] == '"' && '"' !in s[..k] && '"' !in s[k + 1..]
    requires IndexOf(s, "\"", 0) == Some(k)
    ensures ReplaceFirst(s, "\"", "\"\"") == DoubleQuotes(s)
  {
    var a, b := s[..k], s[k + 1..];
    SplitAround(s, k);
    QuoteBetween(a, b);
    assert ReplaceFirst(s, "\"", "\"\"") == a + "\"\"" + b;
  }

  /** The one double quote of `s` is the one found at `k`. */
  lemma OnlyQuoteAt(s: string, k: nat)
    requires forall i, j | 0 <= i < j < |s| :: !(s[i] == '"' && s[j] == '"')
    requires IndexOf(s, "\"", 0) == Some(k)
    ensures k < |s| && s[k] == '"'
    ensures '"' !in s[..k] && '"' !in s[k + 1..]
  {
    assert OccursAt(s, "\"", k);
    assert s[k..k + 1] == "\"";
    forall i | 0 <= i < k ensures s[..k][i] != '"' {
      assert !(s[i] == '"' && s[k] == '"');
    }
    var b := s[k + 1..];
    forall i | 0 <= i < |b| ensures b[i] != '"' {
      assert !(s[k] == '"' && s[k + 1 + i] == '"');
    }
  }

  lemma QuoteBetween(a: string, b: string)
    requires '"' !in a && '"' !in b
    ensures DoubleQuotes(a + ("\"" + b)) == a + "\"\"" + b
  {
    DoubleQuotesWithoutQuote(a);
    DoubleQuotesWithoutQuote(b);
    DoubleQuotesConcat(a, "\"" + b);
    DoubleQuotesConcat("\"", b);
    assert DoubleQuotes("\"") == "\"\"";
  }

  /**
   * ... but not with two: `a"b"c` is exported as `"a""b"c"`, whose inside is
   * not well formed under RFC 4180 because its last quote stands alone.
   */
  lemma AsWrittenLeavesSecondQuote(numberToString: real -> string)
    ensures FormatCell(Str("a\"b\"c"), numberToString) == Ok("\"a\"\"b\"c\"")
    ensures !WellDoubled("a\"\"b\"c")
    ensures RfcQuoteText("a\"b\"c") == "\"a\"\"b\"\"c\""
  {
    var s := "a\"b\"c";
    assert s[1..2] == "\"";
    assert s[0..1] == "a";
    assert OccursAt(s, "\"", 1);
    assert !OccursAt(s, "\"", 0);
    FirstOccurrence(s, "\"", 0, 1);
    assert NeedsQuoting(s);
    assert s[..1] == "a" && s[2..] == "b\"c";
    assert ReplaceFirst(s, "\"", "\"\"") == "a\"\"b\"c";
    assert QuoteText(s) == "\"a\"\"b\"c\"";
    var t := "a\"\"b\"c";
    assert t[1..][2..][1..] == "\"c";
    assert DoubleQuotes(s) == "a\"\"b\"\"c";
  }

  // ---------------------------------------------------------------------------
  // Assembling the text
  // ---------------------------------------------------------------------------

  /** Every cell of every row through `formatCell`, failing at the first cell that throws. */
  function FormatRows(data: seq<seq<Value>>, numberToString: real -> string): (r: Result<seq<seq<string>>, string>)
    ensures r.Ok? ==> |r.value| == |data| && forall i | 0 <= i < |data| :: |r.value[i]| == |data[i]|
    ensures r.Ok? ==> forall i, j | 0 <= i < |data| && 0 <= j < |data[i]| ::
                        FormatCell(data[i][j], numberToString) == Ok(r.value[i][j])
    ensures r.Err? <==> exists i, j | 0 <= i < |data| && 0 <= j < |data[i]| :: FormatCell(data[i][j], numberToString).Err?
  {
    if data == [] then Ok([])
    else
      match FormatRow(data[0], numberToString)
      case Err(e) => Err(e)
      case Ok(first) =>
        match FormatRows(data[1..], numberToString)
        case Err(e) =>
          ghost var i, j :| 0 <= i < |data[1..]| && 0 <= j < |data[1..][i]| && FormatCell(data[1..][i][j], numberToString).Err?;
          assert FormatCell(data[i + 1][j], numberToString).Err?;
          Err(e)
        case Ok(rest) =>
          assert forall i | 1 <= i < |data| :: data[i] == data[1..][i - 1];
          Ok([first] + rest)
  }

  function FormatRow(row: seq<Value>, numberToString: real -> string): (r: Result<seq<string>, string>)
    ensures r.Ok? ==> |r.value| == |row| && forall j | 0 <= j < |row| :: FormatCell(row[j], numberToString) == Ok(r.value[j])
    ensures r.Err? <==> exists j | 0 <= j < |row| :: FormatCell(row[j], numberToString).Err?
  {
    if row == [] then Ok([])
    else
      match FormatCell(row[0], numberToString)
      case Err(e) => Err(e)
      case Ok(c) =>
        match FormatRow(row[1..], numberToString)
        case Err(e) =>
          ghost var j :| 0 <= j < |row[1..]| && FormatCell(row[1..][j], numberToString).Err?;
          assert FormatCell(row[j + 1], numberToString).Err?;
          Err(e)
        case Ok(rest) => Ok([c] + rest)
  }

  function JoinCells(cells: seq<string>): string {
    Join(cells, ",")
  }

  /** The text of `generateCSV` from formatted cells: rows joined by `\r\n`, with a final `\r\n`. */
  function CsvText(cells: seq<seq<string>>): string {
    Join(Map(cells, JoinCells), LineBreak) + LineBreak
  }

  /** `generateCSV` */
  function GenerateCsv(data: seq<seq<Value>>, numberToString: real -> string): Result<string, string> {
    match FormatRows(data, numberToString)
    case Err(e) => Err(e)
    case Ok(cells) => Ok(CsvText(cells))
  }

  predicate NoCarriageReturn(cells: seq<seq<string>>) {
    forall i, j | 0 <= i < |cells| && 0 <= j < |cells[i]| :: '\r' !in cells[i][j]
  }

  lemma {:induction false} JoinCellsNoCarriageReturn(cells: seq<string>)
    requires forall j | 0 <= j < |cells| :: '\r' !in cells[j]
    ensures '\r' !in JoinCells(cells)
    decreases |cells|
  {
    if |cells| > 1 {
      JoinCellsNoCarriageReturn(cells[1..]);
    }
  }

  /**
   * Reading the text back line by line gives one line per row, each the row's
   * cells joined by commas, then the empty piece after the final `\r\n`.
   */
  lemma CsvLines(cells: seq<seq<string>>)
    requires |cells| >= 1 && NoCarriageReturn(cells)
    ensures Split(CsvText(cells), LineBreak) == Map(cells, JoinCells) + [""]
  {
    var lines := Map(cells, JoinCells);
    forall k | 0 <= k < |lines| ensures '\r' !in lines[k] {
      JoinCellsNoCarriageReturn(cells[k]);
    }
    forall k | 0 <= k < |lines + [""]| ensures LineBreak[0] !in (lines + [""])[k] {
      if k < |lines| {
        assert (lines + [""])[k] == lines[k];
      }
    }
    JoinSnoc(lines, "", LineBreak);
    assert CsvText(cells) == Join(lines + [""], LineBreak);
    SplitJoin(lines + [""], LineBreak);
  }

  // ---------------------------------------------------------------------------
  // The rows of an export
  // ---------------------------------------------------------------------------

  /** `col.heading || col.key` */
  function HeaderCell(c: TableColumn): Value {
    Str(if c.heading != "" then c.heading else c.key)
  }

  function DataRow(columns: seq<TableColumn>, d: Value): seq<Value> {
    Map(columns, c => RenderForCsv(c, d))
  }

  /** The rows `exportToCSV` hands to `generateCSV`: the header row, then one row per record. */
  function ExportRows(data: seq<Value>, columns: seq<TableColumn>): (rows: seq<seq<Value>>)
    ensures |rows| == |data| + 1
    ensures forall i | 0 <= i < |rows| :: |rows[i]| == |columns|
    ensures forall j | 0 <= j < |columns| :: rows[0][j] == HeaderCell(columns[j])
    ensures forall i, j | 0 <= i < |data| && 0 <= j < |columns| :: rows[i + 1][j] == RenderForCsv(columns[j], data[i])
  {
    [Map(columns, HeaderCell)] + Map(data, d => DataRow(columns, d))
  }

  /** The export button is disabled exactly when there is nothing to export. */
  predicate ExportDisabled(data: seq<Value>) {
    |data| == 0
  }

  /**
   * An export that formats without error and holds no carriage return reads
   * back as one header line plus one line per record, each with one cell per
   * column before quoting.
   */
  lemma ExportLineCount(data: seq<Value>, columns: seq<TableColumn>, numberToString: real -> string)
    requires FormatRows(ExportRows(data, columns), numberToString).Ok?
    requires NoCarriageReturn(FormatRows(ExportRows(data, columns), numberToString).value)
    ensures GenerateCsv(ExportRows(data, columns), numberToString).Ok?
    ensures |Split(GenerateCsv(ExportRows(data, columns), numberToString).value, LineBreak)| == |data| + 2
  {
    CsvLines(FormatRows(ExportRows(data, columns), numberToString).value);
  }
}
