/**
 * The column descriptions shared by the variant table, the gene-results
 * table and the CSV export: what a browser configures for a result column,
 * and what the tables build from it.
 */
module Columns {
  import opened Wrappers
  import opened JsValues

  /** The two comparators the tables use: `(a, b) => a - b` and `(a, b) => a.localeCompare(b)`. */
  datatype SortFunction = Subtract | LocaleCompareFn

  function Compare(f: SortFunction, a: Value, b: Value): int {
    match f
    case Subtract => SubtractSign(a, b)
    case LocaleCompareFn => LocaleCompareValues(a, b)
  }

  /**
   * A configured `renderForCSV` of a cell value. The only one the browsers
   * configure is `(value) => (value ? 'yes' : '')`.
   */
  datatype CellRenderer = YesIfTruthy

  function ApplyCellRenderer(r: CellRenderer, v: Value): Value {
    match r
    case YesIfTruthy => if Truthy(v) then Str("yes") else Str("")
  }

  /** A result column as a browser configures it; absent properties are `None`. */
  datatype ResultColumn = ResultColumn(
    key: string,
    heading: Option<string>,
    minWidth: Option<int>,
    renderForCsv: Option<CellRenderer>,
    showOnGenePage: Option<bool>)

  /** How a table column is sorted: by the value at `sortKey`, with `sortFunction`. */
  datatype SortBy = SortBy(sortKey: string, sortFunction: SortFunction)

  /** A column as the tables and the CSV export use it. */
  datatype TableColumn = TableColumn(
    key: string,
    heading: string,
    isSortable: bool,
    sortBy: Option<SortBy>,
    minWidth: int,
    csv: Option<CellRenderer>)

  /** `column.heading || column.key` */
  function HeadingOrKey(c: ResultColumn): string {
    if c.heading.Some? && c.heading.value != "" then c.heading.value else c.key
  }

  /** `column.minWidth || 65` */
  function MinWidthOrDefault(c: ResultColumn): int {
    if c.minWidth.Some? && c.minWidth.value != 0 then c.minWidth.value else 65
  }

  /** A column's `renderForCSV(row, key)`: lodash `get(row, key)`, passed through the configured renderer if any. */
  function RenderForCsv(c: TableColumn, row: Value): Value {
    match c.csv
    case None => Get(row, c.key)
    case Some(r) => ApplyCellRenderer(r, Get(row, c.key))
  }

  /** `columns.find((c) => c.key === key)` */
  function FindColumn(columns: seq<TableColumn>, key: string): (r: Option<TableColumn>)
    ensures r.Some? ==> r.value in columns && r.value.key == key
    ensures r.None? ==> forall c | c in columns :: c.key != key
  {
    if columns == [] then None
    else if columns[0].key == key then Some(columns[0])
    else FindColumn(columns[1..], key)
  }

  /** `find` answers the first column with the key, whatever follows it. */
  lemma {:induction false} FindColumnFirst(prefix: seq<TableColumn>, rest: seq<TableColumn>, key: string)
    requires exists c | c in prefix :: c.key == key
    ensures FindColumn(prefix + rest, key) == FindColumn(prefix, key)
  {
    if prefix[0].key != key {
      assert (prefix + rest)[1..] == prefix[1..] + rest;
      FindColumnFirst(prefix[1..], rest, key);
    }
  }

  /** A key absent from the prefix is looked up in what follows it. */
  lemma {:induction false} FindColumnSkip(prefix: seq<TableColumn>, rest: seq<TableColumn>, key: string)
    requires forall c | c in prefix :: c.key != key
    ensures FindColumn(prefix + rest, key) == FindColumn(rest, key)
  {
    if prefix == [] {
      assert prefix + rest == rest;
    } else {
      assert prefix[0] in prefix;
      assert (prefix + rest)[1..] == prefix[1..] + rest;
      FindColumnSkip(prefix[1..], rest, key);
    }
  }
}
