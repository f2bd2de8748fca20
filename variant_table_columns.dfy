/**
 * The variant table's columns (src/browsers/base/GenePage/variantTableColumns.js):
 * nine fixed columns followed by one column per configured result column.
 */
module VariantTableColumns {
  import opened Wrappers
  import opened JsValues
  import opened Columns

  function NumericColumn(key: string, heading: string, minWidth: int): TableColumn {
    TableColumn(key, heading, true, Some(SortBy(key, Subtract)), minWidth, None)
  }

  /** `baseColumns`, in their order on screen. */
  const BaseColumns: seq<TableColumn> := [
    TableColumn("variant_id", "Variant ID", true, Some(SortBy("pos", Subtract)), 130, None),
    TableColumn("hgvs", "HGVSp/c", true, Some(SortBy("hgvs", LocaleCompareFn)), 130, None),
    TableColumn("consequence", "Consequence", true, Some(SortBy("consequence", LocaleCompareFn)), 180, None),
    NumericColumn("group_result.ac_case", "AC Case", 75),
    NumericColumn("group_result.an_case", "AN Case", 75),
    NumericColumn("group_result.ac_ctrl", "AC Control", 75),
    NumericColumn("group_result.an_ctrl", "AN Control", 75),
    NumericColumn("group_result.af_case", "AF Case", 80),
    NumericColumn("group_result.af_ctrl", "AF Control", 80)
  ]

  /** The column `getVariantTableColumns` builds from one configured result column. */
  function ResultTableColumn(c: ResultColumn): TableColumn {
    TableColumn(c.key, HeadingOrKey(c), true, Some(SortBy(c.key, Subtract)), MinWidthOrDefault(c), c.renderForCsv)
  }

  /** `getVariantTableColumns`: the base columns, then one column per result column in input order. */
  function GetVariantTableColumns(resultColumns: seq<ResultColumn>): (r: seq<TableColumn>)
    ensures |r| == |BaseColumns| + |resultColumns|
    ensures r[..|BaseColumns|] == BaseColumns
    ensures forall i | 0 <= i < |resultColumns| :: r[|BaseColumns| + i].key == resultColumns[i].key
  {
    BaseColumns + seq(|resultColumns|, i requires 0 <= i < |resultColumns| => ResultTableColumn(resultColumns[i]))
  }

  /** The columns the variant table shows: those not marked `showOnGenePage: false`. */
  function ShownOnGenePage(resultColumns: seq<ResultColumn>): (r: seq<ResultColumn>)
    ensures forall c | c in r :: c in resultColumns && c.showOnGenePage != Some(false)
    ensures forall c | c in resultColumns && c.showOnGenePage != Some(false) :: c in r
  {
    if resultColumns == [] then []
    else
      var rest := ShownOnGenePage(resultColumns[1..]);
      if resultColumns[0].showOnGenePage == Some(false) then rest else [resultColumns[0]] + rest
  }

  /**
   * Every column is sortable with the numeric comparator on its own key,
   * except `variant_id` (sorted numerically by `pos`) and `hgvs` and
   * `consequence` (sorted as text).
   */
  lemma SortMetadata(resultColumns: seq<ResultColumn>)
    ensures forall c | c in GetVariantTableColumns(resultColumns) :: c.isSortable && c.sortBy.Some?
    ensures forall i | 0 < i < |GetVariantTableColumns(resultColumns)| ::
              GetVariantTableColumns(resultColumns)[i].sortBy.value.sortKey == GetVariantTableColumns(resultColumns)[i].key
    ensures forall i | 2 < i < |GetVariantTableColumns(resultColumns)| ::
              GetVariantTableColumns(resultColumns)[i].sortBy.value.sortFunction == Subtract
  {
    var r := GetVariantTableColumns(resultColumns);
    forall c | c in r ensures c.isSortable && c.sortBy.Some? {
      var i :| 0 <= i < |r| && r[i] == c;
      ColumnSortMetadata(resultColumns, i);
    }
    forall i | 0 < i < |r| ensures r[i].sortBy.value.sortKey == r[i].key {
      ColumnSortMetadata(resultColumns, i);
    }
    forall i | 2 < i < |r| ensures r[i].sortBy.value.sortFunction == Subtract {
      ColumnSortMetadata(resultColumns, i);
    }
  }

  lemma ColumnSortMetadata(resultColumns: seq<ResultColumn>, i: nat)
    requires i < |GetVariantTableColumns(resultColumns)|
    ensures var c := GetVariantTableColumns(resultColumns)[i];
            c.isSortable && c.sortBy.Some? &&
            (0 < i ==> c.sortBy.value.sortKey == c.key) &&
            (2 < i ==> c.sortBy.value.sortFunction == Subtract)
  {
    var r := GetVariantTableColumns(resultColumns);
    if i < |BaseColumns| {
      assert r[i] == r[..|BaseColumns|][i];
    }
  }

  /** A configured column's heading defaults to its key and its width to 65. */
  lemma ResultColumnDefaults(resultColumns: seq<ResultColumn>, i: nat)
    requires i < |resultColumns|
    ensures var col := GetVariantTableColumns(resultColumns)[|BaseColumns| + i];
            (resultColumns[i].heading.None? ==> col.heading == resultColumns[i].key) &&
            (resultColumns[i].minWidth.None? ==> col.minWidth == 65) &&
            (forall row :: RenderForCsv(col, row) ==
               if resultColumns[i].renderForCsv.None? then Get(row, resultColumns[i].key)
               else ApplyCellRenderer(resultColumns[i].renderForCsv.value, Get(row, resultColumns[i].key)))
  {
  }

  /**
   * Looking up the sort column `variant_id` finds the base column, whatever the
   * configured columns are: sorting by Variant ID means sorting numerically by `pos`.
   */
  lemma VariantIdSortsByPosition(resultColumns: seq<ResultColumn>)
    ensures FindColumn(GetVariantTableColumns(resultColumns), "variant_id") ==
            Some(TableColumn("variant_id", "Variant ID", true, Some(SortBy("pos", Subtract)), 130, None))
  {
    var cols := GetVariantTableColumns(resultColumns);
    assert cols == BaseColumns + cols[|BaseColumns|..];
    assert BaseColumns[0] in BaseColumns;
    FindColumnFirst(BaseColumns, cols[|BaseColumns|..], "variant_id");
  }

  /** A configured key that no base column uses is found among the configured columns. */
  lemma FindConfiguredColumn(resultColumns: seq<ResultColumn>, key: string)
    requires forall c | c in BaseColumns :: c.key != key
    ensures FindColumn(GetVariantTableColumns(resultColumns), key) ==
            FindColumn(GetVariantTableColumns(resultColumns)[|BaseColumns|..], key)
  {
    var cols := GetVariantTableColumns(resultColumns);
    assert cols == BaseColumns + cols[|BaseColumns|..];
    FindColumnSkip(BaseColumns, cols[|BaseColumns|..], key);
  }
}
