/**
 * The gene-results table's columns
 * (src/browsers/base/GeneResultsPage/geneResultTableColumns.js): `gene_id`
 * and `gene_name`, then one column per configured result column.
 */
module GeneResultTableColumns {
  import opened Wrappers
  import opened JsValues
  import opened Columns
  import opened Seqs

  /** `baseColumns`: the gene column and the description column. */
  const BaseColumns: seq<TableColumn> := [
    TableColumn("gene_id", "Gene", true, None, 100, None),
    TableColumn("gene_name", "Description", true, None, 200, None)
  ]

  /** The column `getTableColumns` builds from one configured result column. */
  function ResultTableColumn(c: ResultColumn): TableColumn {
    TableColumn(c.key, HeadingOrKey(c), true, None, MinWidthOrDefault(c), c.renderForCsv)
  }

  /** `getTableColumns`: the base columns, then one column per result column in input order. */
  function GetTableColumns(resultColumns: seq<ResultColumn>): (r: seq<TableColumn>)
    ensures |r| == |BaseColumns| + |resultColumns|
    ensures r[..|BaseColumns|] == BaseColumns
    ensures forall i | 0 <= i < |resultColumns| :: r[|BaseColumns| + i].key == resultColumns[i].key
  {
    var configured := seq(|resultColumns|, i requires 0 <= i < |resultColumns| => ResultTableColumn(resultColumns[i]));
    TakeAppend(BaseColumns, configured);
    BaseColumns + configured
  }

  /** Every column is sortable. */
  lemma AllSortable(resultColumns: seq<ResultColumn>)
    ensures forall c | c in GetTableColumns(resultColumns) :: c.isSortable
  {
    var r := GetTableColumns(resultColumns);
    forall c | c in r ensures c.isSortable {
      var i :| 0 <= i < |r| && r[i] == c;
      if i < |BaseColumns| {
        assert r[i] == r[..|BaseColumns|][i];
      }
    }
  }

  /**
   * A configured column's heading defaults to its key and its width to 65;
   * its CSV value is the raw value at its key unless it configures a renderer.
   */
  lemma ResultColumnDefaults(resultColumns: seq<ResultColumn>, i: nat, row: Value)
    requires i < |resultColumns|
    ensures var col := GetTableColumns(resultColumns)[|BaseColumns| + i];
            (resultColumns[i].heading.None? ==> col.heading == resultColumns[i].key) &&
            (resultColumns[i].minWidth.None? ==> col.minWidth == 65) &&
            (resultColumns[i].renderForCsv.None? ==> RenderForCsv(col, row) == Get(row, resultColumns[i].key))
  {
  }
}
