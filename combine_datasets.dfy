/**
 * The pipeline step that combines every dataset's results into one table
 * (data_pipeline/data_pipeline/pipelines/combine_datasets.py): variants and
 * group results are written as positional tuples, and the names those
 * positions stand for are recorded in the metadata, so that the browser's
 * decoders can rebuild the records.
 *
 * Hail's missing value is JSON `null` here, a tuple or array is a JSON
 * array, and a struct is a map from field name to value.
 */
module CombineDatasets {
  import opened Wrappers
  import opened Strings
  import opened JsValues
  import opened Seqs
  import opened VariantDecoder
  import opened GeneResultsPage
  import VariantIds

  /** `VARIANT_FIELDS`: the positions of an encoded variant. */
  const VariantFields: seq<string> := ["variant_id", "pos", "consequence", "hgvsc", "hgvsp", "info", "group_results"]

  /** A row of a dataset's variant results table. */
  datatype VariantResult = VariantResult(
    geneId: string,
    contig: string,
    position: nat,
    refAllele: string,
    altAllele: string,
    consequence: Value,
    hgvsc: Value,
    hgvsp: Value,
    info: map<string, Value>,
    groupResults: map<string, map<string, Value>>)

  /** A struct field, missing (`null`) when the struct lacks it. */
  function FieldOr(m: map<string, Value>, name: string): Value {
    if name in m then m[name] else Null
  }

  function FieldOf(m: map<string, Value>): string -> Value {
    name => FieldOr(m, name)
  }

  /** `hl.tuple([s[field] for field in names])` */
  function EncodeTuple(names: seq<string>, m: map<string, Value>): (r: Value)
    ensures r.Arr? && |r.items| == |names|
    ensures forall i | 0 <= i < |names| :: r.items[i] == FieldOr(m, names[i])
  {
    Arr(Map(names, FieldOf(m)))
  }

  /** The record a decoder builds back from a tuple: each listed name with the struct's value. */
  function Project(names: seq<string>, m: map<string, Value>): map<string, Value> {
    map n | n in names :: FieldOr(m, n)
  }

  /** Pairing the names with the tuple written in their order gives the struct's fields back. */
  lemma PairEncoded(names: seq<string>, m: map<string, Value>)
    ensures Pair(names, EncodeTuple(names, m)) == Project(names, m)
  {
    PairPrefix(names, m, |names|);
    assert names[..|names|] == names;
  }

  lemma {:induction false} PairPrefix(names: seq<string>, m: map<string, Value>, k: nat)
    requires k <= |names|
    ensures Pair(names[..k], EncodeTuple(names, m)) == Project(names[..k], m)
    decreases k
  {
    if k > 0 {
      PairPrefix(names, m, k - 1);
      assert names[..k][..k - 1] == names[..k - 1];
      assert names[..k] == names[..k - 1] + [names[k - 1]];
    }
  }

  /** The variant group results: one position per analysis group, `null` for a group the variant has no result in. */
  function EncodeVariantGroups(groups: seq<string>, fieldNames: seq<string>, results: map<string, map<string, Value>>): (r: Value)
    ensures r.Arr? && |r.items| == |groups|
    ensures forall i | 0 <= i < |groups| ::
              r.items[i] == if groups[i] in results then EncodeTuple(fieldNames, results[groups[i]]) else Null
  {
    Arr(Map(groups, GroupCell(fieldNames, results)))
  }

  function GroupCell(fieldNames: seq<string>, results: map<string, map<string, Value>>): string -> Value {
    group => if group in results then EncodeTuple(fieldNames, results[group]) else Null
  }

  /** The gene group results: every analysis group gets a tuple, its fields missing when the gene has no result in it. */
  function EncodeGeneGroups(groups: seq<string>, fieldNames: seq<string>, results: map<string, map<string, Value>>): (r: Value)
    ensures r.Arr? && |r.items| == |groups|
    ensures forall i | 0 <= i < |groups| ::
              r.items[i] == EncodeTuple(fieldNames, if groups[i] in results then results[groups[i]] else map[])
  {
    Arr(Map(groups, GeneGroupCell(fieldNames, results)))
  }

  function GeneGroupCell(fieldNames: seq<string>, results: map<string, map<string, Value>>): string -> Value {
    group => EncodeTuple(fieldNames, if group in results then results[group] else map[])
  }

  /** The `variant_id` annotation: the same `contig-position-ref-alt` id as the shared helper computes. */
  function VariantId(v: VariantResult): string {
    VariantIds.VariantId(v.contig, v.position, [v.refAllele, v.altAllele]).value
  }

  /** `hl.tuple([variant_results[field] for field in VARIANT_FIELDS])` after the `info`, `group_results`, `variant_id` and `pos` annotations. */
  function EncodeVariant(v: VariantResult, infoNames: seq<string>, groups: seq<string>, fieldNames: seq<string>): (r: Value)
    ensures r.Arr? && |r.items| == |VariantFields|
  {
    Arr([Str(VariantId(v)), Num(v.position as real), v.consequence, v.hgvsc, v.hgvsp,
         EncodeTuple(infoNames, v.info), EncodeVariantGroups(groups, fieldNames, v.groupResults)])
  }

  // ---------------------------------------------------------------------
  // Metadata

  /** What a dataset's two tables contribute: the field names and Hail type names of their structs, and their groups. */
  datatype DatasetTables = DatasetTables(
    id: string,
    referenceGenome: string,
    geneGroupResultFields: seq<(string, string)>,
    geneResultAnalysisGroups: seq<string>,
    variantInfoFields: seq<(string, string)>,
    variantGroupResultFields: seq<(string, string)>,
    variantResultAnalysisGroups: seq<string>)

  /** The per-dataset entry of `meta.datasets`. */
  datatype DatasetMetadata = DatasetMetadata(
    referenceGenome: string,
    geneResultAnalysisGroups: seq<string>,
    geneGroupResultFieldNames: seq<string>,
    geneGroupResultFieldTypes: seq<string>,
    variantInfoFieldNames: seq<string>,
    variantInfoFieldTypes: seq<string>,
    variantResultAnalysisGroups: seq<string>,
    variantGroupResultFieldNames: seq<string>,
    variantGroupResultFieldTypes: seq<string>)

  /** `str(typ).rstrip("3264")`: the bit width dropped from a type name. */
  function RecordedTypeName(typ: string): (r: string)
    ensures r <= typ
    ensures r == [] || r[|r| - 1] !in {'3', '2', '6', '4'}
    ensures forall i | |r| <= i < |typ| :: typ[i] in {'3', '2', '6', '4'}
  {
    RStripChars(typ, {'3', '2', '6', '4'})
  }

  /** `int32` and `int64` are both recorded as `int`, the floats as `float`; `str` and `bool` are kept. */
  lemma RecordedTypeNames()
    ensures RecordedTypeName("int32") == "int" && RecordedTypeName("int64") == "int"
    ensures RecordedTypeName("float32") == "float" && RecordedTypeName("float64") == "float"
    ensures RecordedTypeName("str") == "str" && RecordedTypeName("bool") == "bool"
  {
    assert "int32"[..4] == "int3" && "int3"[..3] == "int";
    assert "int64"[..4] == "int6" && "int6"[..3] == "int";
    assert "float32"[..6] == "float3" && "float3"[..5] == "float";
    assert "float64"[..6] == "float6" && "float6"[..5] == "float";
  }

  function Names(fields: seq<(string, string)>): (r: seq<string>)
    ensures |r| == |fields| && forall i | 0 <= i < |fields| :: r[i] == fields[i].0
  {
    Map(fields, FieldName)
  }

  function FieldName(f: (string, string)): string {
    f.0
  }

  function Types(fields: seq<(string, string)>): (r: seq<string>)
    ensures |r| == |fields| && forall i | 0 <= i < |fields| :: r[i] == RecordedTypeName(fields[i].1)
  {
    Map(fields, FieldType)
  }

  function FieldType(f: (string, string)): string {
    RecordedTypeName(f.1)
  }

  /** The metadata recorded for one dataset. */
  function MetadataOf(t: DatasetTables): DatasetMetadata {
    DatasetMetadata(
      t.referenceGenome,
      t.geneResultAnalysisGroups,
      Names(t.geneGroupResultFields), Types(t.geneGroupResultFields),
      Names(t.variantInfoFields), Types(t.variantInfoFields),
      t.variantResultAnalysisGroups,
      Names(t.variantGroupResultFields), Types(t.variantGroupResultFields))
  }

  /** `meta.datasets` after the first datasets of the loop; a dataset listed again overwrites its entry. */
  function CombinedMetadataSpec(tables: seq<DatasetTables>): map<string, DatasetMetadata>
    decreases |tables|
  {
    if tables == [] then map[]
    else CombinedMetadataSpec(tables[..|tables| - 1])[tables[|tables| - 1].id := MetadataOf(tables[|tables| - 1])]
  }

  /** The `for dataset_id in dataset_ids` loop, as it accumulates the metadata struct. */
  method CombineMetadata(tables: seq<DatasetTables>) returns (datasets: map<string, DatasetMetadata>)
    ensures datasets == CombinedMetadataSpec(tables)
  {
    datasets := map[];
    var k := 0;
    while k < |tables|
      invariant 0 <= k <= |tables|
      invariant datasets == CombinedMetadataSpec(tables[..k])
    {
      assert tables[..k + 1][..k] == tables[..k];
      datasets := datasets[tables[k].id := MetadataOf(tables[k])];
      k := k + 1;
    }
    assert tables[..|tables|] == tables;
  }

  /** Every combined dataset has an entry, and with distinct ids each entry is that dataset's own metadata. */
  lemma CombinedMetadataEntries(tables: seq<DatasetTables>, id: string)
    ensures id in CombinedMetadataSpec(tables) <==> exists i | 0 <= i < |tables| :: tables[i].id == id
    ensures forall i | 0 <= i < |tables| && tables[i].id == id && (forall j | i < j < |tables| :: tables[j].id != id) ::
              CombinedMetadataSpec(tables)[id] == MetadataOf(tables[i])
  {
    CombinedMetadataKeys(tables, id);
    forall i | 0 <= i < |tables| && tables[i].id == id && (forall j | i < j < |tables| :: tables[j].id != id)
      ensures CombinedMetadataSpec(tables)[id] == MetadataOf(tables[i])
    {
      CombinedMetadataLast(tables, i);
    }
  }

  lemma {:induction false} CombinedMetadataKeys(tables: seq<DatasetTables>, id: string)
    ensures id in CombinedMetadataSpec(tables) <==> exists i | 0 <= i < |tables| :: tables[i].id == id
    decreases |tables|
  {
    if tables != [] {
      var init := tables[..|tables| - 1];
      CombinedMetadataKeys(init, id);
      assert forall i | 0 <= i < |init| :: init[i] == tables[i];
    }
  }

  /** A dataset that no later dataset repeats keeps its own metadata. */
  lemma {:induction false} CombinedMetadataLast(tables: seq<DatasetTables>, i: nat)
    requires i < |tables| && forall j | i < j < |tables| :: tables[j].id != tables[i].id
    ensures tables[i].id in CombinedMetadataSpec(tables) && CombinedMetadataSpec(tables)[tables[i].id] == MetadataOf(tables[i])
    decreases |tables|
  {
    if i < |tables| - 1 {
      var init := tables[..|tables| - 1];
      assert forall j | i <= j < |init| :: init[j] == tables[j];
      CombinedMetadataLast(init, i);
    }
  }

  /** The lists the browser's variant decoder reads a dataset's rows against. */
  function VariantSchemaOf(meta: DatasetMetadata): VariantSchema {
    VariantSchema(VariantFields, meta.variantInfoFieldNames, meta.variantResultAnalysisGroups, meta.variantGroupResultFieldNames)
  }

  /** The lists the browser's gene-result decoder reads a dataset's group results against. */
  function GeneSchemaOf(meta: DatasetMetadata): GeneSchema {
    GeneSchema(meta.geneResultAnalysisGroups, meta.geneGroupResultFieldNames)
  }

  // ---------------------------------------------------------------------
  // Round trips with the browser's decoders

  /** The group results the browser rebuilds: the groups the variant has a result in, each with its fields and frequencies. */
  function DecodedGroups(groups: seq<string>, fieldNames: seq<string>, results: map<string, map<string, Value>>): map<string, Value> {
    map g | g in groups && g in results :: Obj(WithFrequencies(Project(fieldNames, results[g])))
  }

  lemma DecodedGroupsSnoc(groups: seq<string>, g: string, fieldNames: seq<string>, results: map<string, map<string, Value>>)
    ensures DecodedGroups(groups + [g], fieldNames, results) ==
              if g in results then DecodedGroups(groups, fieldNames, results)[g := Obj(WithFrequencies(Project(fieldNames, results[g])))]
              else DecodedGroups(groups, fieldNames, results)
  {
    var before := DecodedGroups(groups, fieldNames, results);
    var after := DecodedGroups(groups + [g], fieldNames, results);
    assert forall x :: x in groups + [g] <==> x in groups || x == g;
    if g in results {
      assert after.Keys == before.Keys + {g};
    } else {
      assert after.Keys == before.Keys;
    }
  }

  lemma {:induction false} GroupEntriesEncoded(groups: seq<string>, fieldNames: seq<string>, results: map<string, map<string, Value>>, k: nat)
    requires k <= |groups|
    ensures GroupEntries(groups[..k], EncodeVariantGroups(groups, fieldNames, results), fieldNames) ==
            DecodedGroups(groups[..k], fieldNames, results)
    decreases k
  {
    var cell := EncodeVariantGroups(groups, fieldNames, results);
    if k > 0 {
      var prefix := groups[..k];
      var g := groups[k - 1];
      var earlier := GroupEntries(groups[..k - 1], cell, fieldNames);
      GroupEntriesEncoded(groups, fieldNames, results, k - 1);
      assert GroupEntries(prefix, cell, fieldNames) ==
               if g in results then earlier[g := Obj(WithFrequencies(Project(fieldNames, results[g])))] else earlier by {
        assert prefix[..k - 1] == groups[..k - 1];
        var gv := cell.items[k - 1];
        assert At(cell, k - 1).value == gv;
        assert Truthy(gv) <==> g in results;
        if g in results {
          PairEncoded(fieldNames, results[g]);
        }
      }
      DecodedGroupsSnoc(groups[..k - 1], g, fieldNames, results);
      assert prefix == groups[..k - 1] + [g];
    }
  }

  /**
   * Decoding an encoded variant with the metadata recorded beside it gives
   * back its id, position and text fields, its info struct, and exactly the
   * groups it has results in, each with its own fields.
   */
  lemma VariantRoundTrip(v: VariantResult, meta: DatasetMetadata, table: map<string, ConsequenceEntry>)
    ensures var row := EncodeVariant(v, meta.variantInfoFieldNames, meta.variantResultAnalysisGroups, meta.variantGroupResultFieldNames);
            var r := DecodeVariantSpec(VariantSchemaOf(meta), table, row);
            r.Ok? && DecodesBackTo(r.value, v, meta)
  {
    var infoNames, groups, fieldNames := meta.variantInfoFieldNames, meta.variantResultAnalysisGroups, meta.variantGroupResultFieldNames;
    var row := EncodeVariant(v, infoNames, groups, fieldNames);
    var schema := VariantSchemaOf(meta);
    var info := Project(infoNames, v.info);
    var decodedGroups := DecodedGroups(groups, fieldNames, v.groupResults);
    InfoDecoded(infoNames, v.info, row);
    GroupsDecoded(groups, fieldNames, v.groupResults, row);
    DraftSeven(schema, row, info, decodedGroups);
    var d := Draft(map["variant_id" := Str(VariantId(v)), "pos" := Num(v.position as real), "consequence" := v.consequence,
                       "hgvsc" := v.hgvsc, "hgvsp" := v.hgvsp], info, decodedGroups);
    assert DecodeVariantSpec(schema, table, row) == Ok(Finish(d, table));
    FinishedDecodes(d, table, v, meta);
  }

  lemma FinishedDecodes(d: Draft, table: map<string, ConsequenceEntry>, v: VariantResult, meta: DatasetMetadata)
    requires d.top == map["variant_id" := Str(VariantId(v)), "pos" := Num(v.position as real), "consequence" := v.consequence,
                          "hgvsc" := v.hgvsc, "hgvsp" := v.hgvsp]
    requires d.info == Project(meta.variantInfoFieldNames, v.info)
    requires d.groupResults == DecodedGroups(meta.variantResultAnalysisGroups, meta.variantGroupResultFieldNames, v.groupResults)
    ensures DecodesBackTo(Finish(d, table), v, meta)
  {
    FinishKeepsPlainFields(d, table);
    assert Entry(d.top, "hgvsc") == v.hgvsc && Entry(d.top, "hgvsp") == v.hgvsp;
  }

  /** What the browser holds after decoding an encoded variant. */
  ghost predicate DecodesBackTo(decoded: Value, v: VariantResult, meta: DatasetMetadata) {
    decoded.Obj? &&
    Entry(decoded.fields, "variant_id") == Str(VariantId(v)) &&
    Entry(decoded.fields, "pos") == Num(v.position as real) &&
    Entry(decoded.fields, "hgvsc") == v.hgvsc && Entry(decoded.fields, "hgvsp") == v.hgvsp &&
    Entry(decoded.fields, "hgvs") == Or(v.hgvsp, v.hgvsc) &&
    Entry(decoded.fields, "info") == Obj(Project(meta.variantInfoFieldNames, v.info)) &&
    Entry(decoded.fields, "group_results") ==
      Obj(DecodedGroups(meta.variantResultAnalysisGroups, meta.variantGroupResultFieldNames, v.groupResults))
  }

  /** The finishing step leaves the id, the position and the HGVS fields as read. */
  lemma FinishKeepsPlainFields(d: Draft, table: map<string, ConsequenceEntry>)
    ensures var fields := Finish(d, table).fields;
            Entry(fields, "variant_id") == Entry(d.top, "variant_id") && Entry(fields, "pos") == Entry(d.top, "pos") &&
            Entry(fields, "hgvsc") == Entry(d.top, "hgvsc") && Entry(fields, "hgvsp") == Entry(d.top, "hgvsp")
  {
    var fields := Finish(d, table).fields;
    forall k | k in ["variant_id", "pos", "hgvsc", "hgvsp"] ensures Entry(fields, k) == Entry(d.top, k) {
      assert k !in ["info", "group_results", "hgvs", "consequence", "consequenceCategory"];
      if k !in d.top {
        assert k !in fields;
      }
    }
    assert "variant_id" in ["variant_id", "pos", "hgvsc", "hgvsp"];
    assert "pos" in ["variant_id", "pos", "hgvsc", "hgvsp"];
    assert "hgvsc" in ["variant_id", "pos", "hgvsc", "hgvsp"];
    assert "hgvsp" in ["variant_id", "pos", "hgvsc", "hgvsp"];
  }

  lemma InfoDecoded(names: seq<string>, m: map<string, Value>, row: Value)
    requires row.Arr? && |row.items| > 5 && row.items[5] == EncodeTuple(names, m)
    ensures InfoStep(names, row, 5, map[]) == Ok(Project(names, m))
  {
    PairEncoded(names, m);
    if names != [] {
      assert map[] + Pair(names, row.items[5]) == Project(names, m);
    }
  }

  lemma GroupsDecoded(groups: seq<string>, fieldNames: seq<string>, results: map<string, map<string, Value>>, row: Value)
    requires row.Arr? && |row.items| > 6 && row.items[6] == EncodeVariantGroups(groups, fieldNames, results)
    ensures GroupsStep(groups, fieldNames, row, 6, map[]) == Ok(DecodedGroups(groups, fieldNames, results))
  {
    GroupEntriesEncoded(groups, fieldNames, results, |groups|);
    assert groups[..|groups|] == groups;
    if groups != [] {
      assert map[] + GroupEntries(groups, row.items[6], fieldNames) == DecodedGroups(groups, fieldNames, results);
    }
  }

  /** All seven positions: the plain ones, then `info` and `group_results` as their own steps read them. */
  lemma DraftSeven(schema: VariantSchema, row: Value, info: map<string, Value>, groups: map<string, Value>)
    requires schema.variantFields == VariantFields && row.Arr? && |row.items| == 7
    requires InfoStep(schema.infoFieldNames, row, 5, map[]) == Ok(info)
    requires GroupsStep(schema.analysisGroups, schema.groupResultFieldNames, row, 6, map[]) == Ok(groups)
    ensures DraftAfter(schema, row, 7) ==
              Ok(Draft(map["variant_id" := row.items[0], "pos" := row.items[1], "consequence" := row.items[2],
                           "hgvsc" := row.items[3], "hgvsp" := row.items[4]], info, groups))
  {
    DraftFive(schema, row);
  }

  /** The five plain positions of an encoded variant land in the top-level fields of the same names. */
  lemma DraftFive(schema: VariantSchema, row: Value)
    requires schema.variantFields == VariantFields && row.Arr? && |row.items| == 7
    ensures DraftAfter(schema, row, 5) ==
              Ok(Draft(map["variant_id" := row.items[0], "pos" := row.items[1], "consequence" := row.items[2],
                           "hgvsc" := row.items[3], "hgvsp" := row.items[4]], map[], map[]))
  {
    assert DraftAfter(schema, row, 1) == Ok(Draft(map["variant_id" := row.items[0]], map[], map[]));
    assert DraftAfter(schema, row, 2) == Ok(Draft(map["variant_id" := row.items[0], "pos" := row.items[1]], map[], map[]));
    assert DraftAfter(schema, row, 3) ==
             Ok(Draft(map["variant_id" := row.items[0], "pos" := row.items[1], "consequence" := row.items[2]], map[], map[]));
    assert DraftAfter(schema, row, 4) ==
             Ok(Draft(map["variant_id" := row.items[0], "pos" := row.items[1], "consequence" := row.items[2],
                          "hgvsc" := row.items[3]], map[], map[]));
  }

  /** Every gene analysis group comes back with the gene's fields, missing ones as `null`. */
  lemma GeneGroupsRoundTrip(meta: DatasetMetadata, results: map<string, map<string, Value>>)
    ensures var cell := EncodeGeneGroups(meta.geneResultAnalysisGroups, meta.geneGroupResultFieldNames, results);
            var r := GroupRecords(meta.geneResultAnalysisGroups, meta.geneGroupResultFieldNames, cell);
            r.Ok? && r.value.Keys == (set g | g in meta.geneResultAnalysisGroups) &&
            forall g | g in r.value ::
              r.value[g] == Obj(Project(meta.geneGroupResultFieldNames, if g in results then results[g] else map[]))
  {
    var groups, fieldNames := meta.geneResultAnalysisGroups, meta.geneGroupResultFieldNames;
    var cell := EncodeGeneGroups(groups, fieldNames, results);
    GeneRecordsPrefix(groups, fieldNames, results, |groups|);
    assert groups[..|groups|] == groups;
  }

  /**
   * End to end: a variant of a combined dataset, encoded with that dataset's
   * own names, decodes back against the metadata the combined table records
   * for the dataset.
   */
  lemma CombinedVariantRoundTrip(tables: seq<DatasetTables>, i: nat, v: VariantResult, table: map<string, ConsequenceEntry>)
    requires i < |tables| && forall a, b | 0 <= a < b < |tables| :: tables[a].id != tables[b].id
    ensures tables[i].id in CombinedMetadataSpec(tables)
    ensures var meta := MetadataOf(tables[i]);
            var row := EncodeVariant(v, meta.variantInfoFieldNames, meta.variantResultAnalysisGroups, meta.variantGroupResultFieldNames);
            var r := DecodeVariantSpec(VariantSchemaOf(CombinedMetadataSpec(tables)[tables[i].id]), table, row);
            r.Ok? && DecodesBackTo(r.value, v, meta)
  {
    CombinedMetadataEntries(tables, tables[i].id);
    VariantRoundTrip(v, MetadataOf(tables[i]), table);
  }

  /** The gene records the browser rebuilds: every listed group, with the gene's fields in it. */
  function GeneRecordsOf(groups: seq<string>, fieldNames: seq<string>, results: map<string, map<string, Value>>): map<string, Value> {
    map g | g in groups :: Obj(Project(fieldNames, if g in results then results[g] else map[]))
  }

  lemma GeneRecordsSnoc(groups: seq<string>, g: string, fieldNames: seq<string>, results: map<string, map<string, Value>>)
    ensures GeneRecordsOf(groups + [g], fieldNames, results) ==
              GeneRecordsOf(groups, fieldNames, results)[g := Obj(Project(fieldNames, if g in results then results[g] else map[]))]
  {
    assert forall x :: x in groups + [g] <==> x in groups || x == g;
  }

  lemma {:induction false} GeneRecordsPrefix(groups: seq<string>, fieldNames: seq<string>, results: map<string, map<string, Value>>, k: nat)
    requires k <= |groups|
    ensures GroupRecords(groups[..k], fieldNames, EncodeGeneGroups(groups, fieldNames, results)) ==
            Ok(GeneRecordsOf(groups[..k], fieldNames, results))
    decreases k
  {
    var cell := EncodeGeneGroups(groups, fieldNames, results);
    if k > 0 {
      GeneRecordsPrefix(groups, fieldNames, results, k - 1);
      var prefix := groups[..k];
      var g := groups[k - 1];
      assert prefix[..k - 1] == groups[..k - 1];
      assert prefix == groups[..k - 1] + [g];
      var own := if g in results then results[g] else map[];
      var values := cell.items[k - 1];
      assert At(cell, k - 1) == Ok(values);
      assert values == EncodeTuple(fieldNames, own);
      PairEncoded(fieldNames, own);
      assert GroupRecord(fieldNames, values) == Ok(Project(fieldNames, own));
      GeneRecordsSnoc(groups[..k - 1], g, fieldNames, results);
    }
  }

  // ---------------------------------------------------------------------
  // Variants per gene

  function InGene(geneId: string): VariantResult -> bool {
    (v: VariantResult) => v.geneId == geneId
  }

  /**
   * `group_by("gene_id")` with `collect`, then `or_else` an empty array: the
   * encoded variants of one gene, none for a gene without variants. Hail does
   * not promise the order of a `collect`; the model keeps the table's order.
   */
  function GeneVariants(rows: seq<VariantResult>, geneId: string, meta: DatasetMetadata): (r: seq<Value>)
    ensures |r| == |Filter(rows, InGene(geneId))|
    ensures (forall v | v in rows :: v.geneId != geneId) ==> r == []
    ensures forall i | 0 <= i < |r| ::
              r[i] == EncodeVariant(Filter(rows, InGene(geneId))[i], meta.variantInfoFieldNames,
                                    meta.variantResultAnalysisGroups, meta.variantGroupResultFieldNames)
  {
    NoVariantsInGene(rows, geneId);
    Map(Filter(rows, InGene(geneId)), Encoder(meta))
  }

  lemma NoVariantsInGene(rows: seq<VariantResult>, geneId: string)
    ensures (forall v | v in rows :: v.geneId != geneId) ==> Filter(rows, InGene(geneId)) == []
  {
    var mine := Filter(rows, InGene(geneId));
    if mine != [] {
      FilterMembership(rows, InGene(geneId), mine[0]);
    }
  }

  function Encoder(meta: DatasetMetadata): VariantResult -> Value {
    (v: VariantResult) => EncodeVariant(v, meta.variantInfoFieldNames, meta.variantResultAnalysisGroups, meta.variantGroupResultFieldNames)
  }
}
