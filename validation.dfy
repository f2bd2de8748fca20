/**
 * The results-table schema checks (data_pipeline/data_pipeline/validation.py)
 * that every dataset's gene and variant tables pass before they are
 * combined. A table is given by its schema: the key fields and the other
 * row fields, each with its Hail type. A check either passes or stops at
 * the first failing assertion, in the order the source makes them.
 */
module Validation {
  import opened Wrappers
  import opened Seqs
  import CombineDatasets

  /** The Hail types the checks distinguish. */
  datatype HailType =
    | TBool | TFloat32 | TFloat64 | TInt32 | TInt64 | TStr
    | TLocus(referenceGenome: string)
    | TArray(elementType: HailType)
    | TSet(elementType: HailType)
    | TDict(keyType: HailType, valueType: HailType)
    | TStruct(fields: seq<Field>)
    | TTuple(types: seq<HailType>)
    | TCall

  datatype Field = Field(name: string, typ: HailType)

  /** A table's key fields and its other row fields (`row_value`). */
  datatype TableSchema = TableSchema(key: seq<Field>, value: seq<Field>)

  /** Why a check stopped: a failed `assert` with its message, or an attribute the table lacks. */
  datatype Failure = AssertionFailed(message: string) | NoSuchField(name: string)

  /** `ALLOWED_RESULT_TYPES` */
  predicate IsAllowed(t: HailType) {
    t in {TBool, TFloat32, TFloat64, TInt32, TInt64, TStr}
  }

  /** The allowed types as the failure messages list them. */
  const AllowedTypesText: string := "bool, float32, float64, int32, int64, str"

  /** `str(t)` for the allowed types. */
  function TypeName(t: HailType): string
    requires IsAllowed(t)
  {
    match t
    case TBool => "bool"
    case TFloat32 => "float32"
    case TFloat64 => "float64"
    case TInt32 => "int32"
    case TInt64 => "int64"
    case TStr => "str"
  }

  function FieldName(f: Field): string {
    f.name
  }

  function FieldType(f: Field): HailType {
    f.typ
  }

  function Names(fields: seq<Field>): seq<string> {
    Map(fields, FieldName)
  }

  /** `struct.types` */
  function Types(fields: seq<Field>): seq<HailType> {
    Map(fields, FieldType)
  }

  /** The type of the first field called `name`. */
  function Lookup(fields: seq<Field>, name: string): (r: Option<HailType>)
    ensures r.Some? <==> name in Names(fields)
    ensures r.Some? ==> Field(name, r.value) in fields
    decreases |fields|
  {
    if fields == [] then None
    else if fields[0].name == name then Some(fields[0].typ)
    else
      assert Names(fields) == [fields[0].name] + Names(fields[1..]);
      Lookup(fields[1..], name)
  }

  /** `ds[name]`: a key field or another row field. */
  function TableField(t: TableSchema, name: string): Option<HailType> {
    Lookup(t.key + t.value, name)
  }

  function AllAllowed(types: seq<HailType>): bool {
    forall i | 0 <= i < |types| :: IsAllowed(types[i])
  }

  function Fail(message: string): Result<(), Failure> {
    Err(AssertionFailed(message))
  }

  const GroupResultsTypesMessage: string := "'group_results' fields may only be one of " + AllowedTypesText
  const InfoTypesMessage: string := "'info' fields may only be one of " + AllowedTypesText

  /** The `group_results` checks both validators share. */
  function CheckGroupResults(t: TableSchema): Result<(), Failure> {
    match Lookup(t.value, "group_results")
    case None => Fail("Table must have a 'group_results' field")
    case Some(g) =>
      if !g.TDict? then Fail("'group_results' must be a dict")
      else if g.keyType != TStr then Fail("'group_results' keys must be strings")
      else if !g.valueType.TStruct? then Fail("'group_results' value must be a struct")
      else if !AllAllowed(Types(g.valueType.fields)) then Fail(GroupResultsTypesMessage)
      else Ok(())
  }

  /** `validate_gene_results_table` */
  function ValidateGeneResultsTable(t: TableSchema): Result<(), Failure> {
    if Names(t.key) != ["gene_id"] then Fail("Table must be keyed by gene ID")
    else CheckGroupResults(t)
  }

  /** The fields a variant table must have besides its key, each a string, in the order they are checked. */
  const RequiredFields: seq<string> := ["gene_id", "consequence", "hgvsc", "hgvsp"]

  /** The loop over `required_fields`: the first field that is absent or not a string stops it. */
  function CheckRequiredFields(t: TableSchema, fields: seq<string>): Result<(), Failure>
    decreases |fields|
  {
    if fields == [] then Ok(())
    else if fields[0] !in Names(t.value) then Fail("Missing required field '" + fields[0] + "'")
    else if TableField(t, fields[0]) != Some(TStr) then Fail(fields[0] + " should be type str")
    else CheckRequiredFields(t, fields[1..])
  }

  /** `validate_variant_results_table` */
  function ValidateVariantResultsTable(t: TableSchema): Result<(), Failure> {
    if Names(t.key) != ["locus", "alleles"] then Fail("Table must be keyed by locus and alleles")
    else if TableField(t, "locus") !in {Some(TLocus("GRCh37")), Some(TLocus("GRCh38"))} then Fail("'locus' must be a locus type")
    else if TableField(t, "alleles") != Some(TArray(TStr)) then Fail("'alleles' must be an array of strings")
    else if CheckRequiredFields(t, RequiredFields).Err? then CheckRequiredFields(t, RequiredFields)
    else if CheckGroupResults(t).Err? then CheckGroupResults(t)
    else CheckInfo(t)
  }

  /** The `info` checks; reading `ds.info` on a table without `info` raises instead of asserting. */
  function CheckInfo(t: TableSchema): Result<(), Failure> {
    match TableField(t, "info")
    case None => Err(NoSuchField("info"))
    case Some(info) =>
      if !info.TStruct? then Fail("'info' must be a struct")
      else if !AllAllowed(Types(info.fields)) then Fail(InfoTypesMessage)
      else Ok(())
  }

  // ---------------------------------------------------------------------
  // What a table that passes looks like

  /** A struct whose every field has an allowed type. */
  predicate IsResultStruct(t: HailType) {
    t.TStruct? && forall f | f in t.fields :: IsAllowed(f.typ)
  }

  /** A valid gene results table. */
  predicate ValidGeneTable(t: TableSchema) {
    Names(t.key) == ["gene_id"] && GroupResultsShape(t)
  }

  /** `group_results` is a dict from strings to result structs. */
  predicate GroupResultsShape(t: TableSchema) {
    match Lookup(t.value, "group_results")
    case None => false
    case Some(g) => g.TDict? && g.keyType == TStr && IsResultStruct(g.valueType)
  }

  /** A valid variant results table. */
  predicate ValidVariantTable(t: TableSchema) {
    Names(t.key) == ["locus", "alleles"] &&
    (TableField(t, "locus") == Some(TLocus("GRCh37")) || TableField(t, "locus") == Some(TLocus("GRCh38"))) &&
    TableField(t, "alleles") == Some(TArray(TStr)) &&
    RequiredFieldsOk(t, RequiredFields) &&
    GroupResultsShape(t) &&
    InfoShape(t)
  }

  /** `info` is a result struct. */
  predicate InfoShape(t: TableSchema) {
    match TableField(t, "info")
    case None => false
    case Some(info) => IsResultStruct(info)
  }

  predicate RequiredFieldOk(t: TableSchema, f: string) {
    f in Names(t.value) && TableField(t, f) == Some(TStr)
  }

  /** Every listed field is a string row field. */
  predicate RequiredFieldsOk(t: TableSchema, fields: seq<string>) {
    forall f | f in fields :: RequiredFieldOk(t, f)
  }

  lemma AllAllowedFields(fields: seq<Field>)
    ensures AllAllowed(Types(fields)) <==> forall f | f in fields :: IsAllowed(f.typ)
  {
    if !AllAllowed(Types(fields)) {
      var i :| 0 <= i < |fields| && !IsAllowed(Types(fields)[i]);
      assert fields[i] in fields;
    }
  }

  lemma CheckInfoSpec(t: TableSchema)
    ensures CheckInfo(t).Ok? <==> InfoShape(t)
  {
    var info := TableField(t, "info");
    if info.Some? && info.value.TStruct? {
      AllAllowedFields(info.value.fields);
    }
  }

  lemma CheckGroupResultsSpec(t: TableSchema)
    ensures CheckGroupResults(t).Ok? <==> GroupResultsShape(t)
  {
    var g := Lookup(t.value, "group_results");
    if g.Some? && g.value.TDict? && g.value.valueType.TStruct? {
      AllAllowedFields(g.value.valueType.fields);
    }
  }

  /**
   * The required-field loop passes exactly when every listed field is a
   * string row field, and otherwise reports the first field that is not,
   * with the message of the first check that field fails.
   */
  lemma CheckRequiredFieldsSpec(t: TableSchema, fields: seq<string>)
    ensures CheckRequiredFields(t, fields).Ok? <==> RequiredFieldsOk(t, fields)
    ensures CheckRequiredFields(t, fields).Err? ==> exists k | 0 <= k < |fields| :: FirstFailureAt(t, fields, k)
  {
    CheckRequiredFieldsOk(t, fields);
    if CheckRequiredFields(t, fields).Err? {
      var k := CheckRequiredFieldsFirst(t, fields);
    }
  }

  /** Every field before `k` is a string row field and the loop reports the one at `k`. */
  predicate FirstFailureAt(t: TableSchema, fields: seq<string>, k: nat)
    requires k < |fields|
  {
    (forall j | 0 <= j < k :: RequiredFieldOk(t, fields[j])) &&
    CheckRequiredFields(t, fields) ==
      if fields[k] !in Names(t.value) then Fail("Missing required field '" + fields[k] + "'")
      else Fail(fields[k] + " should be type str")
  }

  lemma {:induction false} CheckRequiredFieldsOk(t: TableSchema, fields: seq<string>)
    ensures CheckRequiredFields(t, fields).Ok? <==> RequiredFieldsOk(t, fields)
    decreases |fields|
  {
    if fields != [] {
      CheckRequiredFieldsOk(t, fields[1..]);
      assert fields[0] in fields;
      assert forall f | f in fields :: f == fields[0] || f in fields[1..];
    }
  }

  lemma {:induction false} CheckRequiredFieldsFirst(t: TableSchema, fields: seq<string>) returns (k: nat)
    requires CheckRequiredFields(t, fields).Err?
    ensures k < |fields| && FirstFailureAt(t, fields, k)
    decreases |fields|
  {
    if RequiredFieldOk(t, fields[0]) {
      var k' := CheckRequiredFieldsFirst(t, fields[1..]);
      k := k' + 1;
      forall j | 0 <= j < k ensures RequiredFieldOk(t, fields[j]) {
        if j > 0 {
          assert fields[j] == fields[1..][j - 1];
        }
      }
    } else {
      k := 0;
    }
  }

  /** A gene table passes exactly when it is keyed by `gene_id` and its `group_results` is a dict of result structs. */
  lemma ValidateGeneResultsTableSpec(t: TableSchema)
    ensures ValidateGeneResultsTable(t).Ok? <==> ValidGeneTable(t)
  {
    CheckGroupResultsSpec(t);
  }

  /** A variant table passes exactly when every requirement holds at once. */
  lemma ValidateVariantResultsTableSpec(t: TableSchema)
    ensures ValidateVariantResultsTable(t).Ok? <==> ValidVariantTable(t)
  {
    ValidateVariantResultsTableOk(t);
    CheckGroupResultsSpec(t);
    CheckRequiredFieldsOk(t, RequiredFields);
    CheckInfoSpec(t);
  }

  /** The variant validator passes exactly when each of its checks passes. */
  lemma ValidateVariantResultsTableOk(t: TableSchema)
    ensures ValidateVariantResultsTable(t).Ok? <==>
              Names(t.key) == ["locus", "alleles"] &&
              (TableField(t, "locus") == Some(TLocus("GRCh37")) || TableField(t, "locus") == Some(TLocus("GRCh38"))) &&
              TableField(t, "alleles") == Some(TArray(TStr)) &&
              CheckRequiredFields(t, RequiredFields).Ok? && CheckGroupResults(t).Ok? && CheckInfo(t).Ok?
  {
    var required, groups := CheckRequiredFields(t, RequiredFields), CheckGroupResults(t);
    if Names(t.key) == ["locus", "alleles"] && TableField(t, "locus") in {Some(TLocus("GRCh37")), Some(TLocus("GRCh38"))} &&
       TableField(t, "alleles") == Some(TArray(TStr)) {
      if required.Ok? && groups.Ok? {
        assert ValidateVariantResultsTable(t) == CheckInfo(t);
      } else if required.Err? {
        assert ValidateVariantResultsTable(t) == required;
      } else {
        assert ValidateVariantResultsTable(t) == groups;
      }
    }
  }

  /**
   * The key is checked first: a table with the wrong key is reported as
   * such whatever else is wrong with it, and a gene table is never a valid
   * variant table.
   */
  lemma KeyCheckedFirst(t: TableSchema)
    ensures Names(t.key) != ["gene_id"] ==> ValidateGeneResultsTable(t) == Fail("Table must be keyed by gene ID")
    ensures Names(t.key) != ["locus", "alleles"] ==>
              ValidateVariantResultsTable(t) == Fail("Table must be keyed by locus and alleles")
    ensures !(ValidGeneTable(t) && ValidVariantTable(t))
  {
    assert ["gene_id"] != ["locus", "alleles"];
  }

  /**
   * Every type a valid table may hold in `group_results` or `info` is
   * recorded in the combined metadata as `bool`, `float`, `int` or `str`.
   */
  lemma AllowedTypesRecorded(t: HailType)
    requires IsAllowed(t)
    ensures CombineDatasets.RecordedTypeName(TypeName(t)) in {"bool", "float", "int", "str"}
  {
    CombineDatasets.RecordedTypeNames();
  }
}
