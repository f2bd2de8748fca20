/**
 * The gene-results page (src/browsers/base/GeneResultsPage/GeneResultsPage.js):
 * the decoder of the positional gene-result rows, the search over genes, the
 * flattening of the selected analysis group into each row, and the page
 * state the search box and the group menu replace.
 */
module GeneResultsPage {
  import opened Wrappers
  import opened Strings
  import opened JsValues
  import opened Seqs
  import opened VariantDecoder

  // ---------------------------------------------------------------------
  // Decoding

  /** The metadata gene-result rows are decoded against. */
  datatype GeneSchema = GeneSchema(analysisGroups: seq<string>, groupResultFieldNames: seq<string>)

  /** One group's record: `groupResult[field] = groupResultValues[k]`; reading a position of a nullish value throws. */
  function GroupRecord(fieldNames: seq<string>, values: Value): (r: Result<map<string, Value>, string>)
    ensures r.Ok? <==> fieldNames == [] || !IsNullish(values)
  {
    if fieldNames == [] then Ok(map[])
    else if IsNullish(values) then Err(NullPropertyRead)
    else Ok(Pair(fieldNames, values))
  }

  /** The `forEach` over the analysis groups: every group gets the record read from its position of `cell`. */
  function GroupRecords(groups: seq<string>, fieldNames: seq<string>, cell: Value): Result<map<string, Value>, string>
    decreases |groups|
  {
    if groups == [] then Ok(map[])
    else
      var gi := |groups| - 1;
      match GroupRecords(groups[..gi], fieldNames, cell)
      case Err(e) => Err(e)
      case Ok(m) =>
        match At(cell, gi)
        case Err(e) => Err(e)
        case Ok(values) =>
          match GroupRecord(fieldNames, values)
          case Err(e) => Err(e)
          case Ok(record) => Ok(m[groups[gi] := Obj(record)])
  }

  /** Decoding the groups fails exactly when a position is read from a nullish value. */
  lemma {:induction false} GroupRecordsOk(groups: seq<string>, fieldNames: seq<string>, cell: Value)
    ensures GroupRecords(groups, fieldNames, cell).Ok? <==>
              groups == [] ||
              (!IsNullish(cell) && (fieldNames == [] || forall gi | 0 <= gi < |groups| :: !IsNullish(At(cell, gi).value)))
    decreases |groups|
  {
    if groups != [] {
      var gi := |groups| - 1;
      GroupRecordsOk(groups[..gi], fieldNames, cell);
    }
  }

  /** Every listed group gets a record: unlike the variant decoder, none is skipped ... */
  lemma {:induction false} GroupRecordsKeys(groups: seq<string>, fieldNames: seq<string>, cell: Value)
    requires GroupRecords(groups, fieldNames, cell).Ok?
    ensures GroupRecords(groups, fieldNames, cell).value.Keys == set g | g in groups
    decreases |groups|
  {
    if groups != [] {
      var gi := |groups| - 1;
      GroupRecordsKeys(groups[..gi], fieldNames, cell);
      assert groups == groups[..gi] + [groups[gi]];
    }
  }

  /** ... and a group listed once holds the record read from its own position. */
  lemma {:induction false} GroupRecordsValue(groups: seq<string>, fieldNames: seq<string>, cell: Value, gi: nat)
    requires GroupRecords(groups, fieldNames, cell).Ok? && gi < |groups|
    requires forall j | gi < j < |groups| :: groups[j] != groups[gi]
    ensures At(cell, gi).Ok? && GroupRecord(fieldNames, At(cell, gi).value).Ok?
    ensures groups[gi] in GroupRecords(groups, fieldNames, cell).value
    ensures GroupRecords(groups, fieldNames, cell).value[groups[gi]] == Obj(GroupRecord(fieldNames, At(cell, gi).value).value)
    decreases |groups|
  {
    var last := |groups| - 1;
    if gi < last {
      GroupRecordsValue(groups[..last], fieldNames, cell, gi);
    }
  }

  lemma {:induction false} GroupRecordsErrorPersists(groups: seq<string>, fieldNames: seq<string>, cell: Value, n: nat)
    requires n <= |groups| && GroupRecords(groups[..n], fieldNames, cell).Err?
    ensures GroupRecords(groups, fieldNames, cell) == GroupRecords(groups[..n], fieldNames, cell)
    decreases |groups| - n
  {
    if n < |groups| {
      assert groups[..n + 1][..n] == groups[..n];
      GroupRecordsErrorPersists(groups, fieldNames, cell, n + 1);
    } else {
      assert groups[..n] == groups;
    }
  }

  /** The names of positions 0 to 4 of a gene-result row. */
  const BaseFields: seq<string> := ["gene_id", "gene_symbol", "gene_name", "chrom", "pos"]

  /** The decoded gene result of one row, or the exception its decoding throws. */
  function DecodeGeneResultSpec(schema: GeneSchema, row: Value): Result<Value, string> {
    if IsNullish(row) then Err(NullPropertyRead)
    else
      match GroupRecords(schema.analysisGroups, schema.groupResultFieldNames, At(row, 5).value)
      case Err(e) => Err(e)
      case Ok(groupResults) => Ok(Obj(Pair(BaseFields, row)["group_results" := Obj(groupResults)]))
  }

  /** The inner `forEach` over the group-result field names. */
  method FillGroupRecord(fieldNames: seq<string>, values: Value) returns (r: Result<map<string, Value>, string>)
    ensures r == GroupRecord(fieldNames, values)
  {
    var groupResult: map<string, Value> := map[];
    var k := 0;
    while k < |fieldNames|
      invariant 0 <= k <= |fieldNames|
      invariant k == 0 ==> groupResult == map[]
      invariant k > 0 ==> !IsNullish(values) && groupResult == Pair(fieldNames[..k], values)
    {
      var value := At(values, k);
      if value.Err? {
        return Err(value.error);
      }
      groupResult := groupResult[fieldNames[k] := value.value];
      assert fieldNames[..k + 1][..k] == fieldNames[..k];
      k := k + 1;
    }
    assert fieldNames[..|fieldNames|] == fieldNames;
    r := Ok(groupResult);
  }

  /** The outer `forEach` over the analysis groups. */
  method FillGroupRecords(groups: seq<string>, fieldNames: seq<string>, cell: Value) returns (r: Result<map<string, Value>, string>)
    ensures r == GroupRecords(groups, fieldNames, cell)
  {
    var groupResults: map<string, Value> := map[];
    var g := 0;
    while g < |groups|
      invariant 0 <= g <= |groups|
      invariant GroupRecords(groups[..g], fieldNames, cell) == Ok(groupResults)
    {
      assert groups[..g + 1][..g] == groups[..g];
      var groupResultValues := At(cell, g);
      if groupResultValues.Err? {
        GroupRecordsErrorPersists(groups, fieldNames, cell, g + 1);
        return Err(groupResultValues.error);
      }
      var record := FillGroupRecord(fieldNames, groupResultValues.value);
      if record.Err? {
        GroupRecordsErrorPersists(groups, fieldNames, cell, g + 1);
        return Err(record.error);
      }
      groupResults := groupResults[groups[g] := Obj(record.value)];
      g := g + 1;
    }
    assert groups[..|groups|] == groups;
    r := Ok(groupResults);
  }

  /** The body of `data.results.map(...)`: the base fields, then the nested loops filling `group_results`. */
  method DecodeGeneResult(schema: GeneSchema, row: Value) returns (r: Result<Value, string>)
    ensures r == DecodeGeneResultSpec(schema, row)
  {
    if IsNullish(row) {
      return Err(NullPropertyRead);
    }
    var result := Pair(BaseFields, row);
    var groupResults := FillGroupRecords(schema.analysisGroups, schema.groupResultFieldNames, At(row, 5).value);
    if groupResults.Err? {
      return Err(groupResults.error);
    }
    r := Ok(Obj(result["group_results" := Obj(groupResults.value)]));
  }

  /**
   * A decoded row holds positions 0 to 4 under `gene_id`, `gene_symbol`,
   * `gene_name`, `chrom` and `pos`, and one record per analysis group.
   */
  lemma DecodedGeneResult(schema: GeneSchema, row: Value)
    requires DecodeGeneResultSpec(schema, row).Ok?
    ensures var v := DecodeGeneResultSpec(schema, row).value;
            v.Obj? &&
            (forall k :: k in v.fields <==> k in BaseFields || k == "group_results") &&
            (forall i | 0 <= i < 5 :: v.fields[BaseFields[i]] == At(row, i).value) &&
            v.fields["group_results"].Obj? &&
            v.fields["group_results"].fields.Keys == set g | g in schema.analysisGroups
  {
    var base := Pair(BaseFields, row);
    BaseFieldsPaired(row);
    var groups := GroupRecords(schema.analysisGroups, schema.groupResultFieldNames, At(row, 5).value).value;
    GroupRecordsKeys(schema.analysisGroups, schema.groupResultFieldNames, At(row, 5).value);
    var v := Obj(base["group_results" := Obj(groups)]);
    assert DecodeGeneResultSpec(schema, row).value == v;
    assert forall i | 0 <= i < 5 :: BaseFields[i] != "group_results";
  }

  /** The base fields of a row, paired with its positions 0 to 4. */
  lemma BaseFieldsPaired(row: Value)
    requires !IsNullish(row)
    ensures forall k :: k in Pair(BaseFields, row) <==> k in BaseFields
    ensures forall i | 0 <= i < 5 :: Pair(BaseFields, row)[BaseFields[i]] == At(row, i).value
  {
    PairValue(BaseFields, row, 0);
    PairValue(BaseFields, row, 1);
    PairValue(BaseFields, row, 2);
    PairValue(BaseFields, row, 3);
    PairValue(BaseFields, row, 4);
    forall k ensures k in Pair(BaseFields, row) <==> k in BaseFields {
      PairKeys(BaseFields, row, k);
    }
  }

  /** `defaultAnalysisGroup || gene_result_analysis_groups[0]` */
  function DefaultAnalysisGroup(given: Option<string>, groups: seq<string>): (r: Option<string>)
    ensures given.Some? && given.value != "" ==> r == given
    ensures (given.None? || given.value == "") && groups != [] ==> r == Some(groups[0])
    ensures (given.None? || given.value == "") && groups == [] ==> r.None?
  {
    if given.Some? && given.value != "" then given
    else if groups != [] then Some(groups[0])
    else None
  }

  /** `analysisGroupOptions || gene_result_analysis_groups`: a given list, even an empty one, is kept. */
  function AnalysisGroupOptions(given: Option<seq<string>>, groups: seq<string>): (r: seq<string>)
    ensures given.Some? ==> r == given.value
    ensures given.None? ==> r == groups
  {
    if given.Some? then given.value else groups
  }

  // ---------------------------------------------------------------------
  // Search and flattening

  const IncludesNotAFunction := "TypeError: includes is not a function"
  const UpperNotAFunction := "TypeError: toUpperCase is not a function"

  /** `(x || '').includes(text)`: a substring of a string, an element of an array. */
  function OrEmptyIncludes(x: Value, text: string): Result<bool, string> {
    match Or(x, Str(""))
    case Str(s) => Ok(Contains(s, text))
    case Arr(items) => Ok(Str(text) in items)
    case _ => Err(IncludesNotAFunction)
  }

  /** `(x || '').toUpperCase().includes(text)` */
  function OrEmptyUpperIncludes(x: Value, text: string): Result<bool, string> {
    match Or(x, Str(""))
    case Str(s) => Ok(Contains(ToUpper(s), text))
    case _ => Err(UpperNotAFunction)
  }

  /** The search callback; `||` stops at the first match, and reading `gene_id` of a nullish result throws. */
  function GeneSearchTest(searchText: string, result: Value): (r: Result<bool, string>)
    ensures IsNullish(result) ==> r == Err(NullPropertyRead)
  {
    if IsNullish(result) then Err(NullPropertyRead)
    else
      match OrEmptyIncludes(Field(result, "gene_id"), searchText)
      case Err(e) => Err(e)
      case Ok(true) => Ok(true)
      case Ok(false) =>
        match OrEmptyIncludes(Field(result, "gene_symbol"), searchText)
        case Err(e) => Err(e)
        case Ok(true) => Ok(true)
        case Ok(false) => OrEmptyUpperIncludes(Field(result, "gene_name"), searchText)
  }

  function GeneSearchCallback(searchText: string): Value -> Result<bool, string> {
    v => GeneSearchTest(searchText, v)
  }

  /** A result, not `null` or `undefined`, whose three searched fields are text or missing. */
  predicate GeneSearchable(v: Value) {
    !IsNullish(v) && OptionalText(v, "gene_id") && OptionalText(v, "gene_symbol") && OptionalText(v, "gene_name")
  }

  /**
   * A gene matches the (uppercased) search text when its id or symbol contains
   * it as written, or its uppercased name contains it.
   */
  predicate MatchesGene(searchText: string, v: Value) {
    Contains(TextOf(v, "gene_id"), searchText) ||
    Contains(TextOf(v, "gene_symbol"), searchText) ||
    Contains(ToUpper(TextOf(v, "gene_name")), searchText)
  }

  function MatchesGeneAt(searchText: string): Value -> bool {
    v => MatchesGene(searchText, v)
  }

  lemma GeneSearchTestMatches(searchText: string, v: Value)
    requires GeneSearchable(v)
    ensures GeneSearchTest(searchText, v) == Ok(MatchesGene(searchText, v))
  {
    assert Or(Field(v, "gene_id"), Str("")) == Str(TextOf(v, "gene_id"));
    assert Or(Field(v, "gene_symbol"), Str("")) == Str(TextOf(v, "gene_symbol"));
    assert Or(Field(v, "gene_name"), Str("")) == Str(TextOf(v, "gene_name"));
  }

  /** `{ ...result, ...result.group_results[group] }`; spreading a value that is not an object adds nothing. */
  function Flatten(result: Value, group: string): (r: Result<Value, string>)
    ensures r.Err? <==> IsNullish(Field(result, "group_results"))
    ensures r.Ok? ==> (r.value.Obj? &&
              var gr := Field(Field(result, "group_results"), group);
              forall k :: Entry(r.value.fields, k) ==
                if gr.Obj? && k in gr.fields then gr.fields[k]
                else if result.Obj? then Entry(result.fields, k) else Undefined)
  {
    var groupResults := Field(result, "group_results");
    if IsNullish(groupResults) then Err(NullPropertyRead)
    else
      var base: map<string, Value> := if result.Obj? then result.fields else map[];
      var gr := Field(groupResults, group);
      Ok(Obj(if gr.Obj? then base + gr.fields else base))
  }

  function FlattenTo(group: string): Value -> Result<Value, string> {
    v => Flatten(v, group)
  }

  /** The rows the page hands to the table and the CSV export. */
  function VisibleResults(geneResults: seq<Value>, searchText: string, group: string): Result<seq<Value>, string> {
    match FilterChecked(geneResults, GeneSearchCallback(searchText))
    case Err(e) => Err(e)
    case Ok(kept) => MapChecked(kept, FlattenTo(group))
  }

  /** A decoded gene result: an object with an object under `group_results`. */
  predicate GeneDecoded(v: Value) {
    v.Obj? && Entry(v.fields, "group_results").Obj?
  }

  /**
   * On decoded results the page keeps exactly the matching genes, in their
   * order, each flattened with the selected group's fields.
   */
  lemma VisibleResultsKeeps(geneResults: seq<Value>, searchText: string, group: string)
    requires forall i | 0 <= i < |geneResults| :: GeneSearchable(geneResults[i]) && GeneDecoded(geneResults[i])
    ensures var kept := Filter(geneResults, MatchesGeneAt(searchText));
            VisibleResults(geneResults, searchText, group).Ok? &&
            |VisibleResults(geneResults, searchText, group).value| == |kept| &&
            forall i | 0 <= i < |kept| :: Ok(VisibleResults(geneResults, searchText, group).value[i]) == Flatten(kept[i], group)
  {
    forall i | 0 <= i < |geneResults|
      ensures GeneSearchCallback(searchText)(geneResults[i]) == Ok(MatchesGeneAt(searchText)(geneResults[i]))
    {
      GeneSearchTestMatches(searchText, geneResults[i]);
    }
    FilterCheckedKeeps(geneResults, GeneSearchCallback(searchText), MatchesGeneAt(searchText));
    var kept := Filter(geneResults, MatchesGeneAt(searchText));
    forall i | 0 <= i < |kept| ensures FlattenTo(group)(kept[i]).Ok? {
      assert kept[i] in geneResults;
    }
  }

  /** Every string contains the empty string, so an empty search keeps every gene. */
  lemma EmptySearchKeepsAll(geneResults: seq<Value>)
    ensures Filter(geneResults, MatchesGeneAt("")) == geneResults
  {
    forall v | v in geneResults ensures MatchesGeneAt("")(v) {
      assert OccursAt(TextOf(v, "gene_id"), "", 0);
    }
    FilterAll(geneResults, MatchesGeneAt(""));
  }

  // ---------------------------------------------------------------------
  // Page state

  /** The state the search box and the group menu replace. */
  class GeneResultsPageState {
    var searchText: string
    var selectedAnalysisGroup: string

    /** The stored search text is always uppercase. */
    ghost predicate Valid()
      reads this
    {
      IsUpper(searchText)
    }

    constructor(defaultAnalysisGroup: string)
      ensures Valid()
      ensures searchText == "" && selectedAnalysisGroup == defaultAnalysisGroup
    {
      searchText := "";
      selectedAnalysisGroup := defaultAnalysisGroup;
    }

    /** The search box stores what was typed, uppercased. */
    method OnSearchInput(value: string)
      modifies this
      ensures Valid()
      ensures searchText == ToUpper(value) && selectedAnalysisGroup == old(selectedAnalysisGroup)
    {
      ToUpperIdempotent(value);
      searchText := ToUpper(value);
    }

    /** The group menu stores the chosen group. */
    method OnSelectGroup(group: string)
      requires Valid()
      modifies this
      ensures Valid()
      ensures selectedAnalysisGroup == group && searchText == old(searchText)
    {
      selectedAnalysisGroup := group;
    }
  }
}
