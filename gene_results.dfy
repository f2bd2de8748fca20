/**
 * The gene page's per-dataset gene results (src/browsers/base/GenePage/GeneResults.js):
 * every dataset with a result is decoded against that dataset's own metadata,
 * and only the active dataset's results reach its registered component.
 */
module GeneResults {
  import opened Wrappers
  import opened JsValues
  import opened VariantDecoder
  import opened GeneResultsPage

  /** The `forEach` over `Object.keys(geneResults)`, as the object's entries in key order. */
  function DecodeDatasetsSpec(entries: seq<(string, Value)>, datasets: map<string, GeneSchema>): Result<map<string, Value>, string>
    decreases |entries|
  {
    if entries == [] then Ok(map[])
    else
      var last := entries[|entries| - 1];
      match DecodeDatasetsSpec(entries[..|entries| - 1], datasets)
      case Err(e) => Err(e)
      case Ok(results) =>
        if !Truthy(last.1) then Ok(results)
        else if last.0 !in datasets then Err(NullPropertyRead)
        else
          var schema := datasets[last.0];
          match GroupRecords(schema.analysisGroups, schema.groupResultFieldNames, Field(last.1, "group_results"))
          case Err(e) => Err(e)
          case Ok(datasetResults) => Ok(results[last.0 := Obj(datasetResults)])
  }

  /** One dataset's groups, read with that dataset's own group list and field names. */
  function DecodeDataset(dataset: string, value: Value, datasets: map<string, GeneSchema>): Result<map<string, Value>, string> {
    if dataset !in datasets then Err(NullPropertyRead)
    else GroupRecords(datasets[dataset].analysisGroups, datasets[dataset].groupResultFieldNames, Field(value, "group_results"))
  }

  predicate DistinctKeys(entries: seq<(string, Value)>) {
    forall i, j | 0 <= i < j < |entries| :: entries[i].0 != entries[j].0
  }

  /** Decoding fails exactly when some dataset with a result cannot be decoded. */
  lemma {:induction false} DecodeDatasetsOk(entries: seq<(string, Value)>, datasets: map<string, GeneSchema>)
    ensures DecodeDatasetsSpec(entries, datasets).Ok? <==>
              forall i | 0 <= i < |entries| && Truthy(entries[i].1) :: DecodeDataset(entries[i].0, entries[i].1, datasets).Ok?
    decreases |entries|
  {
    if entries != [] {
      var init := entries[..|entries| - 1];
      DecodeDatasetsOk(init, datasets);
      assert forall i | 0 <= i < |init| :: init[i] == entries[i];
    }
  }

  /**
   * Only the datasets whose result is truthy are decoded, and each holds the
   * groups of its own metadata.
   */
  lemma {:induction false} DecodeDatasetsShape(entries: seq<(string, Value)>, datasets: map<string, GeneSchema>, dataset: string)
    requires DistinctKeys(entries)
    requires DecodeDatasetsSpec(entries, datasets).Ok?
    ensures dataset in DecodeDatasetsSpec(entries, datasets).value <==>
              exists i | 0 <= i < |entries| :: entries[i].0 == dataset && Truthy(entries[i].1)
    ensures forall i | 0 <= i < |entries| && entries[i].0 == dataset && Truthy(entries[i].1) ::
              DecodeDataset(dataset, entries[i].1, datasets).Ok? &&
              DecodeDatasetsSpec(entries, datasets).value[dataset] == Obj(DecodeDataset(dataset, entries[i].1, datasets).value)
    decreases |entries|
  {
    if entries != [] {
      var init := entries[..|entries| - 1];
      assert forall i | 0 <= i < |init| :: init[i] == entries[i];
      DecodeDatasetsShape(init, datasets, dataset);
    }
  }

  lemma {:induction false} DecodeDatasetsErrorPersists(entries: seq<(string, Value)>, datasets: map<string, GeneSchema>, n: nat)
    requires n <= |entries| && DecodeDatasetsSpec(entries[..n], datasets).Err?
    ensures DecodeDatasetsSpec(entries, datasets) == DecodeDatasetsSpec(entries[..n], datasets)
    decreases |entries| - n
  {
    if n < |entries| {
      assert entries[..n + 1][..n] == entries[..n];
      DecodeDatasetsErrorPersists(entries, datasets, n + 1);
    } else {
      assert entries[..n] == entries;
    }
  }

  /** `GeneResultsContainer`: the loop over the datasets, each decoded by the group loops of the results page. */
  method DecodeDatasets(entries: seq<(string, Value)>, datasets: map<string, GeneSchema>) returns (r: Result<map<string, Value>, string>)
    ensures r == DecodeDatasetsSpec(entries, datasets)
  {
    var results: map<string, Value> := map[];
    var k := 0;
    while k < |entries|
      invariant 0 <= k <= |entries|
      invariant DecodeDatasetsSpec(entries[..k], datasets) == Ok(results)
    {
      assert entries[..k + 1][..k] == entries[..k];
      var (dataset, value) := entries[k];
      if Truthy(value) {
        if dataset !in datasets {
          DecodeDatasetsErrorPersists(entries, datasets, k + 1);
          return Err(NullPropertyRead);
        }
        var schema := datasets[dataset];
        var datasetResults := FillGroupRecords(schema.analysisGroups, schema.groupResultFieldNames, Field(value, "group_results"));
        if datasetResults.Err? {
          DecodeDatasetsErrorPersists(entries, datasets, k + 1);
          return Err(datasetResults.error);
        }
        results := results[dataset := Obj(datasetResults.value)];
      }
      k := k + 1;
    }
    assert entries[..|entries|] == entries;
    r := Ok(results);
  }

  /**
   * `GeneResults`: nothing is rendered without a component for the active
   * dataset; otherwise the component gets that dataset's results, or `{}`.
   */
  function ActiveResults(results: map<string, Value>, datasetId: string, hasComponent: bool): (r: Option<Value>)
    ensures r.Some? <==> hasComponent
    ensures hasComponent && datasetId in results && Truthy(results[datasetId]) ==> r == Some(results[datasetId])
    ensures hasComponent && (datasetId !in results || !Truthy(results[datasetId])) ==> r == Some(Obj(map[]))
  {
    if !hasComponent then None else Some(Or(Entry(results, datasetId), Obj(map[])))
  }

  /** The active dataset's component sees what its own entry decoded to, or `{}` when it had no result. */
  lemma ActiveDatasetResults(entries: seq<(string, Value)>, datasets: map<string, GeneSchema>, datasetId: string)
    requires DistinctKeys(entries)
    requires DecodeDatasetsSpec(entries, datasets).Ok?
    ensures var shown := ActiveResults(DecodeDatasetsSpec(entries, datasets).value, datasetId, true).value;
            (forall i | 0 <= i < |entries| && entries[i].0 == datasetId && Truthy(entries[i].1) ::
               DecodeDataset(datasetId, entries[i].1, datasets).Ok? &&
               shown == Obj(DecodeDataset(datasetId, entries[i].1, datasets).value)) &&
            ((forall i | 0 <= i < |entries| && entries[i].0 == datasetId :: !Truthy(entries[i].1)) ==> shown == Obj(map[]))
  {
    DecodeDatasetsShape(entries, datasets, datasetId);
  }
}
