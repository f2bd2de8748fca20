/**
 * The building blocks of the browsers' custom variant filters: each one is a
 * chain of `variants.filter((v) => <test of v.a.b>)` calls, where reading
 * through a `null` or `undefined` value throws.
 */
module CustomFilters {
  import opened Wrappers
  import opened JsValues
  import opened Seqs
  import opened VariantSelection

  /** `test(v.a.b)`: the test applied to the value at `path`, or the exception the read throws. */
  function ReadTest(path: seq<string>, test: Value -> bool, v: Value): Result<bool, string> {
    match Read(v, path)
    case Ok(x) => Ok(test(x))
    case Err(e) => Err(e)
  }

  /** The filter callback `(v) => test(v.a.b)`. */
  function TestAt(path: seq<string>, test: Value -> bool): Value -> Result<bool, string> {
    v => ReadTest(path, test, v)
  }

  /** The rows of the variant table can be read at `group_result.<field>`. */
  lemma GroupResultReadable(variants: seq<Value>, field: string)
    requires forall i | 0 <= i < |variants| :: HasGroupResult(variants[i])
    ensures forall i | 0 <= i < |variants| :: Read(variants[i], ["group_result", field]).Ok?
  {
    forall i | 0 <= i < |variants| ensures Read(variants[i], ["group_result", field]).Ok? {
      ReadTwo(variants[i], "group_result", field);
    }
  }

  /**
   * The `onlyInAnalysis` filter most browsers share: when the flag is set,
   * `variants.filter((v) => <value at path>)`, otherwise the variants as they are.
   */
  function OnlyInAnalysis(variants: seq<Value>, path: seq<string>, onlyInAnalysis: bool): (r: Result<seq<Value>, string>)
    ensures !onlyInAnalysis ==> r == Ok(variants)
  {
    if onlyInAnalysis then FilterChecked(variants, TestAt(path, Truthy)) else Ok(variants)
  }

  /** The test `OnlyInAnalysis` applies: a truthy value at `path`, or anything when the flag is off. */
  function KeepTruthyAt(path: seq<string>, onlyInAnalysis: bool): Value -> bool {
    v => !onlyInAnalysis || Truthy(Walk(v, path))
  }

  /** Where the path can be read, the filter is `Array.prototype.filter` by the truthiness of the value there. */
  lemma OnlyInAnalysisKeeps(variants: seq<Value>, path: seq<string>, onlyInAnalysis: bool)
    requires forall i | 0 <= i < |variants| :: Read(variants[i], path).Ok?
    ensures OnlyInAnalysis(variants, path, onlyInAnalysis) == Ok(Filter(variants, KeepTruthyAt(path, onlyInAnalysis)))
  {
    if onlyInAnalysis {
      FilterCheckedKeeps(variants, TestAt(path, Truthy), KeepTruthyAt(path, onlyInAnalysis));
    } else {
      FilterAll(variants, KeepTruthyAt(path, onlyInAnalysis));
    }
  }
}
