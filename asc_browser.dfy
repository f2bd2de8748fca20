/**
 * The ASC browser's configuration (src/browsers/asc/ASCBrowser.js): its
 * labelled analysis groups and its custom filter. It configures no
 * consequence table of its own.
 */
module AscBrowser {
  import opened Wrappers
  import opened JsValues
  import opened Seqs
  import opened Consequences
  import opened VariantDecoder
  import opened VariantSelection
  import opened VariantFilterControls
  import opened CustomFilters
  import VariantDetails

  const DefaultVariantAnalysisGroup := "ASC_DN"
  const VariantAnalysisGroupOptions := ["ASC_DN", "SWE", "DBS"]
  const VariantAnalysisGroupLabels := map[
    "ASC_DN" := "De novo variants",
    "SWE" := "Swedish cohort",
    "DBS" := "iPSYCH (\"Danish blood spot\") cohort"
  ]

  /** `variantCustomFilter.defaultFilter`: `onlyInAnalysis` off. */
  const DefaultCustomFilter := CustomFilterState(onlyInAnalysis := false, onlyDeNovo := false)

  const InAnalysisPath := ["group_result", "in_analysis"]

  /** `variantCustomFilter.applyFilter`: `variants.filter((v) => v.group_result.in_analysis)` when the flag is set. */
  function ApplyFilter(variants: seq<Value>, filter: CustomFilterState): (r: Result<seq<Value>, string>)
    ensures !filter.onlyInAnalysis ==> r == Ok(variants)
  {
    OnlyInAnalysis(variants, InAnalysisPath, filter.onlyInAnalysis)
  }

  /** On the rows of the variant table the filter does not throw, and keeps the rows in the analysis, in order. */
  lemma ApplyFilterKeeps(variants: seq<Value>, filter: CustomFilterState)
    requires forall i | 0 <= i < |variants| :: HasGroupResult(variants[i])
    ensures ApplyFilter(variants, filter) == Ok(Filter(variants, KeepTruthyAt(InAnalysisPath, filter.onlyInAnalysis)))
  {
    GroupResultReadable(variants, "in_analysis");
    OnlyInAnalysisKeeps(variants, InAnalysisPath, filter.onlyInAnalysis);
  }

  /** The default custom filter lets every variant through. */
  lemma DefaultFilterKeepsAll(variants: seq<Value>)
    ensures ApplyFilter(variants, DefaultCustomFilter) == Ok(variants)
  {
  }

  /** The default group is an option, and every option is shown with its label. */
  lemma DefaultGroupIsAnOption()
    ensures DefaultVariantAnalysisGroup in VariantAnalysisGroupOptions
    ensures forall g | g in VariantAnalysisGroupOptions ::
              g in VariantAnalysisGroupLabels && VariantDetails.GroupLabel(VariantAnalysisGroupLabels, g) == VariantAnalysisGroupLabels[g]
  {
  }
}
