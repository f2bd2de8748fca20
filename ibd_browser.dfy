/**
 * The IBD browser's configuration (src/browsers/ibd/IBDBrowser.js): its
 * analysis groups, its one-entry consequence table and its custom filter.
 */
module IbdBrowser {
  import opened Wrappers
  import opened JsValues
  import opened Seqs
  import opened Consequences
  import opened VariantDecoder
  import opened VariantSelection
  import opened VariantFilterControls
  import opened CustomFilters

  const DefaultVariantAnalysisGroup := "ibd-control"
  const VariantAnalysisGroupOptions := ["cd-control", "ibd-control", "uc-control"]

  /** `variantConsequences`: only `missense_variant`. */
  const VariantConsequences: seq<ConsequenceConfig> := [
    ConsequenceConfig("missense_variant", Some("Missense variant"), Some("missense"))
  ]

  /** `variantCustomFilter.defaultFilter`: `onlyInAnalysis` off. */
  const DefaultCustomFilter := CustomFilterState(onlyInAnalysis := false, onlyDeNovo := false)

  const InAnalysisPath := ["group_result", "in_analysis"]

  /** `variantCustomFilter.applyFilter`: `variants.filter((v) => v.group_result.in_analysis)` when the flag is set. */
  function ApplyFilter(variants: seq<Value>, filter: CustomFilterState): (r: Result<seq<Value>, string>)
    ensures !filter.onlyInAnalysis ==> r == Ok(variants)
  {
    OnlyInAnalysis(variants, InAnalysisPath, filter.onlyInAnalysis)
  }

  /** On the rows of the variant table the filter does not throw, and keeps the rows in the analysis, in order. */
  lemma ApplyFilterKeeps(variants: seq<Value>, filter: CustomFilterState)
    requires forall i | 0 <= i < |variants| :: HasGroupResult(variants[i])
    ensures ApplyFilter(variants, filter) == Ok(Filter(variants, KeepTruthyAt(InAnalysisPath, filter.onlyInAnalysis)))
  {
    GroupResultReadable(variants, "in_analysis");
    OnlyInAnalysisKeeps(variants, InAnalysisPath, filter.onlyInAnalysis);
  }

  /** The default custom filter lets every variant through. */
  lemma DefaultFilterKeepsAll(variants: seq<Value>)
    ensures ApplyFilter(variants, DefaultCustomFilter) == Ok(variants)
  {
  }

  lemma DefaultGroupIsAnOption()
    ensures DefaultVariantAnalysisGroup in VariantAnalysisGroupOptions
  {
  }

  /**
   * A decoded variant whose consequence is any other term is in category
   * `other` and shows its raw term; `missense_variant` is shown with its label.
   */
  lemma DecodedConsequence(d: Draft, term: string)
    requires Entry(d.top, "consequence") == Str(term) && term != ""
    ensures var v := Finish(d, DecoderTable(VariantConsequences));
            if term == "missense_variant" then
              Entry(v.fields, "consequenceCategory") == Str("missense") && Entry(v.fields, "consequence") == Str("Missense variant")
            else
              Entry(v.fields, "consequenceCategory") == Str("other") && Entry(v.fields, "consequence") == Str(term)
  {
    var c := VariantConsequences;
    DecoderTableDistinct(c, 0);
    DecoderTableLastWins(c, term);
  }
}
