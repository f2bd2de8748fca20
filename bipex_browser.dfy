/**
 * The BipEx browser's configuration (src/browsers/bipex/BipExBrowser.js): its
 * analysis groups, its consequence table and its custom filter.
 */
module BipExBrowser {
  import opened Wrappers
  import opened JsValues
  import opened Seqs
  import opened Consequences
  import opened VariantDecoder
  import opened VariantSelection
  import opened VariantFilterControls
  import opened CustomFilters

  const DefaultVariantAnalysisGroup := "Bipolar Disorder"
  const VariantAnalysisGroupOptions := [
    "Bipolar Disorder",
    "Bipolar Disorder 1",
    "Bipolar Disorder 2",
    "Bipolar Disorder with Psychosis",
    "Bipolar Disorder without Psychosis",
    "Bipolar Disorder (including Schizoaffective)"
  ]

  /** `variantConsequences`; the term `NA` has the empty label. */
  const VariantConsequences: seq<ConsequenceConfig> := [
    ConsequenceConfig("damaging_missense", Some("Damaging Missense"), Some("missense")),
    ConsequenceConfig("non_coding", Some("Non-coding"), Some("other")),
    ConsequenceConfig("other_missense", Some("Other Missense"), Some("missense")),
    ConsequenceConfig("ptv", Some("Protein-truncating"), Some("lof")),
    ConsequenceConfig("synonymous", Some("Synonymous"), Some("synonymous")),
    ConsequenceConfig("NA", Some(""), Some("other"))
  ]

  /** `variantCustomFilter.defaultFilter`: `onlyInAnalysis` off. */
  const DefaultCustomFilter := CustomFilterState(onlyInAnalysis := false, onlyDeNovo := false)

  const InAnalysisPath := ["group_result", "in_analysis"]

  /** `variantCustomFilter.applyFilter`: `variants.filter((v) => v.group_result.in_analysis)` when the flag is set. */
  function ApplyFilter(variants: seq<Value>, filter: CustomFilterState): (r: Result<seq<Value>, string>)
    ensures !filter.onlyInAnalysis ==> r == Ok(variants)
  {
    OnlyInAnalysis(variants, InAnalysisPath, filter.onlyInAnalysis)
  }

  /** On the rows of the variant table the filter does not throw, and keeps the rows in the analysis, in order. */
  lemma ApplyFilterKeeps(variants: seq<Value>, filter: CustomFilterState)
    requires forall i | 0 <= i < |variants| :: HasGroupResult(variants[i])
    ensures ApplyFilter(variants, filter) == Ok(Filter(variants, KeepTruthyAt(InAnalysisPath, filter.onlyInAnalysis)))
  {
    GroupResultReadable(variants, "in_analysis");
    OnlyInAnalysisKeeps(variants, InAnalysisPath, filter.onlyInAnalysis);
  }

  /** The default custom filter lets every variant through. */
  lemma DefaultFilterKeepsAll(variants: seq<Value>)
    ensures ApplyFilter(variants, DefaultCustomFilter) == Ok(variants)
  {
  }

  /** The default group is one of the options, so the menu opens on it. */
  lemma DefaultGroupIsAnOption()
    ensures DefaultVariantAnalysisGroup in VariantAnalysisGroupOptions
    ensures ShowsGroupSelector(VariantAnalysisGroupOptions)
  {
  }

  /** No consequence term is configured twice. */
  lemma ConsequenceTermsDistinct()
    ensures forall a, b | 0 <= a < b < |VariantConsequences| :: VariantConsequences[a].term != VariantConsequences[b].term
  {
    var terms := ["damaging_missense", "non_coding", "other_missense", "ptv", "synonymous", "NA"];
    assert forall i | 0 <= i < 6 :: VariantConsequences[i].term == terms[i];
    assert forall a, b | 0 <= a < b < 6 :: terms[a] != terms[b];
  }

  /**
   * The dictionary the decoder builds: `NA`'s empty label is falsy, so the
   * term itself is shown.
   */
  lemma DecoderEntries()
    ensures var table := DecoderTable(VariantConsequences);
            "ptv" in table && table["ptv"] == ConsequenceEntry("Protein-truncating", "lof") &&
            "damaging_missense" in table && table["damaging_missense"] == ConsequenceEntry("Damaging Missense", "missense") &&
            "other_missense" in table && table["other_missense"] == ConsequenceEntry("Other Missense", "missense") &&
            "synonymous" in table && table["synonymous"] == ConsequenceEntry("Synonymous", "synonymous") &&
            "non_coding" in table && table["non_coding"] == ConsequenceEntry("Non-coding", "other") &&
            "NA" in table && table["NA"] == ConsequenceEntry("NA", "other")
  {
    var c := VariantConsequences;
    ConsequenceTermsDistinct();
    DecoderTableDistinct(c, 0);
    DecoderTableDistinct(c, 1);
    DecoderTableDistinct(c, 2);
    DecoderTableDistinct(c, 3);
    DecoderTableDistinct(c, 4);
    DecoderTableDistinct(c, 5);
  }
}
