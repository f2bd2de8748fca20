/**
 * The SCHEMA browser's configuration (src/browsers/schema/SCHEMABrowser.js):
 * its consequence table and its two-flag custom variant filter.
 */
module SchemaBrowser {
  import opened Wrappers
  import opened JsValues
  import opened Seqs
  import opened Consequences
  import opened VariantDecoder
  import opened VariantSelection
  import opened VariantFilterControls
  import opened CustomFilters

  /** `variantConsequences` */
  const VariantConsequences: seq<ConsequenceConfig> := [
    ConsequenceConfig("lof", Some("loss of function"), Some("lof")),
    ConsequenceConfig("stoplost", Some("stop lost"), Some("missense")),
    ConsequenceConfig("startlost", Some("start lost"), Some("missense")),
    ConsequenceConfig("mis", Some("missense (MPC\U{00a0}<\U{00a0}2)"), Some("missense")),
    ConsequenceConfig("mis2", Some("missense (2\U{00a0}\U{2264}\U{00a0}MPC\U{00a0}<\U{00a0}3)"), Some("missense")),
    ConsequenceConfig("mis3", Some("missense (MPC\U{00a0}\U{2265}\U{00a0}3)"), Some("missense")),
    ConsequenceConfig("ns", Some("inframe indel"), Some("missense")),
    ConsequenceConfig("syn", Some("synonymous"), Some("synonymous")),
    ConsequenceConfig("splice", Some("splice region"), Some("other"))
  ]

  /** `variantCustomFilter.defaultFilter`: both flags off. */
  const DefaultCustomFilter := CustomFilterState(onlyInAnalysis := false, onlyDeNovo := false)

  const DeNovoPath := ["group_result", "n_denovos"]
  const InAnalysisPath := ["group_result", "in_analysis"]

  /** `variantCustomFilter.applyFilter`: first the de novo filter, then the in-analysis filter, each when its flag is set. */
  function ApplyFilter(variants: seq<Value>, filter: CustomFilterState): (r: Result<seq<Value>, string>)
    ensures !filter.onlyDeNovo && !filter.onlyInAnalysis ==> r == Ok(variants)
  {
    var afterDeNovo := if filter.onlyDeNovo then FilterChecked(variants, TestAt(DeNovoPath, Positive)) else Ok(variants);
    match afterDeNovo
    case Err(e) => Err(e)
    case Ok(vs) => OnlyInAnalysis(vs, InAnalysisPath, filter.onlyInAnalysis)
  }

  /** The de novo test: `n_denovos > 0`, or anything when the flag is off. */
  function KeepDeNovo(onlyDeNovo: bool): Value -> bool {
    v => !onlyDeNovo || Positive(Walk(v, DeNovoPath))
  }

  /** The variants a filter state lets through: `n_denovos > 0` if asked, and a truthy `in_analysis` if asked. */
  function Passes(filter: CustomFilterState): Value -> bool {
    v => KeepDeNovo(filter.onlyDeNovo)(v) && KeepTruthyAt(InAnalysisPath, filter.onlyInAnalysis)(v)
  }

  /**
   * On the rows of the variant table the filter does not throw, and it keeps
   * exactly the variants that satisfy every selected condition, in input order.
   */
  lemma ApplyFilterKeeps(variants: seq<Value>, filter: CustomFilterState)
    requires forall i | 0 <= i < |variants| :: HasGroupResult(variants[i])
    ensures ApplyFilter(variants, filter) == Ok(Filter(variants, Passes(filter)))
  {
    DeNovoStep(variants, filter.onlyDeNovo);
    var vs := Filter(variants, KeepDeNovo(filter.onlyDeNovo));
    KeptRowsHaveGroupResult(variants, KeepDeNovo(filter.onlyDeNovo));
    GroupResultReadable(vs, "in_analysis");
    OnlyInAnalysisKeeps(vs, InAnalysisPath, filter.onlyInAnalysis);
    FilterFilter(variants, KeepDeNovo(filter.onlyDeNovo), KeepTruthyAt(InAnalysisPath, filter.onlyInAnalysis), Passes(filter));
  }

  lemma DeNovoStep(variants: seq<Value>, onlyDeNovo: bool)
    requires forall i | 0 <= i < |variants| :: HasGroupResult(variants[i])
    ensures (if onlyDeNovo then FilterChecked(variants, TestAt(DeNovoPath, Positive)) else Ok(variants)) ==
            Ok(Filter(variants, KeepDeNovo(onlyDeNovo)))
  {
    GroupResultReadable(variants, "n_denovos");
    if onlyDeNovo {
      FilterCheckedKeeps(variants, TestAt(DeNovoPath, Positive), KeepDeNovo(onlyDeNovo));
    } else {
      FilterAll(variants, KeepDeNovo(onlyDeNovo));
    }
  }

  lemma KeptRowsHaveGroupResult(variants: seq<Value>, keep: Value -> bool)
    requires forall i | 0 <= i < |variants| :: HasGroupResult(variants[i])
    ensures forall i | 0 <= i < |Filter(variants, keep)| :: HasGroupResult(Filter(variants, keep)[i])
  {
    var vs := Filter(variants, keep);
    forall i | 0 <= i < |vs| ensures HasGroupResult(vs[i]) {
      assert vs[i] in vs;
      var j :| 0 <= j < |variants| && variants[j] == vs[i];
    }
  }

  /** The default custom filter lets every variant through. */
  lemma DefaultFilterKeepsAll(variants: seq<Value>)
    ensures ApplyFilter(variants, DefaultCustomFilter) == Ok(variants)
  {
  }

  /** No consequence term is configured twice. */
  lemma ConsequenceTermsDistinct()
    ensures forall a, b | 0 <= a < b < |VariantConsequences| :: VariantConsequences[a].term != VariantConsequences[b].term
  {
    var terms := ["lof", "stoplost", "startlost", "mis", "mis2", "mis3", "ns", "syn", "splice"];
    assert forall i | 0 <= i < 9 :: VariantConsequences[i].term == terms[i];
    assert forall a, b | 0 <= a < b < 9 :: terms[a] != terms[b];
  }

  /** The dictionary the decoder builds from the SCHEMA consequences. */
  lemma DecoderCategories()
    ensures var table := DecoderTable(VariantConsequences);
            "lof" in table && table["lof"].category == "lof" &&
            "syn" in table && table["syn"].category == "synonymous" &&
            "splice" in table && table["splice"].category == "other" &&
            forall t | t in ["stoplost", "startlost", "mis", "mis2", "mis3", "ns"] :: t in table && table[t].category == "missense"
  {
    ConsequenceTermsDistinct();
    DecoderTableDistinct(VariantConsequences, 0);
    DecoderTableDistinct(VariantConsequences, 7);
    DecoderTableDistinct(VariantConsequences, 8);
    MissenseCategories();
  }

  lemma MissenseCategories()
    ensures var table := DecoderTable(VariantConsequences);
            forall t | t in ["stoplost", "startlost", "mis", "mis2", "mis3", "ns"] :: t in table && table[t].category == "missense"
  {
    ConsequenceTermsDistinct();
    var missense := ["stoplost", "startlost", "mis", "mis2", "mis3", "ns"];
    forall t | t in missense ensures t in DecoderTable(VariantConsequences) && DecoderTable(VariantConsequences)[t].category == "missense" {
      var k :| 0 <= k < 6 && missense[k] == t;
      assert VariantConsequences[k + 1].term == t;
      DecoderTableDistinct(VariantConsequences, k + 1);
    }
  }
}
