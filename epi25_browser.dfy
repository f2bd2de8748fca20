/**
 * The Epi25 browser's configuration (src/browsers/epi25/Epi25Browser.js): its
 * analysis groups, its In Analysis column, its consequence table (terms
 * without labels) and its custom filter, which reads `info.in_analysis`.
 */
module Epi25Browser {
  import opened Wrappers
  import opened JsValues
  import opened Seqs
  import opened Columns
  import VariantTableColumns
  import opened Consequences
  import opened VariantDecoder
  import opened VariantSelection
  import opened VariantFilterControls
  import opened CustomFilters

  const DefaultVariantAnalysisGroup := "EPI"
  const VariantAnalysisGroupOptions := ["EPI", "DEE", "GGE", "NAFE"]

  /** The In Analysis result column: exported as `'yes'` or `''`. */
  const InAnalysisColumn := ResultColumn("info.in_analysis", Some("In Analysis"), Some(85), Some(YesIfTruthy), None)

  /** `variantConsequences`: no entry has a label. */
  const VariantConsequences: seq<ConsequenceConfig> := [
    ConsequenceConfig("loss of function", None, Some("lof")),
    ConsequenceConfig("inframe indel", None, Some("missense")),
    ConsequenceConfig("missense", None, Some("missense")),
    ConsequenceConfig("other missense", None, Some("missense")),
    ConsequenceConfig("damaging missense", None, Some("missense")),
    ConsequenceConfig("damaging missense (MPC)", None, Some("missense")),
    ConsequenceConfig("synonymous", None, Some("synonymous")),
    ConsequenceConfig("splice_region", None, Some("other"))
  ]

  /** `variantCustomFilter.defaultFilter`; Epi25's filter has no de novo flag. */
  const DefaultCustomFilter := CustomFilterState(onlyInAnalysis := false, onlyDeNovo := false)

  const InAnalysisPath := ["info", "in_analysis"]

  /** `variantCustomFilter.applyFilter`: `variants.filter((v) => v.info.in_analysis)` when the flag is set. */
  function ApplyFilter(variants: seq<Value>, filter: CustomFilterState): (r: Result<seq<Value>, string>)
    ensures !filter.onlyInAnalysis ==> r == Ok(variants)
  {
    OnlyInAnalysis(variants, InAnalysisPath, filter.onlyInAnalysis)
  }

  /** On rows with an `info` object the filter does not throw and keeps the rows whose `info.in_analysis` is truthy. */
  lemma ApplyFilterKeeps(variants: seq<Value>, filter: CustomFilterState)
    requires forall i | 0 <= i < |variants| :: HasInfo(variants[i])
    ensures ApplyFilter(variants, filter) == Ok(Filter(variants, KeepTruthyAt(InAnalysisPath, filter.onlyInAnalysis)))
  {
    forall i | 0 <= i < |variants| ensures Read(variants[i], InAnalysisPath).Ok? {
      ReadTwo(variants[i], "info", "in_analysis");
    }
    OnlyInAnalysisKeeps(variants, InAnalysisPath, filter.onlyInAnalysis);
  }

  /** The filter reads `info`, not `group_result`: a variant in the analysis by its group result alone is dropped. */
  lemma ReadsInfoNotGroupResult()
    ensures var v := Obj(map["info" := Obj(map[]), "group_result" := Obj(map["in_analysis" := Bool(true)])]);
            ApplyFilter([v], CustomFilterState(true, false)) == Ok([])
  {
    var v := Obj(map["info" := Obj(map[]), "group_result" := Obj(map["in_analysis" := Bool(true)])]);
    var test := TestAt(InAnalysisPath, Truthy);
    assert Read(v, InAnalysisPath) == Ok(Undefined) by {
      assert Member(v, "info") == Obj(map[]);
      assert Read(v, InAnalysisPath) == Read(Obj(map[]), ["in_analysis"]);
      assert Read(Obj(map[]), ["in_analysis"]) == Read(Undefined, []);
    }
    assert test([v][0]) == Ok(false);
    FilterCheckedKeeps([v], test, _ => false);
    assert [v][..0] == [];
    assert ApplyFilter([v], CustomFilterState(true, false)) == FilterChecked([v], test);
  }

  lemma DefaultFilterKeepsAll(variants: seq<Value>)
    ensures ApplyFilter(variants, DefaultCustomFilter) == Ok(variants)
  {
  }

  /** No consequence term is configured twice. */
  lemma ConsequenceTermsDistinct()
    ensures forall a, b | 0 <= a < b < |VariantConsequences| :: VariantConsequences[a].term != VariantConsequences[b].term
  {
    var terms := ["loss of function", "inframe indel", "missense", "other missense", "damaging missense",
                  "damaging missense (MPC)", "synonymous", "splice_region"];
    assert forall i | 0 <= i < 8 :: VariantConsequences[i].term == terms[i];
    assert forall a, b | 0 <= a < b < 8 :: terms[a] != terms[b];
  }

  /** With no labels, the decoder shows each configured term as it is, with its configured category. */
  lemma DecoderEntries()
    ensures var table := DecoderTable(VariantConsequences);
            "loss of function" in table && "synonymous" in table && "splice_region" in table &&
            table["loss of function"] == ConsequenceEntry("loss of function", "lof") &&
            table["synonymous"] == ConsequenceEntry("synonymous", "synonymous") &&
            table["splice_region"] == ConsequenceEntry("splice_region", "other") &&
            forall t | t in ["inframe indel", "missense", "other missense", "damaging missense", "damaging missense (MPC)"] ::
              t in table && table[t] == ConsequenceEntry(t, "missense")
  {
    ConsequenceTermsDistinct();
    DecoderTableDistinct(VariantConsequences, 0);
    DecoderTableDistinct(VariantConsequences, 6);
    DecoderTableDistinct(VariantConsequences, 7);
    MissenseEntries();
  }

  lemma MissenseEntries()
    ensures var table := DecoderTable(VariantConsequences);
            forall t | t in ["inframe indel", "missense", "other missense", "damaging missense", "damaging missense (MPC)"] ::
              t in table && table[t] == ConsequenceEntry(t, "missense")
  {
    ConsequenceTermsDistinct();
    var missense := ["inframe indel", "missense", "other missense", "damaging missense", "damaging missense (MPC)"];
    forall t | t in missense ensures t in DecoderTable(VariantConsequences) && DecoderTable(VariantConsequences)[t] == ConsequenceEntry(t, "missense") {
      var k :| 0 <= k < 5 && missense[k] == t;
      assert VariantConsequences[k + 1].term == t;
      DecoderTableDistinct(VariantConsequences, k + 1);
    }
  }

  /** The In Analysis column exports `'yes'` for a truthy value and `''` otherwise. */
  lemma InAnalysisExport(row: Value)
    ensures var col := VariantTableColumns.ResultTableColumn(InAnalysisColumn);
            RenderForCsv(col, row) == if Truthy(Get(row, "info.in_analysis")) then Str("yes") else Str("")
  {
  }
}
