/**
 * The SCHEMA variant results pipeline
 * (data_pipeline/data_pipeline/datasets/schema/schema_variant_results.py):
 * per-group result rows get `ac_case` with de novo counts added and a
 * sorted `source` list, are grouped by variant into a dict keyed by analysis
 * group, and are joined onto the variant annotations, whose consequence is
 * binned by MPC score for missense variants. Hail's missing values are
 * `None`; a comparison with a missing operand is missing.
 */
module SchemaVariantResults {
  import opened Wrappers
  import opened Strings
  import opened Seqs
  import Sorting
  import AscVariantResults

  type VariantKey = AscVariantResults.VariantKey

  // ---------------------------------------------------------------------
  // Missing-aware boolean expressions

  /** Hail's `&`: false wins over missing, and missing over true. */
  function And(a: Option<bool>, b: Option<bool>): (r: Option<bool>)
    ensures r == Some(true) <==> a == Some(true) && b == Some(true)
    ensures r == Some(false) <==> a == Some(false) || b == Some(false)
  {
    if a == Some(false) || b == Some(false) then Some(false)
    else if a == Some(true) && b == Some(true) then Some(true)
    else None
  }

  /** `term == t`, missing when `term` is. */
  function IsTerm(term: Option<string>, t: string): Option<bool> {
    match term
    case None => None
    case Some(x) => Some(x == t)
  }

  /** `score >= bound`, missing when `score` is. */
  function AtLeast(score: Option<real>, bound: real): Option<bool> {
    match score
    case None => None
    case Some(x) => Some(x >= bound)
  }

  /** One `.when(cond, value)` of `hl.case()`: a missing condition makes the whole case missing. */
  function When(cond: Option<bool>, value: string, otherwise: Option<string>): Option<string> {
    match cond
    case None => None
    case Some(true) => Some(value)
    case Some(false) => otherwise
  }

  // ---------------------------------------------------------------------
  // Consequence binning

  const Missense: string := "missense_variant"
  const MpcBinPrefix: string := "missense_variant_mpc_"
  const MpcHigh: string := "missense_variant_mpc_>=3"
  const MpcMedium: string := "missense_variant_mpc_2-3"
  const MpcLow: string := "missense_variant_mpc_<2"

  /** The `consequence` selected from `canonical_term` and `mpc`. */
  function BinnedConsequence(canonicalTerm: Option<string>, mpc: Option<real>): Option<string> {
    When(And(IsTerm(canonicalTerm, Missense), AtLeast(mpc, 3.0)), MpcHigh,
      When(And(IsTerm(canonicalTerm, Missense), AtLeast(mpc, 2.0)), MpcMedium,
        When(IsTerm(canonicalTerm, Missense), MpcLow, canonicalTerm)))
  }

  /** A missense variant with an MPC score falls in the bin its score lies in. */
  lemma MissenseBins(mpc: real)
    ensures mpc >= 3.0 ==> BinnedConsequence(Some(Missense), Some(mpc)) == Some(MpcHigh)
    ensures 2.0 <= mpc < 3.0 ==> BinnedConsequence(Some(Missense), Some(mpc)) == Some(MpcMedium)
    ensures mpc < 2.0 ==> BinnedConsequence(Some(Missense), Some(mpc)) == Some(MpcLow)
  {
  }

  /**
   * Every other term passes through unchanged, whether or not it has a
   * score, since `false & missing` is false; a missing term, or a missense
   * variant without a score, has a missing consequence.
   */
  lemma BinnedConsequenceMissing(canonicalTerm: Option<string>, mpc: Option<real>)
    ensures canonicalTerm.Some? && canonicalTerm.value != Missense ==> BinnedConsequence(canonicalTerm, mpc) == canonicalTerm
    ensures canonicalTerm.None? ==> BinnedConsequence(canonicalTerm, mpc).None?
    ensures canonicalTerm == Some(Missense) && mpc.None? ==> BinnedConsequence(canonicalTerm, mpc).None?
  {
  }

  /** The canonical term a binned consequence came from. */
  function UnbinnedTerm(consequence: string): string {
    if MpcBinPrefix <= consequence then Missense else consequence
  }

  /**
   * Binning loses only the score: for any term that is not itself a bin
   * name, the canonical term is recovered from the consequence, and a
   * higher score never gives a lower bin.
   */
  lemma BinningKeepsTerm(term: string, mpc: real, higher: real)
    requires !(MpcBinPrefix <= term)
    requires mpc <= higher
    ensures BinnedConsequence(Some(term), Some(mpc)).Some?
    ensures UnbinnedTerm(BinnedConsequence(Some(term), Some(mpc)).value) == term
    ensures BinIndex(BinnedConsequence(Some(term), Some(mpc)).value) <= BinIndex(BinnedConsequence(Some(term), Some(higher)).value)
  {
    assert MpcBinPrefix <= MpcHigh && MpcBinPrefix <= MpcMedium && MpcBinPrefix <= MpcLow;
  }

  /** The position of a bin, lowest scores first; other terms are 0. */
  function BinIndex(consequence: string): nat {
    if consequence == MpcLow then 1
    else if consequence == MpcMedium then 2
    else if consequence == MpcHigh then 3
    else 0
  }

  // ---------------------------------------------------------------------
  // Per-group results

  /** `hl.or_else(ac_case, 0) + hl.or_else(n_denovos, 0)` */
  function CaseCount(acCase: Option<int>, nDenovos: Option<int>): (r: int) {
    acCase.GetOr(0) + nDenovos.GetOr(0)
  }

  /**
   * The case count is never missing: a missing count or de novo count
   * contributes nothing, and otherwise the de novo carriers are added to
   * the case carriers.
   */
  lemma CaseCountSpec(acCase: Option<int>, nDenovos: Option<int>)
    ensures nDenovos.None? ==> CaseCount(acCase, nDenovos) == acCase.GetOr(0)
    ensures acCase.None? ==> CaseCount(acCase, nDenovos) == nDenovos.GetOr(0)
    ensures acCase.Some? && nDenovos.Some? ==> CaseCount(acCase, nDenovos) == acCase.value + nDenovos.value
    ensures nDenovos.GetOr(0) >= 0 ==> CaseCount(acCase, nDenovos) >= acCase.GetOr(0)
  {
  }

  /** String comparison as `hl.sorted` orders strings: by code unit. */
  function CompareStrings(a: string, b: string): int {
    if a == b then 0 else if LexLe(a, b) then -1 else 1
  }

  predicate Ascending(s: seq<string>) {
    forall i, j | 0 <= i < j < |s| :: LexLe(s[i], s[j])
  }

  /** `hl.sorted(hl.array(source))` */
  function SortedSources(sources: seq<string>): seq<string> {
    Sorting.InsertionSort(sources, CompareStrings)
  }

  /** `hl.delimit(hl.sorted(hl.array(source)), ", ")` */
  function SourceText(source: Option<seq<string>>): Option<string> {
    match source
    case None => None
    case Some(sources) => Some(Join(SortedSources(sources), ", "))
  }

  lemma CompareStringsStrictWeak(s: seq<string>)
    ensures Sorting.StrictWeakOn(s, CompareStrings)
  {
    forall a, b ensures CompareStrings(a, b) < 0 ==> CompareStrings(b, a) >= 0 {
      if CompareStrings(a, b) < 0 && LexLe(b, a) {
        LexLeAntisymmetric(a, b);
      }
    }
    forall a, b, c | CompareStrings(a, b) >= 0 && CompareStrings(b, c) >= 0 ensures CompareStrings(a, c) >= 0 {
      LexLeTotal(a, b);
      LexLeTotal(b, c);
      LexLeTotal(a, a);
      LexLeTransitive(c, b, a);
      if a != c && LexLe(a, c) {
        LexLeAntisymmetric(a, c);
      }
    }
  }

  lemma SortedIsAscending(s: seq<string>)
    requires Sorting.SortedBy(s, CompareStrings)
    ensures Ascending(s)
  {
    forall i, j | 0 <= i < j < |s| ensures LexLe(s[i], s[j]) {
      assert CompareStrings(s[j], s[i]) >= 0;
      LexLeTotal(s[i], s[j]);
      LexLeTotal(s[i], s[i]);
    }
  }

  /** The sources are listed in ascending order, each exactly as often as in the source set. */
  lemma SortedSourcesSpec(sources: seq<string>)
    ensures Ascending(SortedSources(sources))
    ensures multiset(SortedSources(sources)) == multiset(sources)
  {
    CompareStringsStrictWeak(sources);
    Sorting.SortSorted(sources, CompareStrings);
    Sorting.SortPermutation(sources, CompareStrings);
    SortedIsAscending(SortedSources(sources));
  }

  /** Two ascending lists of the same strings start with the same string. */
  lemma AscendingSameFirst(a: seq<string>, b: seq<string>)
    requires Ascending(a) && Ascending(b)
    requires multiset(a) == multiset(b) && a != []
    ensures b != [] && a[0] == b[0]
  {
    assert a[0] in multiset(b);
    var k :| 0 <= k < |b| && b[k] == a[0];
    assert b[0] in multiset(a);
    var m :| 0 <= m < |a| && a[m] == b[0];
    if k > 0 && m > 0 {
      assert LexLe(b[0], b[k]) && LexLe(a[0], a[m]);
      LexLeAntisymmetric(a[0], b[0]);
    }
  }

  lemma TailMultiset(s: seq<string>)
    requires s != []
    ensures multiset(s[1..]) == multiset(s) - multiset{s[0]}
  {
    assert s == [s[0]] + s[1..];
  }

  /** Two ascending lists of the same strings are the same list. */
  lemma {:induction false} AscendingUnique(a: seq<string>, b: seq<string>)
    requires Ascending(a) && Ascending(b)
    requires multiset(a) == multiset(b)
    ensures a == b
    decreases |a|
  {
    if a == [] {
      assert |b| == |multiset(b)| == 0;
    } else {
      AscendingSameFirst(a, b);
      TailMultiset(a);
      TailMultiset(b);
      AscendingUnique(a[1..], b[1..]);
      assert a == [a[0]] + a[1..] && b == [b[0]] + b[1..];
    }
  }

  /** The joined sources do not depend on the order the source set was read in. */
  lemma SourceTextOrderFree(a: seq<string>, b: seq<string>)
    requires multiset(a) == multiset(b)
    ensures SourceText(Some(a)) == SourceText(Some(b))
  {
    SortedSourcesSpec(a);
    SortedSourcesSpec(b);
    AscendingUnique(SortedSources(a), SortedSources(b));
  }

  /** The test statistics carried through unchanged. */
  datatype Statistics = Statistics(p: Option<real>, est: Option<real>, se: Option<real>, qp: Option<real>, i2: Option<real>)

  /** A row of the results table, keyed by locus and alleles, one per variant and analysis group. */
  datatype ResultRow = ResultRow(
    key: VariantKey,
    v: string,
    analysisGroup: string,
    acCase: Option<int>,
    anCase: Option<int>,
    afCase: Option<real>,
    acCtrl: Option<int>,
    anCtrl: Option<int>,
    afCtrl: Option<real>,
    nDenovos: Option<int>,
    source: Option<seq<string>>,
    inAnalysis: Option<bool>,
    statistics: Statistics)

  /** A result without `v`, `af_case`, `af_ctrl` and `analysis_group`. */
  datatype GroupResult = GroupResult(
    acCase: int,
    anCase: Option<int>,
    acCtrl: Option<int>,
    anCtrl: Option<int>,
    nDenovos: Option<int>,
    source: Option<string>,
    inAnalysis: Option<bool>,
    statistics: Statistics)

  /** The row's value after the `drop` and the two `annotate`s. */
  function PrepareResult(row: ResultRow): GroupResult {
    GroupResult(CaseCount(row.acCase, row.nDenovos), row.anCase, row.acCtrl, row.anCtrl, row.nDenovos,
                SourceText(row.source), row.inAnalysis, row.statistics)
  }

  /** `hl.dict(rows.map(r => (r.analysis_group, r.drop("analysis_group"))))`; a later pair for a group replaces an earlier one. */
  function ResultsByGroup(rows: seq<ResultRow>): (r: map<string, GroupResult>)
    ensures r.Keys == set x | x in rows :: x.analysisGroup
    decreases |rows|
  {
    if rows == [] then map[]
    else
      var init := rows[..|rows| - 1];
      var last := rows[|rows| - 1];
      assert rows == init + [last];
      ResultsByGroup(init)[last.analysisGroup := PrepareResult(last)]
  }

  /** Each group's result is the prepared value of the group's last row. */
  lemma {:induction false} ResultsByGroupLast(rows: seq<ResultRow>, i: nat)
    requires i < |rows|
    requires forall j | i < j < |rows| :: rows[j].analysisGroup != rows[i].analysisGroup
    ensures ResultsByGroup(rows)[rows[i].analysisGroup] == PrepareResult(rows[i])
    decreases |rows|
  {
    if i < |rows| - 1 {
      ResultsByGroupLast(rows[..|rows| - 1], i);
    }
  }

  function HasKey(key: VariantKey): ResultRow -> bool {
    (row: ResultRow) => row.key == key
  }

  /** The rows `group_by("locus", "alleles")` collects for a key, in table order. */
  function RowsOf(results: seq<ResultRow>, key: VariantKey): seq<ResultRow> {
    Filter(results, HasKey(key))
  }

  /** `results[variants.key].group_results`: missing when no row has the key. */
  function GroupResultsOf(results: seq<ResultRow>, key: VariantKey): Option<map<string, GroupResult>> {
    var rows := RowsOf(results, key);
    if rows == [] then None else Some(ResultsByGroup(rows))
  }

  /**
   * A variant has group results exactly when some result row has its key,
   * and they are keyed by exactly the analysis groups of those rows.
   */
  lemma GroupResultsOfSpec(results: seq<ResultRow>, key: VariantKey)
    ensures GroupResultsOf(results, key).Some? <==> exists x | x in results :: x.key == key
    ensures GroupResultsOf(results, key).Some? ==>
              forall g :: g in GroupResultsOf(results, key).value <==>
                exists x | x in results :: x.key == key && x.analysisGroup == g
  {
    var rows := RowsOf(results, key);
    forall x ensures x in rows <==> x in results && x.key == key {
      FilterMembership(results, HasKey(key), x);
    }
    if rows == [] {
      assert forall x | x in results :: x.key != key by {
        forall x | x in results ensures x.key != key {
          FilterMembership(results, HasKey(key), x);
        }
      }
    }
  }

  // ---------------------------------------------------------------------
  // Variant annotations

  /** A row of the variant annotations table. */
  datatype AnnotationRow = AnnotationRow(
    key: VariantKey,
    geneId: Option<string>,
    canonicalTerm: Option<string>,
    hgvscCanonical: Option<string>,
    hgvspCanonical: Option<string>,
    cadd: Option<real>,
    mpc: Option<real>,
    polyphen: Option<string>)

  /** `info=hl.struct(cadd, mpc, polyphen)` */
  datatype Info = Info(cadd: Option<real>, mpc: Option<real>, polyphen: Option<string>)

  datatype VariantAnnotation = VariantAnnotation(key: VariantKey, geneId: Option<string>, consequence: Option<string>,
                                                 hgvsc: Option<string>, hgvsp: Option<string>, info: Info)

  /** `variants.select(gene_id, consequence=..., hgvsc=..., hgvsp=..., info=...)` */
  function SelectAnnotation(a: AnnotationRow): VariantAnnotation {
    VariantAnnotation(a.key, a.geneId, BinnedConsequence(a.canonicalTerm, a.mpc),
                      AscVariantResults.HgvsSuffix(a.hgvscCanonical), AscVariantResults.HgvsSuffix(a.hgvspCanonical),
                      Info(a.cadd, a.mpc, a.polyphen))
  }

  /** A variant of the output table. */
  datatype Variant = Variant(annotation: VariantAnnotation, groupResults: Option<map<string, GroupResult>>)

  function VariantOf(results: seq<ResultRow>): AnnotationRow -> Variant {
    (a: AnnotationRow) => Variant(SelectAnnotation(a), GroupResultsOf(results, a.key))
  }

  function HasGroupResults(v: Variant): bool {
    v.groupResults.Some?
  }

  /** `prepare_variant_results`: the selected annotations joined with their results, without the variants that have none. */
  function PrepareVariantResults(annotations: seq<AnnotationRow>, results: seq<ResultRow>): seq<Variant> {
    Filter(Map(annotations, VariantOf(results)), HasGroupResults)
  }

  /**
   * A variant is in the output exactly when it is an annotated variant with
   * at least one result row, and its group results are keyed by the
   * analysis groups of its result rows.
   */
  lemma PrepareVariantResultsSpec(annotations: seq<AnnotationRow>, results: seq<ResultRow>, v: Variant)
    ensures v in PrepareVariantResults(annotations, results) <==>
              (exists a | a in annotations :: v == VariantOf(results)(a)) &&
              exists x | x in results :: x.key == v.annotation.key
    ensures v in PrepareVariantResults(annotations, results) ==>
              v.groupResults.Some? &&
              forall g :: g in v.groupResults.value <==>
                exists x | x in results :: x.key == v.annotation.key && x.analysisGroup == g
  {
    var all := Map(annotations, VariantOf(results));
    FilterMembership(all, HasGroupResults, v);
    if exists a | a in annotations :: v == VariantOf(results)(a) {
      var a :| a in annotations && v == VariantOf(results)(a);
      var i :| 0 <= i < |annotations| && annotations[i] == a;
      assert all[i] == v;
      GroupResultsOfSpec(results, a.key);
    }
    if v in all {
      var i :| 0 <= i < |all| && all[i] == v;
      assert annotations[i] in annotations;
    }
  }
}
