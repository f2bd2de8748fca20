/**
 * The ASC variant results (data_pipeline/data_pipeline/datasets/asc/asc_variant_results.py):
 * each analysis group's annotation and result rows keyed by locus and
 * alleles parsed from `chrom:pos:ref:alt`, unioned over the groups; the most
 * severe VEP consequence of each variant, its HGVS notation without the
 * transcript or protein prefix, and its results gathered by analysis group.
 *
 * The tables are read as sequences of rows; Hail's missing value is `None`.
 */
module AscVariantResults {
  import opened Wrappers
  import opened Strings
  import opened Seqs
  import VariantIds

  /** `CONSEQUENCE_TERMS`: VEP consequence terms from the most to the least severe. */
  const ConsequenceTerms: seq<string> := [
    "transcript_ablation",
    "splice_acceptor_variant",
    "splice_donor_variant",
    "stop_gained",
    "frameshift_variant",
    "stop_lost",
    "start_lost",
    "initiator_codon_variant",
    "transcript_amplification",
    "inframe_insertion",
    "inframe_deletion",
    "missense_variant",
    "protein_altering_variant",
    "splice_region_variant",
    "incomplete_terminal_codon_variant",
    "start_retained_variant",
    "stop_retained_variant",
    "synonymous_variant",
    "coding_sequence_variant",
    "mature_miRNA_variant",
    "5_prime_UTR_variant",
    "3_prime_UTR_variant",
    "non_coding_transcript_exon_variant",
    "non_coding_exon_variant",
    "intron_variant",
    "NMD_transcript_variant",
    "non_coding_transcript_variant",
    "nc_transcript_variant",
    "upstream_gene_variant",
    "downstream_gene_variant",
    "TFBS_ablation",
    "TFBS_amplification",
    "TF_binding_site_variant",
    "regulatory_region_ablation",
    "regulatory_region_amplification",
    "feature_elongation",
    "regulatory_region_variant",
    "feature_truncation",
    "intergenic_variant"
  ]

  /** `CONSEQUENCE_TERM_RANKS.get(term)`: the term's index in `ConsequenceTerms`, missing for other terms. */
  function Rank(term: string): Option<nat> {
    match term
    case "transcript_ablation" => Some(0)
    case "splice_acceptor_variant" => Some(1)
    case "splice_donor_variant" => Some(2)
    case "stop_gained" => Some(3)
    case "frameshift_variant" => Some(4)
    case "stop_lost" => Some(5)
    case "start_lost" => Some(6)
    case "initiator_codon_variant" => Some(7)
    case "transcript_amplification" => Some(8)
    case "inframe_insertion" => Some(9)
    case "inframe_deletion" => Some(10)
    case "missense_variant" => Some(11)
    case "protein_altering_variant" => Some(12)
    case "splice_region_variant" => Some(13)
    case "incomplete_terminal_codon_variant" => Some(14)
    case "start_retained_variant" => Some(15)
    case "stop_retained_variant" => Some(16)
    case "synonymous_variant" => Some(17)
    case "coding_sequence_variant" => Some(18)
    case "mature_miRNA_variant" => Some(19)
    case "5_prime_UTR_variant" => Some(20)
    case "3_prime_UTR_variant" => Some(21)
    case "non_coding_transcript_exon_variant" => Some(22)
    case "non_coding_exon_variant" => Some(23)
    case "intron_variant" => Some(24)
    case "NMD_transcript_variant" => Some(25)
    case "non_coding_transcript_variant" => Some(26)
    case "nc_transcript_variant" => Some(27)
    case "upstream_gene_variant" => Some(28)
    case "downstream_gene_variant" => Some(29)
    case "TFBS_ablation" => Some(30)
    case "TFBS_amplification" => Some(31)
    case "TF_binding_site_variant" => Some(32)
    case "regulatory_region_ablation" => Some(33)
    case "regulatory_region_amplification" => Some(34)
    case "feature_elongation" => Some(35)
    case "regulatory_region_variant" => Some(36)
    case "feature_truncation" => Some(37)
    case "intergenic_variant" => Some(38)
    case _ => None
  }

  lemma RanksOfTerms0(i: nat)
    requires 0 <= i < 8
    ensures Rank(ConsequenceTerms[i]) == Some(i)
  {
    match i
    case 0 =>
    case 1 =>
    case 2 =>
    case 3 =>
    case 4 =>
    case 5 =>
    case 6 =>
    case 7 =>
  }

  lemma RanksOfTerms1(i: nat)
    requires 8 <= i < 16
    ensures Rank(ConsequenceTerms[i]) == Some(i)
  {
    match i
    case 8 =>
    case 9 =>
    case 10 =>
    case 11 =>
    case 12 =>
    case 13 =>
    case 14 =>
    case 15 =>
  }

  lemma RanksOfTerms2(i: nat)
    requires 16 <= i < 24
    ensures Rank(ConsequenceTerms[i]) == Some(i)
  {
    match i
    case 16 =>
    case 17 =>
    case 18 =>
    case 19 =>
    case 20 =>
    case 21 =>
    case 22 =>
    case 23 =>
  }

  lemma RanksOfTerms3(i: nat)
    requires 24 <= i < 32
    ensures Rank(ConsequenceTerms[i]) == Some(i)
  {
    match i
    case 24 =>
    case 25 =>
    case 26 =>
    case 27 =>
    case 28 =>
    case 29 =>
    case 30 =>
    case 31 =>
  }

  lemma RanksOfTerms4(i: nat)
    requires 32 <= i < 39
    ensures Rank(ConsequenceTerms[i]) == Some(i)
  {
    match i
    case 32 =>
    case 33 =>
    case 34 =>
    case 35 =>
    case 36 =>
    case 37 =>
    case 38 =>
  }

  /** The rank of every listed term is its index. */
  lemma RankIsIndex(i: nat)
    requires i < |ConsequenceTerms|
    ensures Rank(ConsequenceTerms[i]) == Some(i)
  {
    if i < 8 {
      RanksOfTerms0(i);
    } else if i < 16 {
      RanksOfTerms1(i);
    } else if i < 24 {
      RanksOfTerms2(i);
    } else if i < 32 {
      RanksOfTerms3(i);
    } else {
      RanksOfTerms4(i);
    }
  }

  /** The 39 terms are distinct, so no two of them share a rank. */
  lemma TermsDistinct(i: nat, j: nat)
    requires i < |ConsequenceTerms| && j < |ConsequenceTerms|
    requires ConsequenceTerms[i] == ConsequenceTerms[j]
    ensures i == j
  {
    RankIsIndex(i);
    RankIsIndex(j);
  }

  /** Examples of the ordering: the first and last terms, and a stop gain ranked above a synonymous change. */
  lemma RankExamples()
    ensures |ConsequenceTerms| == 39
    ensures Rank("transcript_ablation") == Some(0) && Rank("intergenic_variant") == Some(38)
    ensures Rank("stop_gained") == Some(3) && Rank("synonymous_variant") == Some(17)
  {
    RankIsIndex(0);
    RankIsIndex(3);
    RankIsIndex(17);
    RankIsIndex(38);
  }

  // ---------------------------------------------------------------------
  // Most severe consequence

  /** `a` sorts before `b` by rank; a term without a rank sorts after every ranked one. */
  predicate MoreSevere(a: string, b: string) {
    Rank(a).Some? && (Rank(b).None? || Rank(a).value < Rank(b).value)
  }

  /**
   * `hl.sorted(terms, key=rank)[0]`: a term of least rank; when no term is
   * ranked, the first term.
   */
  function MostSevere(terms: seq<string>): (r: string)
    requires |terms| >= 1
    ensures r in terms
    ensures forall t | t in terms && Rank(t).Some? :: Rank(r).Some? && Rank(r).value <= Rank(t).value
    ensures (forall t | t in terms :: Rank(t).None?) ==> r == terms[0]
    decreases |terms|
  {
    if |terms| == 1 then terms[0]
    else
      var init := terms[..|terms| - 1];
      var best := MostSevere(init);
      var last := terms[|terms| - 1];
      assert terms == init + [last];
      if MoreSevere(last, best) then last else best
  }

  /** `consequence`: the most severe of the comma-separated `csq_analysis` terms. */
  function Consequence(csqAnalysis: Option<string>): (r: Option<string>)
    ensures r.Some? <==> csqAnalysis.Some?
    ensures r.Some? ==> r.value in Split(csqAnalysis.value, ",")
  {
    match csqAnalysis
    case None => None
    case Some(csq) => Some(MostSevere(Split(csq, ",")))
  }

  /** A stop gain is reported over a synonymous change, in either order. */
  lemma MostSevereExample()
    ensures MostSevere(["synonymous_variant", "stop_gained"]) == "stop_gained"
    ensures MostSevere(["stop_gained", "synonymous_variant"]) == "stop_gained"
  {
    RankExamples();
  }

  // ---------------------------------------------------------------------
  // HGVS notation

  /** `hgvs.split(":")[-1]` */
  function HgvsSuffix(hgvs: Option<string>): (r: Option<string>)
    ensures r.Some? <==> hgvs.Some?
    ensures r.Some? ==> ':' !in r.value
  {
    match hgvs
    case None => None
    case Some(h) =>
      var r := LastPiece(h, ":");
      NoCharInPiece(r, ':');
      Some(r)
  }

  lemma NoCharInPiece(r: string, c: char)
    requires !Contains(r, [c])
    ensures c !in r
  {
    if c in r {
      var k :| 0 <= k < |r| && r[k] == c;
      assert OccursAt(r, [c], k);
    }
  }

  /** The notation keeps the text after the last `:`, and a notation without `:` is kept whole. */
  lemma HgvsSuffixSpec(prefix: string, notation: string)
    requires ':' !in notation
    ensures HgvsSuffix(Some(prefix + ":" + notation)) == Some(notation)
    ensures HgvsSuffix(Some(notation)) == Some(notation)
  {
    LastPieceAfterLast(prefix, ':', notation);
    LastPieceAfterLast(notation, ':', notation);
  }

  // ---------------------------------------------------------------------
  // Variant keys

  /** A table key: `locus` (contig and position) and `alleles`. */
  datatype VariantKey = VariantKey(contig: string, position: nat, alleles: seq<string>)

  const MissingKeyPart: string := "index out of bounds"
  const NotAnInteger: string := "cannot parse int32"

  /**
   * The key of a `chrom:pos:ref:alt` string: `p[0]` and `hl.int(p[1])` make
   * the locus, `[p[2], p[3]]` the alleles. Fewer than four pieces or a
   * position that is not a 32-bit integer fail.
   */
  function ParseKey(v: string): (r: Result<VariantKey, string>)
    ensures r.Ok? ==> |r.value.alleles| == 2
  {
    var p := Split(v, ":");
    if |p| < 4 then Err(MissingKeyPart)
    else if p[1] == [] || !AllDigits(p[1]) || ParseDigits(p[1]) > VariantIds.Int32Max then Err(NotAnInteger)
    else Ok(VariantKey(p[0], ParseDigits(p[1]), [p[2], p[3]]))
  }

  /** A key written as `chrom:pos:ref:alt` parses back to its contig, position and alleles. */
  lemma ParseKeyRoundTrip(contig: string, position: nat, ref: string, alt: string)
    requires ':' !in contig && ':' !in ref && ':' !in alt && position <= VariantIds.Int32Max
    ensures ParseKey(Join([contig, NatToString(position), ref, alt], ":")) == Ok(VariantKey(contig, position, [ref, alt]))
  {
    var digits := NatToString(position);
    var parts := [contig, digits, ref, alt];
    assert forall k | 0 <= k < |parts| :: ":"[0] !in parts[k];
    SplitJoin(parts, ":");
    ParseNatToString(position);
  }

  /** A key with fewer than four parts is rejected. */
  lemma ParseKeyNeedsFourParts(contig: string, position: string, ref: string)
    requires ':' !in contig && ':' !in position && ':' !in ref
    ensures ParseKey(Join([contig, position, ref], ":")) == Err(MissingKeyPart)
  {
    var parts := [contig, position, ref];
    assert forall k | 0 <= k < |parts| :: ":"[0] !in parts[k];
    SplitJoin(parts, ":");
  }

  // ---------------------------------------------------------------------
  // Tables

  /** A row of a group's variant annotation table. */
  datatype AnnotationRow = AnnotationRow(
    v: string,
    inAnalysis: Option<bool>,
    geneId: Option<string>,
    geneName: Option<string>,
    transcriptId: Option<string>,
    hgvsc: Option<string>,
    hgvsp: Option<string>,
    csqAnalysis: Option<string>,
    csqWorst: Option<string>,
    mpc: Option<real>,
    polyphen: Option<string>)

  /** An annotation row keyed by locus and alleles; `v` is no longer read. */
  datatype Annotation = Annotation(key: VariantKey, row: AnnotationRow)

  /** A row of a group's variant results table. */
  datatype ResultRow = ResultRow(
    v: string,
    analysisGroup: string,
    acCase: Option<int>,
    anCase: Option<int>,
    afCase: Option<string>,
    acCtrl: Option<int>,
    anCtrl: Option<int>,
    afCtrl: Option<string>)

  /** A result without `v`, `analysis_group`, `af_case` and `af_ctrl`, with `in_analysis` added. */
  datatype GroupResult = GroupResult(acCase: Option<int>, anCase: Option<int>, acCtrl: Option<int>, anCtrl: Option<int>,
                                     inAnalysis: Option<bool>)

  /** A keyed result row. */
  datatype KeyedResult = KeyedResult(key: VariantKey, analysisGroup: string, result: GroupResult)

  /** The annotation and results tables of one analysis group (`dn`, `dbs` or `swe`). */
  datatype GroupTables = GroupTables(annotations: seq<AnnotationRow>, results: seq<ResultRow>)

  /** Keyed annotations and results, as the loop accumulates them. */
  datatype Keyed = Keyed(annotations: seq<Annotation>, results: seq<KeyedResult>)

  function KeyAnnotation(row: AnnotationRow): Result<Annotation, string> {
    match ParseKey(row.v)
    case Err(e) => Err(e)
    case Ok(key) => Ok(Annotation(key, row))
  }

  /** `group_annotations[locus, alleles].in_analysis`: from the first annotation with the key, missing without one. */
  function InAnalysisOf(annotations: seq<Annotation>, key: VariantKey): (r: Option<bool>)
    ensures (exists a | a in annotations :: a.key == key) ==>
              exists a | a in annotations :: a.key == key && a.row.inAnalysis == r
    ensures (forall a | a in annotations :: a.key != key) ==> r.None?
    decreases |annotations|
  {
    if annotations == [] then None
    else if annotations[0].key == key then annotations[0].row.inAnalysis
    else
      assert forall a | a in annotations[1..] :: a in annotations;
      InAnalysisOf(annotations[1..], key)
  }

  function KeyResultRow(annotations: seq<Annotation>, row: ResultRow): Result<KeyedResult, string> {
    match ParseKey(row.v)
    case Err(e) => Err(e)
    case Ok(key) =>
      Ok(KeyedResult(key, row.analysisGroup,
                     GroupResult(row.acCase, row.anCase, row.acCtrl, row.anCtrl, InAnalysisOf(annotations, key))))
  }

  function KeyResult(annotations: seq<Annotation>): ResultRow -> Result<KeyedResult, string> {
    (row: ResultRow) => KeyResultRow(annotations, row)
  }

  /**
   * One group's tables keyed by locus and alleles; every result row takes
   * `in_analysis` from the same group's annotation for its key and drops
   * the allele frequencies.
   */
  function KeyGroup(g: GroupTables): (r: Result<Keyed, string>)
    ensures r.Ok? <==> (forall i | 0 <= i < |g.annotations| :: ParseKey(g.annotations[i].v).Ok?) &&
                       (forall i | 0 <= i < |g.results| :: ParseKey(g.results[i].v).Ok?)
    ensures r.Ok? ==> |r.value.results| == |g.results| && forall i | 0 <= i < |g.results| ::
              var row, x := g.results[i], r.value.results[i];
              ParseKey(row.v) == Ok(x.key) && x.analysisGroup == row.analysisGroup &&
              x.result == GroupResult(row.acCase, row.anCase, row.acCtrl, row.anCtrl, InAnalysisOf(r.value.annotations, x.key))
    ensures r.Ok? ==> |r.value.annotations| == |g.annotations| && forall i | 0 <= i < |g.annotations| ::
              ParseKey(g.annotations[i].v) == Ok(r.value.annotations[i].key) && r.value.annotations[i].row == g.annotations[i]
  {
    match MapChecked(g.annotations, KeyAnnotation)
    case Err(e) =>
      assert exists i | 0 <= i < |g.annotations| :: !KeyAnnotation(g.annotations[i]).Ok?;
      Err(e)
    case Ok(annotations) =>
      match MapChecked(g.results, KeyResult(annotations))
      case Err(e) =>
        assert exists i | 0 <= i < |g.results| :: !KeyResultRow(annotations, g.results[i]).Ok?;
        Err(e)
      case Ok(results) => Ok(Keyed(annotations, results))
  }

  /** The union of the groups' keyed tables, in group order; the first group that fails to key ends it. */
  function UnionOfGroups(groups: seq<GroupTables>): Result<Keyed, string>
    decreases |groups|
  {
    if groups == [] then Ok(Keyed([], []))
    else
      match UnionOfGroups(groups[..|groups| - 1])
      case Err(e) => Err(e)
      case Ok(acc) =>
        match KeyGroup(groups[|groups| - 1])
        case Err(e) => Err(e)
        case Ok(k) => Ok(Keyed(acc.annotations + k.annotations, acc.results + k.results))
  }

  /** The `for group in ("dn", "dbs", "swe")` loop: each group's tables are keyed and unioned onto the others. */
  method UnionGroups(groups: seq<GroupTables>) returns (r: Result<Keyed, string>)
    ensures r == UnionOfGroups(groups)
  {
    var annotations: seq<Annotation> := [];
    var results: seq<KeyedResult> := [];
    var failure: Option<string> := None;
    for i := 0 to |groups|
      invariant UnionOfGroups(groups[..i]) == if failure.Some? then Err(failure.value) else Ok(Keyed(annotations, results))
    {
      assert groups[..i + 1][..i] == groups[..i];
      if failure.None? {
        var keyed := KeyGroup(groups[i]);
        if keyed.Err? {
          failure := Some(keyed.error);
        } else {
          annotations := annotations + keyed.value.annotations;
          results := results + keyed.value.results;
        }
      }
    }
    assert groups[..|groups|] == groups;
    r := if failure.Some? then Err(failure.value) else Ok(Keyed(annotations, results));
  }

  /**
   * Every unioned result row comes from one group's results table and
   * carries `in_analysis` from that same group's annotations.
   */
  lemma {:induction false} InAnalysisFromOwnGroup(groups: seq<GroupTables>, x: KeyedResult)
    requires UnionOfGroups(groups).Ok? && x in UnionOfGroups(groups).value.results
    ensures exists g | 0 <= g < |groups| ::
              KeyGroup(groups[g]).Ok? && x in KeyGroup(groups[g]).value.results &&
              x.result.inAnalysis == InAnalysisOf(KeyGroup(groups[g]).value.annotations, x.key)
    decreases |groups|
  {
    var init := groups[..|groups| - 1];
    var acc := UnionOfGroups(init).value;
    var k := KeyGroup(groups[|groups| - 1]).value;
    if x in acc.results {
      InAnalysisFromOwnGroup(init, x);
      var g :| 0 <= g < |init| && KeyGroup(init[g]).Ok? && x in KeyGroup(init[g]).value.results &&
               x.result.inAnalysis == InAnalysisOf(KeyGroup(init[g]).value.annotations, x.key);
      assert init[g] == groups[g];
    } else {
      assert x in k.results;
      var i :| 0 <= i < |k.results| && k.results[i] == x;
      assert 0 <= |groups| - 1 < |groups|;
    }
  }

  /** The keys of some annotations. */
  function Keys(annotations: seq<Annotation>): set<VariantKey> {
    set a | a in annotations :: a.key
  }

  /** `annotations.distinct()`: one annotation per key, the first one read. */
  function DistinctByKey(annotations: seq<Annotation>): (r: seq<Annotation>)
    ensures forall a | a in r :: a in annotations
    ensures Keys(r) == Keys(annotations)
    ensures forall i, j | 0 <= i < j < |r| :: r[i].key != r[j].key
    decreases |annotations|
  {
    if annotations == [] then []
    else
      var init := annotations[..|annotations| - 1];
      var last := annotations[|annotations| - 1];
      var kept := DistinctByKey(init);
      assert annotations == init + [last];
      KeysSnoc(init, last);
      KeysSnoc(kept, last);
      if last.key in Keys(kept) then kept else kept + [last]
  }

  lemma KeysSnoc(annotations: seq<Annotation>, a: Annotation)
    ensures Keys(annotations + [a]) == Keys(annotations) + {a.key}
  {
    assert forall b :: b in annotations + [a] <==> b in annotations || b == a;
  }

  /** `info=hl.struct(mpc, polyphen)` */
  datatype Info = Info(mpc: Option<real>, polyphen: Option<string>)

  /** The selected annotation of a variant. */
  datatype VariantAnnotation = VariantAnnotation(key: VariantKey, geneId: Option<string>, consequence: Option<string>,
                                                 hgvsc: Option<string>, hgvsp: Option<string>, info: Info)

  /** `annotations.select("gene_id", consequence=..., hgvsc=..., hgvsp=..., info=...)` */
  function SelectAnnotation(a: Annotation): VariantAnnotation {
    VariantAnnotation(a.key, a.row.geneId, Consequence(a.row.csqAnalysis), HgvsSuffix(a.row.hgvsc), HgvsSuffix(a.row.hgvsp),
                      Info(a.row.mpc, a.row.polyphen))
  }

  /** `hl.dict(group_results.map(r => (r.analysis_group, r.drop("analysis_group"))))`; a later pair for a group replaces an earlier one. */
  function ResultsByGroup(rows: seq<KeyedResult>): (r: map<string, GroupResult>)
    ensures r.Keys == set x | x in rows :: x.analysisGroup
    ensures forall g | g in r :: exists x | x in rows :: x.analysisGroup == g && x.result == r[g]
    decreases |rows|
  {
    if rows == [] then map[]
    else
      var init := rows[..|rows| - 1];
      var last := rows[|rows| - 1];
      assert rows == init + [last];
      ResultsByGroup(init)[last.analysisGroup := last.result]
  }

  function HasKey(key: VariantKey): KeyedResult -> bool {
    (x: KeyedResult) => x.key == key
  }

  /** `results[key].group_results`: the variant's results by analysis group, missing when it has none. */
  function GroupResultsOf(results: seq<KeyedResult>, key: VariantKey): (r: Option<map<string, GroupResult>>)
    ensures r.Some? <==> exists x | x in results :: x.key == key
    ensures r.Some? ==> forall g :: g in r.value <==> exists x | x in results :: x.key == key && x.analysisGroup == g
    ensures r.Some? ==> forall g | g in r.value :: exists x | x in results :: x.key == key && x.analysisGroup == g && x.result == r.value[g]
  {
    var rows := Filter(results, HasKey(key));
    assert forall x :: x in rows <==> x in results && x.key == key by {
      forall x ensures x in rows <==> x in results && x.key == key {
        FilterMembership(results, HasKey(key), x);
      }
    }
    if rows == [] then None else Some(ResultsByGroup(rows))
  }

  /** A variant of the output table. */
  datatype Variant = Variant(annotation: VariantAnnotation, groupResults: Option<map<string, GroupResult>>)

  function VariantOf(results: seq<KeyedResult>): Annotation -> Variant {
    (a: Annotation) => Variant(SelectAnnotation(a), GroupResultsOf(results, a.key))
  }

  /** `prepare_variant_results`: the distinct annotations, selected, each with its results by group. */
  function PrepareVariantResults(groups: seq<GroupTables>): Result<seq<Variant>, string> {
    match UnionOfGroups(groups)
    case Err(e) => Err(e)
    case Ok(keyed) => Ok(Map(DistinctByKey(keyed.annotations), VariantOf(keyed.results)))
  }

  /**
   * The output has one variant per annotated key, each with the most
   * severe of its analysed consequences, and results keyed by exactly the
   * analysis groups that report the variant.
   */
  lemma PrepareVariantResultsSpec(groups: seq<GroupTables>)
    requires PrepareVariantResults(groups).Ok?
    ensures var keyed, out := UnionOfGroups(groups).value, PrepareVariantResults(groups).value;
            (forall i, j | 0 <= i < j < |out| :: out[i].annotation.key != out[j].annotation.key) &&
            (forall key :: (exists v | v in out :: v.annotation.key == key) <==> key in Keys(keyed.annotations)) &&
            (forall v, g | v in out && v.groupResults.Some? ::
               g in v.groupResults.value <==> exists x | x in keyed.results :: x.key == v.annotation.key && x.analysisGroup == g) &&
            (forall v | v in out ::
               exists a | a in keyed.annotations :: a.key == v.annotation.key &&
                 v.annotation.consequence == Consequence(a.row.csqAnalysis))
  {
    var keyed := UnionOfGroups(groups).value;
    var kept := DistinctByKey(keyed.annotations);
    var out := Map(kept, VariantOf(keyed.results));
    forall key | key in Keys(keyed.annotations) ensures exists v | v in out :: v.annotation.key == key {
      assert key in Keys(kept);
      var a :| a in kept && a.key == key;
      var i :| 0 <= i < |kept| && kept[i] == a;
      assert out[i].annotation.key == key;
    }
    forall v | v in out ensures exists a | a in keyed.annotations :: a.key == v.annotation.key &&
                                  v.annotation.consequence == Consequence(a.row.csqAnalysis) {
      var i :| 0 <= i < |out| && out[i] == v;
      assert kept[i] in kept;
    }
  }
}
