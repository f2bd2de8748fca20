/**
 * Gene models (data_pipeline/data_pipeline/pipelines/prepare_gene_models.py):
 * GENCODE features with their version suffixes and `chr` prefixes removed,
 * the exons of each gene's canonical transcript, the HGNC symbol lists, the
 * display symbol and the set of search terms the server indexes.
 *
 * Hail's missing value is `None`.
 */
module GeneModels {
  import opened Wrappers
  import opened Strings
  import opened Seqs
  import VariantIds
  import Server

  /** `id.split("\\.")[0]`: the id without its version suffix. */
  function StripVersion(id: string): (r: string)
    ensures '.' !in r && r <= id
  {
    var r := FirstPiece(id, ".");
    NoDotInPiece(r);
    r
  }

  lemma NoDotInPiece(r: string)
    requires !Contains(r, ".")
    ensures '.' !in r
  {
    if '.' in r {
      var k :| 0 <= k < |r| && r[k] == '.';
      assert OccursAt(r, ".", k);
    }
  }

  /** An id with a version gives the id back, and stripping twice is stripping once. */
  lemma StripVersionSpec(base: string, version: string)
    requires '.' !in base
    ensures StripVersion(base + "." + version) == base
    ensures StripVersion(StripVersion(base + "." + version)) == base
  {
    var s := base + "." + version;
    forall i | 0 <= i < |base| ensures !OccursAt(s, ".", i) {
      assert s[i] == base[i];
    }
    assert OccursAt(s, ".", |base|) by {
      assert s[|base|..|base| + 1] == ".";
    }
    FirstOccurrence(s, ".", 0, |base|);
    assert s[..|base|] == base;
    NoFirstCharNotContains(base, ".");
    IndexOfIsContains(base, ".");
  }

  /** A row of the GENCODE GTF file. */
  datatype GtfRow = GtfRow(
    feature: string,
    geneId: string,
    transcriptId: string,
    geneName: string,
    contig: string,
    strand: string,
    start: int,
    stop: int)

  /** An exon, CDS or UTR feature, with its ids and contig normalised. */
  datatype Exon = Exon(featureType: string, transcriptId: string, geneId: string, chrom: string, strand: string, start: int, stop: int)

  const ExonFeatures: set<string> := {"exon", "CDS", "UTR"}

  function IsExonFeature(row: GtfRow): bool {
    row.feature in ExonFeatures
  }

  function ExonOf(row: GtfRow): Exon {
    Exon(row.feature, StripVersion(row.transcriptId), StripVersion(row.geneId),
         VariantIds.NormalizedContig(row.contig), row.strand, row.start, row.stop)
  }

  /** `get_exons`: the exon, CDS and UTR rows, in file order. */
  function GetExons(gencode: seq<GtfRow>): (r: seq<Exon>)
    ensures |r| == |Filter(gencode, IsExonFeature)|
    ensures forall i | 0 <= i < |r| :: r[i].featureType in ExonFeatures && '.' !in r[i].transcriptId && '.' !in r[i].geneId
  {
    var kept := Filter(gencode, IsExonFeature);
    assert forall i | 0 <= i < |kept| :: IsExonFeature(kept[i]);
    Map(Filter(gencode, IsExonFeature), ExonOf)
  }

  /** A gene row of the GTF file, as `get_genes` selects it. */
  datatype Gene = Gene(geneId: string, geneSymbol: string, chrom: string, strand: string, start: int, stop: int)

  function IsGeneRow(row: GtfRow): bool {
    row.feature == "gene"
  }

  function GeneOf(row: GtfRow): Gene {
    Gene(StripVersion(row.geneId), row.geneName, VariantIds.NormalizedContig(row.contig), row.strand, row.start, row.stop)
  }

  /**
   * `get_genes`: one gene per `gene` row, in file order, with a versionless
   * id, the row's name as its symbol, the contig without `chr`, and the row's
   * strand and interval.
   */
  function GetGenes(gencode: seq<GtfRow>): (r: seq<Gene>)
    ensures |r| == |Filter(gencode, IsGeneRow)|
    ensures forall i | 0 <= i < |r| ::
              var row := Filter(gencode, IsGeneRow)[i];
              row in gencode && row.feature == "gene" &&
              r[i].geneId == StripVersion(row.geneId) && '.' !in r[i].geneId &&
              r[i].geneSymbol == row.geneName && r[i].chrom == VariantIds.NormalizedContig(row.contig) &&
              r[i].strand == row.strand && r[i].start == row.start && r[i].stop == row.stop
    ensures forall row | row in gencode && row.feature == "gene" :: GeneOf(row) in r
  {
    var kept := Filter(gencode, IsGeneRow);
    var r := Map(kept, GeneOf);
    assert forall i | 0 <= i < |kept| :: kept[i] in kept;
    forall row | row in gencode && row.feature == "gene" ensures GeneOf(row) in r {
      FilterMembership(gencode, IsGeneRow, row);
      var i :| 0 <= i < |kept| && kept[i] == row;
      assert r[i] == GeneOf(row);
    }
    r
  }

  /** A transcript row of the GTF file, as `get_transcripts` selects it. */
  datatype TranscriptRow = TranscriptRow(transcriptId: string, geneId: string, chrom: string, strand: string, start: int, stop: int)

  function IsTranscriptRow(row: GtfRow): bool {
    row.feature == "transcript"
  }

  function TranscriptOf(row: GtfRow): TranscriptRow {
    TranscriptRow(StripVersion(row.transcriptId), StripVersion(row.geneId), VariantIds.NormalizedContig(row.contig),
                  row.strand, row.start, row.stop)
  }

  /**
   * `get_transcripts`: one transcript per `transcript` row, in file order,
   * with versionless transcript and gene ids, the contig without `chr`, and
   * the row's strand and interval.
   */
  function GetTranscripts(gencode: seq<GtfRow>): (r: seq<TranscriptRow>)
    ensures |r| == |Filter(gencode, IsTranscriptRow)|
    ensures forall i | 0 <= i < |r| ::
              var row := Filter(gencode, IsTranscriptRow)[i];
              row in gencode && row.feature == "transcript" &&
              r[i].transcriptId == StripVersion(row.transcriptId) && '.' !in r[i].transcriptId &&
              r[i].geneId == StripVersion(row.geneId) && '.' !in r[i].geneId &&
              r[i].chrom == VariantIds.NormalizedContig(row.contig) &&
              r[i].strand == row.strand && r[i].start == row.start && r[i].stop == row.stop
    ensures forall row | row in gencode && row.feature == "transcript" :: TranscriptOf(row) in r
  {
    var kept := Filter(gencode, IsTranscriptRow);
    var r := Map(kept, TranscriptOf);
    assert forall i | 0 <= i < |kept| :: kept[i] in kept;
    forall row | row in gencode && row.feature == "transcript" ensures TranscriptOf(row) in r {
      FilterMembership(gencode, IsTranscriptRow, row);
      var i :| 0 <= i < |kept| && kept[i] == row;
      assert r[i] == TranscriptOf(row);
    }
    r
  }

  // ---------------------------------------------------------------------
  // Transcripts with their exons, genes with their transcripts

  /** The part of an exon a transcript keeps: `exon.select("feature_type", "start", "stop")`. */
  datatype Feature = Feature(featureType: string, start: int, stop: int)

  function FeatureOf(e: Exon): Feature {
    Feature(e.featureType, e.start, e.stop)
  }

  /** A transcript with its exons; they are missing when no exon row names the transcript. */
  datatype Transcript = Transcript(transcriptId: string, strand: string, start: int, stop: int, exons: Option<seq<Feature>>)

  function InTranscript(transcriptId: string): Exon -> bool {
    (e: Exon) => e.transcriptId == transcriptId
  }

  /** The group of exon rows collected for one transcript id, missing when the group does not exist. */
  function TranscriptExons(exons: seq<Exon>, transcriptId: string): (r: Option<seq<Feature>>)
    ensures r.Some? <==> exists e | e in exons :: e.transcriptId == transcriptId
    ensures r.Some? ==> forall f :: f in r.value <==> exists e | e in exons :: e.transcriptId == transcriptId && FeatureOf(e) == f
  {
    var group := Filter(exons, InTranscript(transcriptId));
    GroupMembership(exons, transcriptId);
    if group == [] then None else Some(Map(group, FeatureOf))
  }

  lemma GroupMembership(exons: seq<Exon>, transcriptId: string)
    ensures var group := Filter(exons, InTranscript(transcriptId));
            (group != [] <==> exists e | e in exons :: e.transcriptId == transcriptId) &&
            forall f :: f in Map(group, FeatureOf) <==> exists e | e in exons :: e.transcriptId == transcriptId && FeatureOf(e) == f
  {
    var group := Filter(exons, InTranscript(transcriptId));
    forall e ensures e in group <==> e in exons && e.transcriptId == transcriptId {
      FilterMembership(exons, InTranscript(transcriptId), e);
    }
    forall f | f in Map(group, FeatureOf) ensures exists e | e in exons :: e.transcriptId == transcriptId && FeatureOf(e) == f {
      var k :| 0 <= k < |Map(group, FeatureOf)| && Map(group, FeatureOf)[k] == f;
      assert group[k] in group;
    }
    forall f | exists e | e in exons :: e.transcriptId == transcriptId && FeatureOf(e) == f
      ensures f in Map(group, FeatureOf)
    {
      var e :| e in exons && e.transcriptId == transcriptId && FeatureOf(e) == f;
      var k :| 0 <= k < |group| && group[k] == e;
      assert Map(group, FeatureOf)[k] == f;
    }
  }

  /** `transcripts.annotate(exons=transcript_exons[transcript_id].exons.map(...))` */
  function AttachExons(row: TranscriptRow, exons: seq<Exon>): (t: Transcript)
    ensures t.transcriptId == row.transcriptId
    ensures t.exons == TranscriptExons(exons, row.transcriptId)
  {
    Transcript(row.transcriptId, row.strand, row.start, row.stop, TranscriptExons(exons, row.transcriptId))
  }

  function OfGene(geneId: string): TranscriptRow -> bool {
    (t: TranscriptRow) => t.geneId == geneId
  }

  function Attach(exons: seq<Exon>): TranscriptRow -> Transcript {
    (row: TranscriptRow) => AttachExons(row, exons)
  }

  /**
   * The transcripts collected for a gene id, each with its exons (gene id and
   * chrom dropped); missing when no transcript row names the gene.
   */
  function GeneTranscripts(transcripts: seq<TranscriptRow>, exons: seq<Exon>, geneId: string): (r: Option<seq<Transcript>>)
    ensures r.Some? <==> exists t | t in transcripts :: t.geneId == geneId
    ensures r.Some? ==> forall t | t in r.value ::
              (exists row | row in transcripts :: row.geneId == geneId && row.transcriptId == t.transcriptId) &&
              t.exons == TranscriptExons(exons, t.transcriptId)
  {
    var group := Filter(transcripts, OfGene(geneId));
    GeneGroupMembership(transcripts, geneId);
    if group == [] then None
    else
      var r := Map(group, Attach(exons));
      assert forall t | t in r :: exists k | 0 <= k < |group| :: t == AttachExons(group[k], exons);
      Some(r)
  }

  lemma GeneGroupMembership(transcripts: seq<TranscriptRow>, geneId: string)
    ensures var group := Filter(transcripts, OfGene(geneId));
            (group != [] <==> exists t | t in transcripts :: t.geneId == geneId) &&
            forall t | t in group :: t in transcripts && t.geneId == geneId
  {
    if exists t | t in transcripts :: t.geneId == geneId {
      var t :| t in transcripts && t.geneId == geneId;
      FilterMembership(transcripts, OfGene(geneId), t);
    }
  }

  // ---------------------------------------------------------------------
  // Canonical transcript

  function HasId(transcriptId: string): Transcript -> bool {
    (t: Transcript) => t.transcriptId == transcriptId
  }

  /**
   * `transcripts.filter(transcript_id == canonical_transcript_id).head()`:
   * missing without transcripts, without a canonical id or without a match.
   */
  function CanonicalTranscript(transcripts: Option<seq<Transcript>>, canonicalId: Option<string>): (r: Option<Transcript>)
    ensures r.Some? ==> canonicalId.Some? && transcripts.Some? && r.value in transcripts.value &&
                        r.value.transcriptId == canonicalId.value
    ensures (canonicalId.Some? && transcripts.Some? &&
             exists t | t in transcripts.value :: t.transcriptId == canonicalId.value) ==> r.Some?
  {
    if canonicalId.None? || transcripts.None? then None
    else
      var matching := Filter(transcripts.value, HasId(canonicalId.value));
      MatchingNonEmpty(transcripts.value, canonicalId.value);
      if matching == [] then None else Some(matching[0])
  }

  lemma MatchingNonEmpty(transcripts: seq<Transcript>, id: string)
    ensures (exists t | t in transcripts :: t.transcriptId == id) ==> Filter(transcripts, HasId(id)) != []
  {
    if exists t | t in transcripts :: t.transcriptId == id {
      var t :| t in transcripts && t.transcriptId == id;
      FilterMembership(transcripts, HasId(id), t);
    }
  }

  function IsCds(f: Feature): bool {
    f.featureType == "CDS"
  }

  function IsExon(f: Feature): bool {
    f.featureType == "exon"
  }

  /** The canonical transcript's exons: its CDS features when it has any, else its `exon` features. */
  function CanonicalExons(exons: seq<Feature>): seq<Feature> {
    if exists f | f in exons :: f.featureType == "CDS" then Filter(exons, IsCds) else Filter(exons, IsExon)
  }

  /**
   * The canonical exons are the transcript's CDS features when it has any
   * and its `exon` features otherwise, in order; a UTR is never kept.
   */
  lemma CanonicalExonsSpec(exons: seq<Feature>)
    ensures var r := CanonicalExons(exons);
            (forall f | f in r :: f in exons && f.featureType != "UTR") &&
            ((exists f | f in exons :: f.featureType == "CDS") ==>
               r != [] && forall f :: f in r <==> f in exons && f.featureType == "CDS") &&
            ((forall f | f in exons :: f.featureType != "CDS") ==>
               forall f :: f in r <==> f in exons && f.featureType == "exon")
  {
    forall f ensures (f in Filter(exons, IsCds) <==> f in exons && IsCds(f)) &&
                     (f in Filter(exons, IsExon) <==> f in exons && IsExon(f)) {
      FilterMembership(exons, IsCds, f);
      FilterMembership(exons, IsExon, f);
    }
  }

  /** The canonical transcript with its exons reduced, as `prepare_gene_models_helper` keeps it. */
  function GeneCanonicalTranscript(transcripts: seq<TranscriptRow>, exons: seq<Exon>, geneId: string, canonicalId: Option<string>): Option<Transcript> {
    var canonical := CanonicalTranscript(GeneTranscripts(transcripts, exons, geneId), canonicalId);
    if canonical.None? then None
    else if canonical.value.exons.None? then canonical
    else Some(canonical.value.(exons := Some(CanonicalExons(canonical.value.exons.value))))
  }

  /**
   * The kept canonical transcript is a transcript of the gene with the
   * canonical id, and each of its exons is a CDS or `exon` row of the GTF
   * file for that transcript.
   */
  lemma GeneCanonicalTranscriptSpec(gencode: seq<GtfRow>, geneId: string, canonicalId: Option<string>)
    ensures var r := GeneCanonicalTranscript(GetTranscripts(gencode), GetExons(gencode), geneId, canonicalId);
            r.Some? ==>
              canonicalId == Some(r.value.transcriptId) &&
              (exists row | row in GetTranscripts(gencode) :: row.geneId == geneId && row.transcriptId == r.value.transcriptId) &&
              (r.value.exons.Some? ==> forall f | f in r.value.exons.value ::
                 f.featureType in {"CDS", "exon"} &&
                 exists e | e in GetExons(gencode) :: e.transcriptId == r.value.transcriptId && FeatureOf(e) == f)
  {
    var transcripts, exons := GetTranscripts(gencode), GetExons(gencode);
    var canonical := CanonicalTranscript(GeneTranscripts(transcripts, exons, geneId), canonicalId);
    if canonical.Some? && canonical.value.exons.Some? {
      var all := canonical.value.exons.value;
      assert all == TranscriptExons(exons, canonical.value.transcriptId).value;
      CanonicalExonsSpec(all);
      forall f | f in CanonicalExons(all) ensures f.featureType in {"CDS", "exon"} {
        if exists g | g in all :: g.featureType == "CDS" {
          FilterMembership(all, IsCds, f);
        } else {
          FilterMembership(all, IsExon, f);
        }
      }
    }
  }

  // ---------------------------------------------------------------------
  // HGNC and symbols

  /** `field.split(",").map(lambda s: s.strip())`; an empty HGNC cell is missing. */
  function SymbolList(field: Option<string>): (r: Option<seq<string>>)
    ensures r.Some? <==> field.Some?
    ensures r.Some? ==> (|r.value| == |Split(field.value, ",")| &&
              forall i | 0 <= i < |r.value| :: r.value[i] == Strip(Split(field.value, ",")[i]))
  {
    match field
    case None => None
    case Some(s) => Some(Map(Split(s, ","), Strip))
  }

  /** A row of the HGNC table. */
  datatype HgncRow = HgncRow(
    symbol: Option<string>,
    previousSymbols: Option<string>,
    aliasSymbols: Option<string>,
    ensemblGeneId: Option<string>,
    suppliedEnsemblId: Option<string>)

  /** `or_else(Ensembl gene ID, Ensembl ID (supplied by Ensembl))` */
  function HgncGeneId(row: HgncRow): (r: Option<string>)
    ensures r.Some? <==> row.ensemblGeneId.Some? || row.suppliedEnsemblId.Some?
    ensures row.ensemblGeneId.Some? ==> r == row.ensemblGeneId
  {
    if row.ensemblGeneId.Some? then row.ensemblGeneId else row.suppliedEnsemblId
  }

  function HasGeneId(row: HgncRow): bool {
    HgncGeneId(row).Some?
  }

  /** `load_hgnc`: the rows with an Ensembl id from either source. */
  function LoadHgnc(rows: seq<HgncRow>): (r: seq<HgncRow>)
    ensures forall x :: x in r <==> x in rows && HgncGeneId(x).Some?
  {
    forall x {
      FilterMembership(rows, HasGeneId, x);
    }
    Filter(rows, HasGeneId)
  }

  /** `or_else(symbol, or_else(GRCh38 symbol, GRCh37 symbol))` */
  function DisplaySymbol(hgncSymbol: Option<string>, grch38Symbol: Option<string>, grch37Symbol: Option<string>): (r: Option<string>)
    ensures hgncSymbol.Some? ==> r == hgncSymbol
    ensures hgncSymbol.None? && grch38Symbol.Some? ==> r == grch38Symbol
    ensures hgncSymbol.None? && grch38Symbol.None? ==> r == grch37Symbol
  {
    if hgncSymbol.Some? then hgncSymbol else if grch38Symbol.Some? then grch38Symbol else grch37Symbol
  }

  /** The symbols of one gene that feed its search terms; `hgncSymbol` is the approved symbol. */
  datatype GeneSymbols = GeneSymbols(
    hgncSymbol: Option<string>,
    previousSymbols: Option<seq<string>>,
    aliasSymbols: Option<seq<string>>,
    grch38Symbol: Option<string>,
    grch37Symbol: Option<string>)

  function Defined(s: seq<string>): seq<Option<string>> {
    Map(s, Wrap)
  }

  function Wrap(x: string): Option<string> {
    Some(x)
  }

  /** The gene's `symbol`: the approved symbol, else a GENCODE one. */
  function Symbol(g: GeneSymbols): Option<string> {
    DisplaySymbol(g.hgncSymbol, g.grch38Symbol, g.grch37Symbol)
  }

  /** The array the search terms are built from, missing entries included. */
  function Candidates(g: GeneSymbols): seq<Option<string>> {
    [Symbol(g)] + Defined(if g.previousSymbols.Some? then g.previousSymbols.value else []) +
    Defined(if g.aliasSymbols.Some? then g.aliasSymbols.value else []) + [g.grch38Symbol, g.grch37Symbol]
  }

  /** `search_terms`: the defined candidates, uppercased, as a set. */
  function SearchTerms(g: GeneSymbols): set<string> {
    set c | c in Candidates(g) && c.Some? :: ToUpper(c.value)
  }

  /** Every symbol source of a gene, missing ones left out. */
  ghost predicate IsSymbolOf(g: GeneSymbols, s: string) {
    g.hgncSymbol == Some(s) || g.grch38Symbol == Some(s) || g.grch37Symbol == Some(s) ||
    (g.previousSymbols.Some? && s in g.previousSymbols.value) ||
    (g.aliasSymbols.Some? && s in g.aliasSymbols.value)
  }

  /** A term is searchable exactly when it is the uppercase form of one of the gene's symbols. */
  lemma SearchTermsSpec(g: GeneSymbols, term: string)
    ensures term in SearchTerms(g) <==> exists s | IsSymbolOf(g, s) :: ToUpper(s) == term
    ensures term in SearchTerms(g) ==> IsUpper(term)
  {
    var prev := if g.previousSymbols.Some? then g.previousSymbols.value else [];
    var alias := if g.aliasSymbols.Some? then g.aliasSymbols.value else [];
    forall c ensures c in Candidates(g) && c.Some? <==> exists s | IsSymbolOf(g, s) :: c == Some(s) {
      DefinedMembership(prev, c);
      DefinedMembership(alias, c);
    }
    if term in SearchTerms(g) {
      var c :| c in Candidates(g) && c.Some? && ToUpper(c.value) == term;
      ToUpperIdempotent(c.value);
    }
    if exists s | IsSymbolOf(g, s) :: ToUpper(s) == term {
      var s :| IsSymbolOf(g, s) && ToUpper(s) == term;
      assert Some(s) in Candidates(g);
    }
  }

  /** The symbol a gene is shown with is always one of its search terms. */
  lemma SymbolSearchable(g: GeneSymbols)
    requires Symbol(g).Some?
    ensures ToUpper(Symbol(g).value) in SearchTerms(g)
  {
    assert Candidates(g)[0] == Symbol(g);
  }

  lemma DefinedMembership(s: seq<string>, c: Option<string>)
    ensures c in Defined(s) <==> c.Some? && c.value in s
  {
    if c.Some? && c.value in s {
      var k :| 0 <= k < |s| && s[k] == c.value;
      assert Defined(s)[k] == c;
    }
  }

  /**
   * A gene is found by the server's index under any of its symbols, in any
   * letter case: the search-terms file lists each gene id with its terms,
   * and a query is uppercased before the lookup.
   */
  lemma {:induction false} GeneFindable(lines: seq<(string, seq<string>)>, i: nat, g: GeneSymbols, symbol: string, query: string)
    requires i < |lines| && (set t | t in lines[i].1) == SearchTerms(g)
    requires IsSymbolOf(g, symbol) && ToUpper(query) == ToUpper(symbol)
    ensures lines[i].0 in Server.Postings(lines, ToUpper(query))
  {
    SearchTermsSpec(g, ToUpper(query));
    assert ToUpper(query) in (set t | t in lines[i].1);
    Server.PostingsMembership(lines, ToUpper(query), lines[i].0);
  }
}
