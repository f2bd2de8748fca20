/**
 * The request handling of the results server (src/server/server.js): the
 * gene search endpoint, the resolution of a gene symbol to a gene id, the
 * directory a gene's files live in, the gene search index, the choice of
 * dataset for a request and the per-dataset configuration script.
 *
 * The prefix index (`PrefixTrie`) is not part of this model: its `search`
 * is a parameter, and its `add`/`get` are modelled as a map from search
 * term to the gene ids added for it.
 */
module Server {
  import opened Wrappers
  import opened Strings
  import opened JsValues
  import opened Seqs

  /** An error answer: a status code and a JSON body with one text field. */
  datatype ApiError = ApiError(status: nat, field: string, text: string)

  // ---------------------------------------------------------------------
  // Gene search

  /** `req.query.q`: absent, one value, or a repeated parameter (an array). */
  datatype QueryParam = Absent | One(text: string) | Repeated(values: seq<string>)

  /** One match of the index: a search term and the gene ids filed under it. */
  datatype IndexMatch = IndexMatch(word: string, docs: seq<string>)

  datatype SearchItem = SearchItem(itemLabel: string, url: string)

  /** `/^ENSG\d{11}$/` */
  predicate IsEnsemblGeneId(q: string) {
    |q| == 15 && q[..4] == "ENSG" && AllDigits(q[4..])
  }

  function GeneUrl(geneId: string): string {
    "/gene/" + geneId
  }

  /** The items of one match: one per gene id when there are several, else one labelled with the word. */
  function ItemsFor(m: IndexMatch): (r: seq<SearchItem>)
    ensures |m.docs| > 1 ==> (|r| == |m.docs| &&
              forall j | 0 <= j < |r| :: r[j] == SearchItem(m.word + " (" + m.docs[j] + ")", GeneUrl(m.docs[j])))
    ensures |m.docs| <= 1 ==> |r| == 1 && r[0].itemLabel == m.word
    ensures |m.docs| == 1 ==> r == [SearchItem(m.word, GeneUrl(m.docs[0]))]
  {
    if |m.docs| > 1 then Map(m.docs, MultiItem(m.word))
    else [SearchItem(m.word, GeneUrl(if |m.docs| == 1 then m.docs[0] else "undefined"))]
  }

  function MultiItem(word: string): string -> SearchItem {
    geneId => SearchItem(word + " (" + geneId + ")", GeneUrl(geneId))
  }

  /** `flatMap` over the matches. */
  function Expand(matches: seq<IndexMatch>): (r: seq<SearchItem>)
    decreases |matches|
  {
    if matches == [] then []
    else Expand(matches[..|matches| - 1]) + ItemsFor(matches[|matches| - 1])
  }

  /** The number of items a match expands to. */
  function ItemCount(m: IndexMatch): nat {
    if |m.docs| > 1 then |m.docs| else 1
  }

  function TotalItems(matches: seq<IndexMatch>): nat
    decreases |matches|
  {
    if matches == [] then 0 else TotalItems(matches[..|matches| - 1]) + ItemCount(matches[|matches| - 1])
  }

  /** Every match contributes one item per gene id, or a single item. */
  lemma {:induction false} ExpandLength(matches: seq<IndexMatch>)
    ensures |Expand(matches)| == TotalItems(matches)
    ensures TotalItems(matches) >= |matches|
    decreases |matches|
  {
    if matches != [] {
      ExpandLength(matches[..|matches| - 1]);
    }
  }

  /** Each gene id of a match with several ids appears as an item labelled `word (geneId)`. */
  lemma {:induction false} ExpandListsEveryId(matches: seq<IndexMatch>, i: nat, geneId: string)
    requires i < |matches| && |matches[i].docs| > 1 && geneId in matches[i].docs
    ensures SearchItem(matches[i].word + " (" + geneId + ")", GeneUrl(geneId)) in Expand(matches)
    decreases |matches|
  {
    var init := matches[..|matches| - 1];
    if i < |matches| - 1 {
      assert init[i] == matches[i];
      ExpandListsEveryId(init, i, geneId);
    } else {
      var k :| 0 <= k < |matches[i].docs| && matches[i].docs[k] == geneId;
      assert ItemsFor(matches[i])[k] in ItemsFor(matches[i]);
    }
  }

  /** `.slice(0, n)` */
  function Take<T>(s: seq<T>, n: nat): (r: seq<T>)
    ensures |r| == if |s| < n then |s| else n
    ensures r <= s
  {
    if |s| <= n then s else s[..n]
  }

  /** `/api/search`: the answer to a query, given the index's `search`. */
  function SearchResponse(q: QueryParam, search: string -> seq<IndexMatch>): (r: Result<seq<SearchItem>, ApiError>)
    ensures (q.Absent? || q == One("")) ==> r == Err(ApiError(400, "error", "Query required"))
    ensures q.Repeated? ==> r == Err(ApiError(400, "error", "One query required"))
    ensures r.Ok? <==> q.One? && q.text != ""
  {
    match q
    case Absent => Err(ApiError(400, "error", "Query required"))
    case Repeated(_) => Err(ApiError(400, "error", "One query required"))
    case One(text) =>
      if text == "" then Err(ApiError(400, "error", "Query required"))
      else
        var query := ToUpper(text);
        if IsEnsemblGeneId(query) then Ok([SearchItem(query, GeneUrl(query))])
        else Ok(Take(Expand(search(query)), 5))
  }

  /**
   * A query that is an Ensembl gene id (in any case) answers exactly that id,
   * whatever the index holds; any other query answers at most five items,
   * the first ones of the expanded matches of the uppercased query.
   */
  lemma SearchAnswers(text: string, search: string -> seq<IndexMatch>, other: string -> seq<IndexMatch>)
    requires text != ""
    ensures var query := ToUpper(text);
            var r := SearchResponse(One(text), search);
            r.Ok? &&
            (IsEnsemblGeneId(query) ==> r.value == [SearchItem(query, GeneUrl(query))] && SearchResponse(One(text), other) == r) &&
            (!IsEnsemblGeneId(query) ==>
               (|r.value| <= 5 && r.value <= Expand(search(query)) &&
                |r.value| == (if TotalItems(search(query)) < 5 then TotalItems(search(query)) else 5)))
  {
    ExpandLength(search(ToUpper(text)));
  }

  // ---------------------------------------------------------------------
  // Resolving a gene id or symbol

  /** `/^ENSGR?\d+/`: the pattern is anchored at the start only, so one digit after the prefix suffices. */
  predicate StartsLikeGeneId(s: string) {
    |s| >= 5 && s[..4] == "ENSG" &&
    (IsDigit(s[4]) || (s[4] == 'R' && |s| >= 6 && IsDigit(s[5])))
  }

  /** The gene id a request names: an id as given, or the only gene filed under the uppercased symbol. */
  function ResolveGene(geneIdOrName: string, get: string -> seq<string>): (r: Result<string, ApiError>)
    ensures StartsLikeGeneId(geneIdOrName) ==> r == Ok(geneIdOrName)
    ensures !StartsLikeGeneId(geneIdOrName) ==>
              var ids := get(ToUpper(geneIdOrName));
              (|ids| == 1 ==> r == Ok(ids[0])) &&
              (|ids| == 0 ==> r == Err(ApiError(404, "error", "Gene not found"))) &&
              (|ids| > 1 ==> r == Err(ApiError(400, "error", "Gene symbol matches multiple genes")))
  {
    if StartsLikeGeneId(geneIdOrName) then Ok(geneIdOrName)
    else
      var ids := get(ToUpper(geneIdOrName));
      if |ids| == 1 then Ok(ids[0])
      else if |ids| == 0 then Err(ApiError(404, "error", "Gene not found"))
      else Err(ApiError(400, "error", "Gene symbol matches multiple genes"))
  }

  /** Anything after the first digit is ignored by the pattern: `ENSG1-anything` is taken as a gene id. */
  lemma PatternNotAnchored(digit: char, rest: string, get: string -> seq<string>)
    requires IsDigit(digit)
    ensures ResolveGene("ENSG" + [digit] + rest, get) == Ok("ENSG" + [digit] + rest)
  {
    var s := "ENSG" + [digit] + rest;
    assert s[..4] == "ENSG" && s[4] == digit;
  }

  // ---------------------------------------------------------------------
  // Gene data directories

  /** JavaScript `Number(s)` on text: blank is 0, digits are their value, anything else is `NaN` (`None`). */
  function NumberOfText(s: string): (r: Option<nat>)
    ensures r.Some? ==> ToNumber(Str(s)) == Some(r.value as real)
    ensures r.None? <==> ToNumber(Str(s)).None?
  {
    var t := Strip(s);
    if t == "" then Some(0) else if AllDigits(t) then Some(ParseDigits(t)) else None
  }

  /** `geneId.replace(/^ENSGR?/, '')` */
  function StripGeneIdPrefix(geneId: string): string {
    if "ENSGR" <= geneId then geneId[5..] else if "ENSG" <= geneId then geneId[4..] else geneId
  }

  /** The three-digit bucket of a number: `String(n % 1000).padStart(3, '0')`. */
  function Bucket(n: nat): (r: string)
    ensures |r| == 3 && AllDigits(r) && ParseDigits(r) == n % 1000
  {
    var digits := NatToString(n % 1000);
    ParseNatToString(n % 1000);
    NatToStringShort(n % 1000);
    var r := PadStart(digits, 3, '0');
    PadZerosKeepValue(digits, r);
    r
  }

  lemma NatToStringShort(n: nat)
    requires n < 1000
    ensures |NatToString(n)| <= 3
  {
    if n >= 10 {
      NatToStringShort(n / 10);
    }
  }

  lemma PadZerosKeepValue(digits: string, r: string)
    requires AllDigits(digits) && |digits| <= 3 && |digits| >= 1
    requires r == PadStart(digits, 3, '0')
    ensures AllDigits(r) && ParseDigits(r) == ParseDigits(digits)
  {
    assert r == Zeros(3 - |digits|) + digits;
    LeadingZeros(3 - |digits|, digits);
  }

  /** `n` zero digits. */
  function Zeros(n: nat): (r: string)
    ensures |r| == n && forall i | 0 <= i < n :: r[i] == '0'
  {
    seq(n, _ => '0')
  }

  /** Leading zeros do not change the value of a digit string. */
  lemma {:induction false} LeadingZeros(n: nat, s: string)
    requires AllDigits(s)
    ensures AllDigits(Zeros(n) + s) && ParseDigits(Zeros(n) + s) == ParseDigits(s)
    decreases n
  {
    if n > 0 {
      LeadingZeros(n - 1, s);
      assert Zeros(n) + s == "0" + (Zeros(n - 1) + s);
      ParseDigitsLeadingZero(Zeros(n - 1) + s);
    } else {
      assert Zeros(n) + s == s;
    }
  }

  /** `geneDataDirectory`: `genes/` and the bucket of the gene's number; a gene id that is no number lands in `genes/NaN`. */
  function GeneDataDirectory(geneId: string): (r: string)
    ensures NumberOfText(StripGeneIdPrefix(geneId)).Some? ==> r == "genes/" + Bucket(NumberOfText(StripGeneIdPrefix(geneId)).value)
    ensures NumberOfText(StripGeneIdPrefix(geneId)).None? ==> r == "genes/NaN"
  {
    match NumberOfText(StripGeneIdPrefix(geneId))
    case Some(n) => "genes/" + Bucket(n)
    case None => "genes/NaN"
  }

  /** The writer's bucket (data_pipeline/write_results_files.py): `int(gene_id.lstrip("ENSGR")) % 1000`, zero-filled; `int` raises on anything but digits. */
  function WriterGeneDirectory(geneId: string): Option<string> {
    var t := Strip(LStripChars(geneId, {'E', 'N', 'S', 'G', 'R'}));
    if t != "" && AllDigits(t) then Some("genes/" + Bucket(ParseDigits(t))) else None
  }

  /** For an Ensembl gene id the server looks for a gene's files where the writer put them. */
  lemma BucketsAgree(prefix: string, digits: string)
    requires prefix == "ENSG" || prefix == "ENSGR"
    requires digits != [] && AllDigits(digits)
    ensures WriterGeneDirectory(prefix + digits) == Some(GeneDataDirectory(prefix + digits))
  {
    LStripDigits(prefix, digits);
    StripEnsemblPrefix(prefix, digits);
    StripDigits(digits);
  }

  lemma StripEnsemblPrefix(prefix: string, digits: string)
    requires prefix == "ENSG" || prefix == "ENSGR"
    requires digits != [] && AllDigits(digits)
    ensures StripGeneIdPrefix(prefix + digits) == digits
  {
    var geneId := prefix + digits;
    if prefix == "ENSG" {
      assert !("ENSGR" <= geneId) by {
        assert geneId[4] == digits[0];
        assert IsDigit(digits[0]);
      }
    }
    assert geneId[|prefix|..] == digits;
  }

  lemma LStripDigits(prefix: string, digits: string)
    requires prefix == "ENSG" || prefix == "ENSGR"
    requires digits != [] && AllDigits(digits)
    ensures LStripChars(prefix + digits, {'E', 'N', 'S', 'G', 'R'}) == digits
  {
    var s := prefix + digits;
    var r := LStripChars(s, {'E', 'N', 'S', 'G', 'R'});
    assert IsDigit(digits[0]) && s[|prefix|] == digits[0];
    assert r == s[|s| - |digits|..];
  }

  lemma StripDigits(digits: string)
    requires digits != [] && AllDigits(digits)
    ensures Strip(digits) == digits
  {
    assert !IsSpace(digits[0]) && !IsSpace(digits[|digits| - 1]);
  }

  // ---------------------------------------------------------------------------
  // Node's POSIX `path.join`: the non-empty arguments joined by `/`, then
  // normalised (empty and `.` segments vanish, `..` removes the segment before it)
  // ---------------------------------------------------------------------------

  /** A segment that normalisation keeps as it is. */
  predicate PlainSegment(seg: string) {
    seg != "" && seg != "." && seg != ".." && '/' !in seg
  }

  /**
   * `normalizeString`'s walk over the segments: empty and `.` segments are
   * dropped, `..` removes the last kept segment unless that one is itself
   * `..`, and otherwise stays only in a relative path.
   */
  function ResolveSegments(segs: seq<string>, allowAboveRoot: bool): (r: seq<string>)
    ensures forall k | 0 <= k < |r| :: r[k] != "" && r[k] != "."
    decreases |segs|
  {
    if segs == [] then []
    else
      var kept := ResolveSegments(segs[..|segs| - 1], allowAboveRoot);
      var seg := segs[|segs| - 1];
      if seg == "" || seg == "." then kept
      else if seg == ".." then
        if kept != [] && kept[|kept| - 1] != ".." then kept[..|kept| - 1]
        else if allowAboveRoot then kept + [".."]
        else kept
      else kept + [seg]
  }

  /** `path.normalize` */
  function Normalize(p: string): string {
    if p == "" then "."
    else
      var isAbsolute := p[0] == '/';
      var trailingSeparator := p[|p| - 1] == '/';
      var body := Join(ResolveSegments(Split(p, "/"), !isAbsolute), "/");
      if body == "" then (if isAbsolute then "/" else if trailingSeparator then "./" else ".")
      else (if isAbsolute then "/" else "") + body + (if trailingSeparator then "/" else "")
  }

  /** `path.join(a, b)` */
  function PathJoin(a: string, b: string): string {
    if a == "" && b == "" then "."
    else Normalize(if a == "" then b else if b == "" then a else a + "/" + b)
  }

  /** Plain segments pass through the walk unchanged. */
  lemma {:induction false} ResolvePlain(segs: seq<string>, allowAboveRoot: bool)
    requires forall k | 0 <= k < |segs| :: PlainSegment(segs[k])
    ensures ResolveSegments(segs, allowAboveRoot) == segs
    decreases |segs|
  {
    if segs != [] {
      ResolvePlain(segs[..|segs| - 1], allowAboveRoot);
      SplitLast(segs);
    }
  }

  /** A relative path without a trailing `/` normalises to its resolved segments joined by `/`. */
  lemma NormalizeRelative(p: string, segs: seq<string>)
    requires p != "" && p[0] != '/' && p[|p| - 1] != '/'
    requires ResolveSegments(Split(p, "/"), true) == segs && Join(segs, "/") != ""
    ensures Normalize(p) == Join(segs, "/")
  {
    var body := Join(segs, "/");
    assert "" + body + "" == body;
  }

  /** A path made of plain segments is already normal. */
  lemma NormalizePlain(parts: seq<string>)
    requires |parts| >= 1 && forall k | 0 <= k < |parts| :: PlainSegment(parts[k])
    ensures Normalize(Join(parts, "/")) == Join(parts, "/")
  {
    assert forall k | 0 <= k < |parts| :: "/"[0] !in parts[k];
    SplitJoin(parts, "/");
    ResolvePlain(parts, true);
    JoinEnds(parts);
    NormalizeRelative(Join(parts, "/"), parts);
  }

  /** Non-empty segments without `/`, joined by `/`, neither start nor end with `/`. */
  lemma {:induction false} JoinEnds(parts: seq<string>)
    requires |parts| >= 1 && forall k | 0 <= k < |parts| :: parts[k] != "" && '/' !in parts[k]
    ensures var p := Join(parts, "/"); p != "" && p[0] != '/' && p[|p| - 1] != '/'
    decreases |parts|
  {
    if |parts| == 1 {
      assert parts[0][0] in parts[0];
      assert parts[0][|parts[0]| - 1] in parts[0];
    } else {
      JoinEnds(parts[1..]);
      var rest := Join(parts[1..], "/");
      assert Join(parts, "/") == parts[0] + "/" + rest;
      assert parts[0][0] in parts[0];
    }
  }

  /** The bucket directory is `genes/` and one plain segment. */
  lemma DirectorySegments(geneId: string)
    ensures exists b | PlainSegment(b) :: GeneDataDirectory(geneId) == "genes/" + b
  {
    match NumberOfText(StripGeneIdPrefix(geneId))
    case Some(n) =>
      var b := Bucket(n);
      assert b[0] != '.' && IsDigit(b[0]);
      assert '/' !in b by {
        forall i | 0 <= i < |b| ensures b[i] != '/' {
          assert IsDigit(b[i]);
        }
      }
      assert PlainSegment(b);
    case None =>
      assert PlainSegment("NaN");
  }

  /** `path.join` of `genes/<b>` and a plain file name is their concatenation with `/`. */
  lemma JoinBelowGenes(b: string, file: string)
    requires PlainSegment(b) && PlainSegment(file)
    ensures PathJoin("genes/" + b, file) == "genes/" + b + "/" + file
  {
    var parts := ["genes", b, file];
    JoinThree("genes", b, file);
    assert "genes" + "/" + b == "genes/" + b;
    NormalizePlain(parts);
  }

  /** `path.join` of the bucket directory and a plain file name is their concatenation with `/`. */
  lemma JoinInDirectory(geneId: string, file: string)
    requires PlainSegment(file)
    ensures PathJoin(GeneDataDirectory(geneId), file) == GeneDataDirectory(geneId) + "/" + file
  {
    DirectorySegments(geneId);
    var b :| PlainSegment(b) && GeneDataDirectory(geneId) == "genes/" + b;
    JoinBelowGenes(b, file);
  }

  /** A name ending in `suffix`, with no `/` anywhere, is a plain segment. */
  lemma FileNamePlain(a: string, b: string, suffix: string)
    requires '/' !in a && '/' !in b && '/' !in suffix && |suffix| >= 3
    ensures PlainSegment(a + "_" + b + suffix)
  {
    var f := a + "_" + b + suffix;
    assert |f| >= 3;
    forall i | 0 <= i < |f| ensures f[i] != '/' {
      if i < |a| { assert f[i] == a[i]; }
      else if i == |a| { }
      else if i < |a| + 1 + |b| { assert f[i] == b[i - |a| - 1]; }
      else { assert f[i] == suffix[i - |a| - 1 - |b|]; }
    }
  }

  lemma LowerNoSlash(s: string)
    requires '/' !in s
    ensures '/' !in ToLower(s)
  {
    forall i | 0 <= i < |s| ensures ToLower(s)[i] != '/' {
      assert s[i] != '/';
    }
  }

  /**
   * The file of a gene's data for a reference genome: `path.join` of the
   * bucket directory and the file name, which for an id and a genome name
   * without `/` is the file directly inside the bucket directory.
   */
  function GeneFilePath(geneId: string, referenceGenome: string): (r: string)
    ensures '/' !in geneId && '/' !in referenceGenome ==>
              r == GeneDataDirectory(geneId) + "/" + geneId + "_" + referenceGenome + ".json"
  {
    var file := geneId + "_" + referenceGenome + ".json";
    if '/' !in geneId && '/' !in referenceGenome then
      GeneFileInBucket(geneId, referenceGenome);
      PathJoin(GeneDataDirectory(geneId), file)
    else
      PathJoin(GeneDataDirectory(geneId), file)
  }

  lemma GeneFileInBucket(geneId: string, referenceGenome: string)
    requires '/' !in geneId && '/' !in referenceGenome
    ensures PathJoin(GeneDataDirectory(geneId), geneId + "_" + referenceGenome + ".json") ==
            GeneDataDirectory(geneId) + "/" + geneId + "_" + referenceGenome + ".json"
  {
    var dir, file := GeneDataDirectory(geneId), geneId + "_" + referenceGenome + ".json";
    FileNamePlain(geneId, referenceGenome, ".json");
    JoinInDirectory(geneId, file);
    NameInDirectory(dir + "/", geneId, "_", referenceGenome, ".json");
  }

  /**
   * The file of a gene's variants for a dataset, named with the dataset in
   * lower case; for an id and a dataset without `/` it lies directly inside
   * the bucket directory.
   */
  function VariantsFilePath(geneId: string, dataset: string): (r: string)
    ensures '/' !in geneId && '/' !in dataset ==>
              r == GeneDataDirectory(geneId) + "/" + geneId + "_" + ToLower(dataset) + "_variants.json"
  {
    var file := geneId + "_" + ToLower(dataset) + "_variants.json";
    if '/' !in geneId && '/' !in dataset then
      LowerNoSlash(dataset);
      VariantsFileInBucket(geneId, ToLower(dataset));
      PathJoin(GeneDataDirectory(geneId), file)
    else
      PathJoin(GeneDataDirectory(geneId), file)
  }

  lemma VariantsFileInBucket(geneId: string, lower: string)
    requires '/' !in geneId && '/' !in lower
    ensures PathJoin(GeneDataDirectory(geneId), geneId + "_" + lower + "_variants.json") ==
            GeneDataDirectory(geneId) + "/" + geneId + "_" + lower + "_variants.json"
  {
    var dir, file := GeneDataDirectory(geneId), geneId + "_" + lower + "_variants.json";
    FileNamePlain(geneId, lower, "_variants.json");
    JoinInDirectory(geneId, file);
    NameInDirectory(dir + "/", geneId, "_", lower, "_variants.json");
  }

  /** A gene's data and its variants are read from the same bucket, for ids and names without `/`. */
  lemma SameBucket(geneId: string, referenceGenome: string, dataset: string)
    requires '/' !in geneId && '/' !in referenceGenome && '/' !in dataset
    ensures GeneDataDirectory(geneId) + "/" <= GeneFilePath(geneId, referenceGenome)
    ensures GeneDataDirectory(geneId) + "/" <= VariantsFilePath(geneId, dataset)
  {
  }

  /** Three segments joined by `/`. */
  lemma JoinThree(a: string, b: string, c: string)
    ensures Join([a, b, c], "/") == a + "/" + b + "/" + c
  {
    var parts := [a, b, c];
    assert parts[1..] == [b, c] && parts[1..][1..] == [c];
    assert Join(parts[1..][1..], "/") == c;
    assert Join(parts[1..], "/") == b + "/" + c;
    assert Join(parts, "/") == a + "/" + (b + "/" + c);
  }

  /**
   * A decoded `%2F` can put `..` into an id the unanchored pattern accepts:
   * for `ENSG1/../x` the server reads `x_GRCh38.json` from the id's bucket
   * directory, not a file named after the whole id.
   */
  lemma ParentSegmentDropsId(first: string, rest: string, referenceGenome: string)
    requires PlainSegment(first) && '/' !in rest && '/' !in referenceGenome
    ensures var id := first + "/../" + rest;
            GeneFilePath(id, referenceGenome) == GeneDataDirectory(id) + "/" + rest + "_" + referenceGenome + ".json"
  {
    var id := first + "/../" + rest;
    var file := rest + "_" + referenceGenome + ".json";
    assert id[|first|] == '/';
    var dir := GeneDataDirectory(id);
    assert GeneFilePath(id, referenceGenome) == PathJoin(dir, id + "_" + referenceGenome + ".json");
    NameInDirectory(first + "/../", rest, "_", referenceGenome, ".json");
    FileNamePlain(rest, referenceGenome, ".json");
    DirectorySegments(id);
    var b :| PlainSegment(b) && dir == "genes/" + b;
    NormalizeDotDot(b, first, file);
    NameInDirectory(dir + "/", rest, "_", referenceGenome, ".json");
  }

  /** A file name built in parts, placed after a prefix. */
  lemma NameInDirectory(prefix: string, a: string, b: string, c: string, d: string)
    ensures prefix + (a + b + c + d) == prefix + a + b + c + d
  {
    AppendAssoc(prefix, a + b + c, d);
    AppendAssoc(prefix, a + b, c);
    AppendAssoc(prefix, a, b);
  }

  /** `genes/<b>/<first>/../<file>` normalises to `genes/<b>/<file>`. */
  lemma NormalizeDotDot(b: string, first: string, file: string)
    requires PlainSegment(b) && PlainSegment(first) && PlainSegment(file)
    ensures Normalize("genes/" + b + "/" + (first + "/../" + file)) == "genes/" + b + "/" + file
  {
    var parts := ["genes", b, first, "..", file];
    DotDotSegments(b, first, file);
    ResolveDotDot(b, first, file);
    var kept := ["genes", b, file];
    JoinThree("genes", b, file);
    assert "genes" + "/" + b == "genes/" + b;
    NormalizeRelative(Join(parts, "/"), kept);
    JoinDotDot(b, first, file);
  }

  /** Splitting the joined segments gives them back, and the path neither starts nor ends with `/`. */
  lemma DotDotSegments(b: string, first: string, file: string)
    requires PlainSegment(b) && PlainSegment(first) && PlainSegment(file)
    ensures var p := Join(["genes", b, first, "..", file], "/");
            Split(p, "/") == ["genes", b, first, "..", file] && p != "" && p[0] != '/' && p[|p| - 1] != '/'
  {
    var parts := ["genes", b, first, "..", file];
    assert forall k | 0 <= k < |parts| :: parts[k] != "" && '/' !in parts[k];
    assert forall k | 0 <= k < |parts| :: "/"[0] !in parts[k];
    SplitJoin(parts, "/");
    JoinEnds(parts);
  }

  lemma JoinDotDot(b: string, first: string, file: string)
    ensures Join(["genes", b, first, "..", file], "/") == "genes/" + b + "/" + (first + "/../" + file)
  {
    var parts := ["genes", b, first, "..", file];
    assert parts[1..] == [b, first, "..", file];
    assert parts[2..] == parts[1..][1..] == [first, "..", file];
    assert parts[3..] == parts[2..][1..] == ["..", file];
    assert parts[4..] == parts[3..][1..] == [file];
    assert Join(parts[4..], "/") == file;
    assert Join(parts[3..], "/") == ".." + "/" + file;
    assert Join(parts[2..], "/") == first + "/" + (".." + "/" + file);
    assert Join(parts[1..], "/") == b + "/" + (first + "/" + (".." + "/" + file));
  }

  lemma ResolveDotDot(b: string, first: string, file: string)
    requires PlainSegment(b) && PlainSegment(first) && PlainSegment(file)
    ensures ResolveSegments(["genes", b, first, "..", file], true) == ["genes", b, file]
  {
    var parts := ["genes", b, first, "..", file];
    assert PlainSegment("genes");
    ResolvePlain(parts[..3], true);
    assert parts[..4][..3] == parts[..3];
    assert parts[..4] == parts[..4][..|parts[..4]| - 1] + [".."];
    assert ResolveSegments(parts[..4], true) == ["genes", b];
    assert parts[..5] == parts;
  }

  // ---------------------------------------------------------------------
  // The gene search index

  /** The ids a line `[geneId, searchTerms]` files under `term`, one per occurrence of the term. */
  function LinePostings(geneId: string, terms: seq<string>, term: string): seq<string>
    decreases |terms|
  {
    if terms == [] then []
    else LinePostings(geneId, terms[..|terms| - 1], term) + (if terms[|terms| - 1] == term then [geneId] else [])
  }

  /** The ids all lines file under `term`, in the order they are read. */
  function Postings(lines: seq<(string, seq<string>)>, term: string): seq<string>
    decreases |lines|
  {
    if lines == [] then []
    else Postings(lines[..|lines| - 1], term) + LinePostings(lines[|lines| - 1].0, lines[|lines| - 1].1, term)
  }

  lemma {:induction false} LinePostingsMembership(geneId: string, terms: seq<string>, term: string, id: string)
    ensures id in LinePostings(geneId, terms, term) <==> id == geneId && term in terms
    decreases |terms|
  {
    if terms != [] {
      LinePostingsMembership(geneId, terms[..|terms| - 1], term, id);
      assert terms == terms[..|terms| - 1] + [terms[|terms| - 1]];
    }
  }

  /** A gene id is filed under a term exactly when some line lists the term for that id. */
  lemma {:induction false} PostingsMembership(lines: seq<(string, seq<string>)>, term: string, id: string)
    ensures id in Postings(lines, term) <==> exists i | 0 <= i < |lines| :: lines[i].0 == id && term in lines[i].1
    decreases |lines|
  {
    if lines != [] {
      var init := lines[..|lines| - 1];
      PostingsMembership(init, term, id);
      LinePostingsMembership(lines[|lines| - 1].0, lines[|lines| - 1].1, term, id);
      assert forall i | 0 <= i < |init| :: init[i] == lines[i];
    }
  }

  /** The ids an index map holds under `term`; a term never added holds none. */
  function Filed(index: map<string, seq<string>>, term: string): seq<string> {
    if term in index then index[term] else []
  }

  /** The index after `geneSearch.add(term, geneId)`. */
  function AddPosting(index: map<string, seq<string>>, term: string, geneId: string): (r: map<string, seq<string>>)
    ensures forall t :: Filed(r, t) == Filed(index, t) + (if t == term then [geneId] else [])
  {
    index[term := Filed(index, term) + [geneId]]
  }

  /** The index after adding every term of one line, in order. */
  function AddLine(index: map<string, seq<string>>, geneId: string, terms: seq<string>): map<string, seq<string>>
    decreases |terms|
  {
    if terms == [] then index
    else AddPosting(AddLine(index, geneId, terms[..|terms| - 1]), terms[|terms| - 1], geneId)
  }

  /** The index after every line, in order. */
  function AddLines(index: map<string, seq<string>>, lines: seq<(string, seq<string>)>): map<string, seq<string>>
    decreases |lines|
  {
    if lines == [] then index
    else AddLine(AddLines(index, lines[..|lines| - 1]), lines[|lines| - 1].0, lines[|lines| - 1].1)
  }

  /** Adding a line appends its gene under each of its terms, once per occurrence. */
  lemma {:induction false} AddLineFiles(index: map<string, seq<string>>, geneId: string, terms: seq<string>, t: string)
    ensures Filed(AddLine(index, geneId, terms), t) == Filed(index, t) + LinePostings(geneId, terms, t)
    decreases |terms|
  {
    if terms != [] {
      AddLineFiles(index, geneId, terms[..|terms| - 1], t);
    }
  }

  /** Adding the lines appends, under each term, the ids of the lines that list it, in order. */
  lemma {:induction false} AddLinesFiles(index: map<string, seq<string>>, lines: seq<(string, seq<string>)>, t: string)
    ensures Filed(AddLines(index, lines), t) == Filed(index, t) + Postings(lines, t)
    decreases |lines|
  {
    if lines != [] {
      var last := lines[|lines| - 1];
      AddLinesFiles(index, lines[..|lines| - 1], t);
      AddLineFiles(AddLines(index, lines[..|lines| - 1]), last.0, last.1, t);
    }
  }

  /** The gene search index: the gene ids added under each search term. */
  class GeneSearchIndex {
    var postings: map<string, seq<string>>

    /** `geneSearch.get(term)` */
    function Get(term: string): seq<string>
      reads this
    {
      Filed(postings, term)
    }

    constructor()
      ensures forall term :: Get(term) == []
    {
      postings := map[];
    }

    /** `geneSearch.add(term, geneId)` */
    method Add(term: string, geneId: string)
      modifies this
      ensures postings == AddPosting(old(postings), term, geneId)
      ensures forall t :: Get(t) == old(Get(t)) + (if t == term then [geneId] else [])
    {
      postings := postings[term := Get(term) + [geneId]];
    }

    /** The handler of one line: every search term of the gene is added. */
    method IndexLine(geneId: string, terms: seq<string>)
      modifies this
      ensures postings == AddLine(old(postings), geneId, terms)
      ensures forall t :: Get(t) == old(Get(t)) + LinePostings(geneId, terms, t)
    {
      var k := 0;
      while k < |terms|
        invariant 0 <= k <= |terms|
        invariant postings == AddLine(old(postings), geneId, terms[..k])
      {
        assert terms[..k + 1][..k] == terms[..k];
        Add(terms[k], geneId);
        k := k + 1;
      }
      assert terms[..|terms|] == terms;
      forall t ensures Get(t) == old(Get(t)) + LinePostings(geneId, terms, t) {
        AddLineFiles(old(postings), geneId, terms, t);
      }
    }

    /** `indexGenes`: every line of the search-terms file, in order. */
    method IndexGenes(lines: seq<(string, seq<string>)>)
      modifies this
      ensures postings == AddLines(old(postings), lines)
      ensures forall t :: Get(t) == old(Get(t)) + Postings(lines, t)
    {
      var i := 0;
      while i < |lines|
        invariant 0 <= i <= |lines|
        invariant postings == AddLines(old(postings), lines[..i])
      {
        assert lines[..i + 1][..i] == lines[..i];
        IndexLine(lines[i].0, lines[i].1);
        i := i + 1;
      }
      assert lines[..|lines|] == lines;
      forall t ensures Get(t) == old(Get(t)) + Postings(lines, t) {
        AddLinesFiles(old(postings), lines, t);
      }
    }
  }

  // ---------------------------------------------------------------------
  // The dataset of a request

  /** Development serves the dataset named by `BROWSER`; production reads the first subdomain. */
  datatype Mode = Development(browser: string) | Production(subdomains: seq<string>)

  /** The `reduce` that maps each lowercased dataset name to the dataset; a later name wins. */
  function DatasetBySubdomain(datasets: seq<string>): map<string, string>
    decreases |datasets|
  {
    if datasets == [] then map[]
    else DatasetBySubdomain(datasets[..|datasets| - 1])[ToLower(datasets[|datasets| - 1]) := datasets[|datasets| - 1]]
  }

  /** A subdomain names a dataset exactly when some dataset lowercases to it, and then it names one of those. */
  lemma {:induction false} DatasetBySubdomainSpec(datasets: seq<string>, subdomain: string)
    ensures subdomain in DatasetBySubdomain(datasets) <==> exists d | d in datasets :: ToLower(d) == subdomain
    ensures subdomain in DatasetBySubdomain(datasets) ==>
              DatasetBySubdomain(datasets)[subdomain] in datasets && ToLower(DatasetBySubdomain(datasets)[subdomain]) == subdomain
    decreases |datasets|
  {
    if datasets != [] {
      var init := datasets[..|datasets| - 1];
      DatasetBySubdomainSpec(init, subdomain);
      assert datasets == init + [datasets[|datasets| - 1]];
    }
  }

  /** `Object.keys(metadata.datasets).find(...)`: the first dataset equal to `BROWSER` ignoring case. */
  function FindDataset(datasets: seq<string>, browser: string): (r: Option<string>)
    ensures r.Some? ==> r.value in datasets && ToLower(r.value) == ToLower(browser)
    ensures r.None? ==> forall d | d in datasets :: ToLower(d) != ToLower(browser)
  {
    if datasets == [] then None
    else if ToLower(datasets[0]) == ToLower(browser) then Some(datasets[0])
    else FindDataset(datasets[1..], browser)
  }

  /** `getDatasetForRequest`; without a subdomain the lookup key is `undefined`'s text. */
  function DatasetForRequest(datasets: seq<string>, mode: Mode): Option<string> {
    match mode
    case Development(browser) => FindDataset(datasets, browser)
    case Production(subdomains) =>
      var key := if subdomains == [] then "undefined" else subdomains[0];
      var bySubdomain := DatasetBySubdomain(datasets);
      if key in bySubdomain then Some(bySubdomain[key]) else None
  }

  /** The middleware that stores the dataset on the request or answers 500. */
  function SelectDataset(datasets: seq<string>, mode: Mode): Result<string, ApiError> {
    match DatasetForRequest(datasets, mode)
    case Some(d) => if d != "" then Ok(d) else Err(ApiError(500, "message", "Unknown dataset"))
    case None => Err(ApiError(500, "message", "Unknown dataset"))
  }

  /**
   * In production a request is served the dataset whose lowercased name is
   * its first subdomain; when there is none the answer is 500 "Unknown dataset".
   */
  lemma ProductionDataset(datasets: seq<string>, subdomain: string, rest: seq<string>)
    requires forall d | d in datasets :: d != ""
    ensures var r := SelectDataset(datasets, Production([subdomain] + rest));
            (r.Ok? <==> exists d | d in datasets :: ToLower(d) == subdomain) &&
            (r.Ok? ==> r.value in datasets && ToLower(r.value) == subdomain) &&
            (r.Err? ==> r.error == ApiError(500, "message", "Unknown dataset"))
  {
    DatasetBySubdomainSpec(datasets, subdomain);
  }

  // ---------------------------------------------------------------------
  // The configuration script

  /** `{ datasetId: dataset, ...metadata, ...metadata.datasets[dataset] }` */
  function DatasetConfig(metadata: map<string, Value>, dataset: string): (r: map<string, Value>)
    ensures var own := Field(Field(Obj(metadata), "datasets"), dataset);
            forall k :: (k in r <==> (own.Obj? && k in own.fields) || k in metadata || k == "datasetId") &&
              (k in r ==> r[k] == if own.Obj? && k in own.fields then own.fields[k]
                                  else if k in metadata then metadata[k] else Str(dataset))
  {
    var own := Field(Field(Obj(metadata), "datasets"), dataset);
    map["datasetId" := Str(dataset)] + metadata + (if own.Obj? then own.fields else map[])
  }

  /** `getDatasetConfigJs` and its memo of the configuration of each dataset served so far. */
  class DatasetConfigCache {
    const metadata: map<string, Value>
    var cache: map<string, map<string, Value>>

    /** Every memoised configuration is the one computed from the metadata. */
    ghost predicate Valid()
      reads this
    {
      forall d | d in cache :: cache[d] == DatasetConfig(metadata, d)
    }

    constructor(metadata: map<string, Value>)
      ensures Valid() && this.metadata == metadata && cache == map[]
    {
      this.metadata := metadata;
      cache := map[];
    }

    method GetDatasetConfig(dataset: string) returns (config: map<string, Value>)
      requires Valid()
      modifies this
      ensures Valid()
      ensures config == DatasetConfig(metadata, dataset)
      ensures cache.Keys == old(cache.Keys) + {dataset}
    {
      if dataset !in cache {
        cache := cache[dataset := DatasetConfig(metadata, dataset)];
      }
      config := cache[dataset];
    }
  }
}
