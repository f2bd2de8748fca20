/**
 * The variant filter and the controls that change it
 * (src/browsers/base/GenePage/VariantFilterControls.js). Every control
 * builds a new filter object that replaces one field of the old one.
 */
module VariantFilterControls {
  import opened Wrappers

  /** The four consequence categories of the browser. */
  datatype Category = Lof | Missense | Synonymous | Other

  /** The key a category is stored under in `includeCategories` and in a variant's `consequenceCategory`. */
  function CategoryName(c: Category): string {
    match c
    case Lof => "lof"
    case Missense => "missense"
    case Synonymous => "synonymous"
    case Other => "other"
  }

  /** The category stored under a key, if the key is one of the four. */
  function CategoryNamed(name: string): (r: Option<Category>)
    ensures r.Some? ==> CategoryName(r.value) == name
    ensures r.None? ==> forall c: Category :: CategoryName(c) != name
  {
    if name == "lof" then Some(Lof)
    else if name == "missense" then Some(Missense)
    else if name == "synonymous" then Some(Synonymous)
    else if name == "other" then Some(Other)
    else None
  }

  /** `filter.includeCategories` */
  datatype IncludeCategories = IncludeCategories(lof: bool, missense: bool, synonymous: bool, other: bool)

  function Includes(ic: IncludeCategories, c: Category): bool {
    match c
    case Lof => ic.lof
    case Missense => ic.missense
    case Synonymous => ic.synonymous
    case Other => ic.other
  }

  /** `{ ...includeCategories, [c]: b }` */
  function WithCategory(ic: IncludeCategories, c: Category, b: bool): (r: IncludeCategories)
    ensures Includes(r, c) == b
    ensures forall d | d != c :: Includes(r, d) == Includes(ic, d)
  {
    match c
    case Lof => ic.(lof := b)
    case Missense => ic.(missense := b)
    case Synonymous => ic.(synonymous := b)
    case Other => ic.(other := b)
  }

  /** Every category selected: the category step of the filter is skipped. */
  predicate AllIncluded(ic: IncludeCategories) {
    ic.lof && ic.missense && ic.synonymous && ic.other
  }

  lemma AllIncludedMeansEvery(ic: IncludeCategories)
    ensures AllIncluded(ic) <==> forall c: Category :: Includes(ic, c)
  {
    if !AllIncluded(ic) {
      if !ic.lof { assert !Includes(ic, Lof); }
      else if !ic.missense { assert !Includes(ic, Missense); }
      else if !ic.synonymous { assert !Includes(ic, Synonymous); }
      else { assert !Includes(ic, Other); }
    }
  }

  /**
   * The state of a browser's custom filter. Each browser reads the flags its
   * own filter has; a browser without a custom filter never reads it.
   */
  datatype CustomFilterState = CustomFilterState(onlyInAnalysis: bool, onlyDeNovo: bool)

  /** `state.filter` of the variant table. */
  datatype VariantFilter = VariantFilter(includeCategories: IncludeCategories, searchText: string, custom: CustomFilterState)

  /** The filter the table starts with: every category, no search text, the browser's default custom filter. */
  function DefaultFilter(customDefault: CustomFilterState): (f: VariantFilter)
    ensures AllIncluded(f.includeCategories) && f.searchText == "" && f.custom == customDefault
  {
    VariantFilter(IncludeCategories(true, true, true, true), "", customDefault)
  }

  /** The category checkboxes: `{ ...filter, includeCategories }` */
  function OnChangeCategories(filter: VariantFilter, ic: IncludeCategories): (r: VariantFilter)
    ensures r.includeCategories == ic && r.searchText == filter.searchText && r.custom == filter.custom
  {
    filter.(includeCategories := ic)
  }

  /** The search input: `{ ...filter, searchText }` */
  function OnChangeSearchText(filter: VariantFilter, searchText: string): (r: VariantFilter)
    ensures r.searchText == searchText && r.includeCategories == filter.includeCategories && r.custom == filter.custom
  {
    filter.(searchText := searchText)
  }

  /** The custom filter component: `{ ...filter, custom }` */
  function OnChangeCustom(filter: VariantFilter, custom: CustomFilterState): (r: VariantFilter)
    ensures r.custom == custom && r.includeCategories == filter.includeCategories && r.searchText == filter.searchText
  {
    filter.(custom := custom)
  }

  /** The keyboard shortcut of a category: flips that category's checkbox. */
  function OnShortcut(filter: VariantFilter, c: Category): VariantFilter {
    filter.(includeCategories := WithCategory(filter.includeCategories, c, !Includes(filter.includeCategories, c)))
  }

  /** A shortcut negates its own category and leaves every other field of the filter as it was. */
  lemma ShortcutTogglesOne(filter: VariantFilter, c: Category)
    ensures Includes(OnShortcut(filter, c).includeCategories, c) == !Includes(filter.includeCategories, c)
    ensures forall d | d != c :: Includes(OnShortcut(filter, c).includeCategories, d) == Includes(filter.includeCategories, d)
    ensures OnShortcut(filter, c).searchText == filter.searchText && OnShortcut(filter, c).custom == filter.custom
  {
  }

  /** Pressing the same shortcut twice gives the filter back. */
  lemma ShortcutInvolution(filter: VariantFilter, c: Category)
    ensures OnShortcut(OnShortcut(filter, c), c) == filter
  {
    var ic := filter.includeCategories;
    var twice := OnShortcut(OnShortcut(filter, c), c).includeCategories;
    assert forall d: Category :: Includes(twice, d) == Includes(ic, d);
    assert twice.lof == Includes(twice, Lof) && twice.missense == Includes(twice, Missense);
    assert twice.synonymous == Includes(twice, Synonymous) && twice.other == Includes(twice, Other);
  }

  /** `keyboardShortcuts` */
  function ShortcutKey(c: Category): char {
    match c
    case Lof => 'l'
    case Missense => 'm'
    case Synonymous => 's'
    case Other => 'o'
  }

  /** The category a key press toggles, if any. */
  function CategoryForKey(k: char): (r: Option<Category>)
    ensures r.Some? ==> ShortcutKey(r.value) == k
  {
    if k == 'l' then Some(Lof)
    else if k == 'm' then Some(Missense)
    else if k == 's' then Some(Synonymous)
    else if k == 'o' then Some(Other)
    else None
  }

  /** The four shortcut keys are distinct, so each key toggles exactly one category. */
  lemma ShortcutKeysOneToOne(c: Category, d: Category)
    ensures ShortcutKey(c) == ShortcutKey(d) <==> c == d
    ensures CategoryForKey(ShortcutKey(c)) == Some(c)
  {
  }

  /** The analysis-group menu is shown only when there is a choice to make. */
  predicate ShowsGroupSelector(options: seq<string>) {
    |options| > 1
  }

  /** The name of the exported file: `${group}_${geneId}_variants` */
  function ExportFilename(group: string, geneId: string): (r: string)
    ensures |r| == |group| + |geneId| + 10
    ensures r[..|group|] == group
    ensures r[|group|..|group| + 1 + |geneId|] == "_" + geneId
    ensures r[|r| - 9..] == "_variants"
  {
    group + "_" + geneId + "_variants"
  }
}
