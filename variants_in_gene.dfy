/**
 * The variant table of the gene page (src/browsers/base/GenePage/VariantsInGene.js):
 * the filter and the sort that turn the decoded variants into the rows on
 * screen, the "jump to position" search of the navigator, and the component
 * whose state the table's controls replace.
 */
module VariantsInGene {
  import opened Wrappers
  import opened Strings
  import opened JsValues
  import opened Seqs
  import opened Sorting
  import opened Columns
  import opened VariantTableColumns
  import opened VariantFilterControls
  import opened VariantDecoder
  import opened VariantSelection

  // ---------------------------------------------------------------------
  // Category step

  /** `filter.includeCategories[variant.consequenceCategory]` */
  predicate InCategories(ic: IncludeCategories, v: Value) {
    var c := Field(v, "consequenceCategory");
    c.Str? && CategoryNamed(c.s).Some? && Includes(ic, CategoryNamed(c.s).value)
  }

  function KeepCategories(ic: IncludeCategories): Value -> bool {
    v => InCategories(ic, v)
  }

  /** The category step: skipped when every category is selected. */
  function CategoryStep(variants: seq<Value>, ic: IncludeCategories): seq<Value> {
    if AllIncluded(ic) then variants else Filter(variants, KeepCategories(ic))
  }

  /** A variant whose `consequenceCategory` is one of the four categories, as the decoder makes it. */
  predicate HasKnownCategory(v: Value) {
    var c := Field(v, "consequenceCategory");
    c.Str? && CategoryNamed(c.s).Some?
  }

  /**
   * A variant survives the category step iff every category is selected or its
   * own category is; on variants with a known category, skipping the step when
   * all are selected changes nothing.
   */
  lemma CategoryStepKeeps(variants: seq<Value>, ic: IncludeCategories)
    ensures forall x :: x in CategoryStep(variants, ic) <==> x in variants && (AllIncluded(ic) || InCategories(ic, x))
    ensures (forall i | 0 <= i < |variants| :: HasKnownCategory(variants[i])) ==>
              CategoryStep(variants, ic) == Filter(variants, KeepCategories(ic))
  {
    forall x ensures x in CategoryStep(variants, ic) <==> x in variants && (AllIncluded(ic) || InCategories(ic, x)) {
      FilterMembership(variants, KeepCategories(ic), x);
    }
    if (forall i | 0 <= i < |variants| :: HasKnownCategory(variants[i])) && AllIncluded(ic) {
      AllIncludedMeansEvery(ic);
      forall x | x in variants ensures KeepCategories(ic)(x) {
        var i :| 0 <= i < |variants| && variants[i] == x;
        assert HasKnownCategory(variants[i]);
      }
      FilterAll(variants, KeepCategories(ic));
    }
  }

  // ---------------------------------------------------------------------
  // Search step

  const NotAFunction := "TypeError: toLowerCase is not a function"

  /** `x.toLowerCase()`: only strings have it. */
  function LowerCase(x: Value): (r: Result<string, string>)
    ensures r.Ok? <==> x.Str?
  {
    if x.Str? then Ok(ToLower(x.s))
    else if IsNullish(x) then Err(NullPropertyRead)
    else Err(NotAFunction)
  }

  /** `x.toLowerCase().includes(query)` */
  function LowerIncludes(x: Value, query: string): Result<bool, string> {
    match LowerCase(x)
    case Err(e) => Err(e)
    case Ok(t) => Ok(Contains(t, query))
  }

  /** `(v.k || '')` */
  function OrEmpty(v: Value, k: string): Value {
    Or(Field(v, k), Str(""))
  }

  /**
   * The search callback: `variant_id`, then `consequence`, `hgvsc` and `hgvsp`
   * read with `|| ''`, each lowercased and searched for the query; `||` stops
   * at the first match, so a later field is not read after a match.
   */
  function SearchTest(query: string, v: Value): (r: Result<bool, string>)
    ensures !Field(v, "variant_id").Str? ==> r.Err?
  {
    match LowerIncludes(Field(v, "variant_id"), query)
    case Err(e) => Err(e)
    case Ok(true) => Ok(true)
    case Ok(false) =>
      match LowerIncludes(OrEmpty(v, "consequence"), query)
      case Err(e) => Err(e)
      case Ok(true) => Ok(true)
      case Ok(false) =>
        match LowerIncludes(OrEmpty(v, "hgvsc"), query)
        case Err(e) => Err(e)
        case Ok(true) => Ok(true)
        case Ok(false) => LowerIncludes(OrEmpty(v, "hgvsp"), query)
  }

  function SearchCallback(query: string): Value -> Result<bool, string> {
    v => SearchTest(query, v)
  }

  /** A row the search reads without throwing: a string `variant_id`, and text or nothing in the other three fields. */
  predicate Searchable(v: Value) {
    Field(v, "variant_id").Str? && OptionalText(v, "consequence") && OptionalText(v, "hgvsc") && OptionalText(v, "hgvsp")
  }

  /** A row matches a (lowercase) query when one of its four fields, lowercased, contains it. */
  predicate MatchesSearch(query: string, v: Value) {
    Contains(ToLower(TextOf(v, "variant_id")), query) ||
    Contains(ToLower(TextOf(v, "consequence")), query) ||
    Contains(ToLower(TextOf(v, "hgvsc")), query) ||
    Contains(ToLower(TextOf(v, "hgvsp")), query)
  }

  lemma OrEmptyText(v: Value, k: string)
    requires OptionalText(v, k)
    ensures OrEmpty(v, k) == Str(TextOf(v, k))
  {
  }

  /** On a searchable row the callback does not throw and answers whether the row matches. */
  lemma SearchTestMatches(query: string, v: Value)
    requires Searchable(v)
    ensures SearchTest(query, v) == Ok(MatchesSearch(query, v))
  {
    OrEmptyText(v, "consequence");
    OrEmptyText(v, "hgvsc");
    OrEmptyText(v, "hgvsp");
  }

  // ---------------------------------------------------------------------
  // The whole filter

  /** A browser's `variantCustomFilter`: its `applyFilter` and its `defaultFilter`. */
  datatype CustomFilter = CustomFilter(
    applyFilter: (seq<Value>, CustomFilterState) -> Result<seq<Value>, string>,
    defaultFilter: CustomFilterState)

  /** `filterVariants`: the category step, then the search, then the browser's custom filter. */
  function FilterVariants(variants: seq<Value>, filter: VariantFilter, custom: Option<CustomFilter>): (r: Result<seq<Value>, string>)
    ensures custom.None? && filter.searchText == "" ==> r == Ok(CategoryStep(variants, filter.includeCategories))
  {
    var byCategory := CategoryStep(variants, filter.includeCategories);
    var bySearch :=
      if filter.searchText != "" then FilterChecked(byCategory, SearchCallback(ToLower(filter.searchText)))
      else Ok(byCategory);
    match bySearch
    case Err(e) => Err(e)
    case Ok(vs) => if custom.Some? then custom.value.applyFilter(vs, filter.custom) else Ok(vs)
  }

  /** The rows the built-in steps keep: in a selected category, and matching the search text if there is one. */
  predicate Shown(filter: VariantFilter, v: Value) {
    InCategories(filter.includeCategories, v) &&
    (filter.searchText == "" || MatchesSearch(ToLower(filter.searchText), v))
  }

  function ShownBy(filter: VariantFilter): Value -> bool {
    v => Shown(filter, v)
  }

  function SearchHit(searchText: string): Value -> bool {
    v => searchText == "" || MatchesSearch(ToLower(searchText), v)
  }

  /**
   * On decoded rows the built-in steps do not throw: they keep exactly the
   * rows `Shown` by the filter, in input order, and the custom filter then
   * runs on what they kept.
   */
  lemma FilterVariantsKeeps(variants: seq<Value>, filter: VariantFilter, custom: Option<CustomFilter>)
    requires forall i | 0 <= i < |variants| :: HasKnownCategory(variants[i]) && Searchable(variants[i])
    ensures var shown := Filter(variants, ShownBy(filter));
            FilterVariants(variants, filter, custom) ==
              if custom.None? then Ok(shown) else custom.value.applyFilter(shown, filter.custom)
  {
    var ic := filter.includeCategories;
    CategoryStepKeeps(variants, ic);
    var byCategory := Filter(variants, KeepCategories(ic));
    forall i | 0 <= i < |byCategory| ensures Searchable(byCategory[i]) {
      assert byCategory[i] in variants;
    }
    SearchStepKeeps(byCategory, filter.searchText);
    FilterFilter(variants, KeepCategories(ic), SearchHit(filter.searchText), ShownBy(filter));
  }

  /** On searchable rows the search step throws nothing and keeps the rows that match. */
  lemma SearchStepKeeps(rows: seq<Value>, searchText: string)
    requires forall i | 0 <= i < |rows| :: Searchable(rows[i])
    ensures (if searchText != "" then FilterChecked(rows, SearchCallback(ToLower(searchText))) else Ok(rows)) ==
              Ok(Filter(rows, SearchHit(searchText)))
  {
    if searchText != "" {
      var query := ToLower(searchText);
      forall i | 0 <= i < |rows| ensures SearchCallback(query)(rows[i]) == Ok(SearchHit(searchText)(rows[i])) {
        SearchTestMatches(query, rows[i]);
      }
      FilterCheckedKeeps(rows, SearchCallback(query), SearchHit(searchText));
    } else {
      FilterAll(rows, SearchHit(searchText));
    }
  }

  /** A search on a row whose `variant_id` is not a string throws, and so does the whole filter. */
  lemma SearchNeedsVariantId(variants: seq<Value>, filter: VariantFilter, custom: Option<CustomFilter>)
    requires filter.searchText != "" && AllIncluded(filter.includeCategories)
    requires exists i | 0 <= i < |variants| :: !Field(variants[i], "variant_id").Str?
    ensures FilterVariants(variants, filter, custom).Err?
  {
    var i :| 0 <= i < |variants| && !Field(variants[i], "variant_id").Str?;
    assert !SearchCallback(ToLower(filter.searchText))(variants[i]).Ok?;
  }

  // ---------------------------------------------------------------------
  // Sorting

  datatype SortOrder = Ascending | Descending

  /** The values the sort puts last: `undefined`, `null` and `''`. */
  predicate EmptySortValue(x: Value) {
    x.Undefined? || x.Null? || x == Str("")
  }

  /** `get(row, column.sortKey)`; a column without sort metadata reads `undefined`. */
  function SortValue(column: TableColumn, row: Value): Value {
    if column.sortBy.Some? then Get(row, column.sortBy.value.sortKey) else Undefined
  }

  /** The comparator `sortVariants` hands to `sort`. */
  function CompareRows(column: TableColumn, order: SortOrder, a: Value, b: Value): int {
    var x := SortValue(column, a);
    var y := SortValue(column, b);
    if EmptySortValue(x) then 1
    else if EmptySortValue(y) then -1
    else if order == Ascending then Compare(column.sortBy.value.sortFunction, x, y)
    else Compare(column.sortBy.value.sortFunction, y, x)
  }

  function RowComparator(column: TableColumn, order: SortOrder): Comparator<Value> {
    (a, b) => CompareRows(column, order, a, b)
  }

  function EmptyAt(column: TableColumn): Value -> bool {
    v => EmptySortValue(SortValue(column, v))
  }

  /** `sortVariants`: a sorted copy; looking up a key no column has throws. */
  function SortVariants(columns: seq<TableColumn>, variants: seq<Value>, sortKey: string, order: SortOrder): (r: Result<seq<Value>, string>)
    ensures r.Ok? <==> exists c | c in columns :: c.key == sortKey
  {
    match FindColumn(columns, sortKey)
    case None => Err(NullPropertyRead)
    case Some(column) => Ok(InsertionSort(variants, RowComparator(column, order)))
  }

  /** The sort returns the same rows, rearranged. */
  lemma SortVariantsPermutes(columns: seq<TableColumn>, variants: seq<Value>, sortKey: string, order: SortOrder)
    requires SortVariants(columns, variants, sortKey, order).Ok?
    ensures multiset(SortVariants(columns, variants, sortKey, order).value) == multiset(variants)
  {
    SortPermutation(variants, RowComparator(FindColumn(columns, sortKey).value, order));
  }

  /**
   * In both directions every row with an empty sort value comes after every
   * row with a non-empty one, and the empty rows keep their input order.
   */
  lemma SortVariantsEmptiesLast(columns: seq<TableColumn>, variants: seq<Value>, sortKey: string, order: SortOrder)
    requires SortVariants(columns, variants, sortKey, order).Ok?
    ensures var column := FindColumn(columns, sortKey).value;
            var r := SortVariants(columns, variants, sortKey, order).value;
            PartitionedBy(r, EmptyAt(column)) && Filter(r, EmptyAt(column)) == Filter(variants, EmptyAt(column))
  {
    var column := FindColumn(columns, sortKey).value;
    var cmp := RowComparator(column, order);
    assert PutsLast(variants, cmp, EmptyAt(column));
    SortPartitioned(variants, cmp, EmptyAt(column));
    SortKeepsOrderOf(variants, cmp, EmptyAt(column));
  }

  /** A value the comparator orders consistently: a number for `a - b`, a string for `localeCompare`. */
  predicate Comparable(f: SortFunction, x: Value) {
    match f
    case Subtract => ToNumber(x).Some?
    case LocaleCompareFn => x.Str?
  }

  lemma CompareOrders(f: SortFunction, x: Value, y: Value, z: Value)
    requires Comparable(f, x) && Comparable(f, y) && Comparable(f, z)
    ensures Compare(f, x, y) < 0 ==> Compare(f, y, x) >= 0
    ensures Compare(f, x, y) >= 0 && Compare(f, y, z) >= 0 ==> Compare(f, x, z) >= 0
  {
    if f == LocaleCompareFn {
      LocaleCompareAntisymmetric(x.s, y.s);
      LocaleCompareTransitive(x.s, y.s, z.s);
    }
  }

  /** Rows whose sort values are empty or comparable. */
  predicate SortableRows(column: TableColumn, rows: seq<Value>) {
    forall i | 0 <= i < |rows| ::
      EmptySortValue(SortValue(column, rows[i])) ||
      (column.sortBy.Some? && Comparable(column.sortBy.value.sortFunction, SortValue(column, rows[i])))
  }

  predicate SortableRow(column: TableColumn, row: Value) {
    EmptySortValue(SortValue(column, row)) ||
    (column.sortBy.Some? && Comparable(column.sortBy.value.sortFunction, SortValue(column, row)))
  }

  lemma CompareRowsOrders(column: TableColumn, order: SortOrder, a: Value, b: Value, c: Value)
    requires SortableRow(column, a) && SortableRow(column, b) && SortableRow(column, c)
    ensures CompareRows(column, order, a, b) < 0 ==> CompareRows(column, order, b, a) >= 0
    ensures CompareRows(column, order, a, b) >= 0 && CompareRows(column, order, b, c) >= 0 ==> CompareRows(column, order, a, c) >= 0
  {
    var x, y, z := SortValue(column, a), SortValue(column, b), SortValue(column, c);
    if !EmptySortValue(x) && !EmptySortValue(y) && !EmptySortValue(z) {
      var f := column.sortBy.value.sortFunction;
      CompareOrders(f, x, y, z);
      CompareOrders(f, z, y, x);
      CompareOrders(f, y, x, z);
    } else if !EmptySortValue(x) && !EmptySortValue(y) {
      var f := column.sortBy.value.sortFunction;
      CompareOrders(f, x, y, x);
    }
  }

  /** On sortable rows the comparator is a strict weak order, whichever the direction. */
  lemma RowsStrictWeak(column: TableColumn, order: SortOrder, rows: seq<Value>)
    requires SortableRows(column, rows)
    ensures StrictWeakOn(rows, RowComparator(column, order))
  {
    forall i, j, k | 0 <= i < |rows| && 0 <= j < |rows| && 0 <= k < |rows|
      ensures OrderedTriple(RowComparator(column, order), rows[i], rows[j], rows[k])
    {
      assert SortableRow(column, rows[i]) && SortableRow(column, rows[j]) && SortableRow(column, rows[k]);
      CompareRowsOrders(column, order, rows[i], rows[j], rows[k]);
    }
    StrictWeakByTriples(rows, RowComparator(column, order));
  }

  /**
   * When the non-empty sort values are comparable, the rows with one come out
   * in order: non-decreasing for ascending, non-increasing for descending.
   */
  lemma SortVariantsOrders(columns: seq<TableColumn>, variants: seq<Value>, sortKey: string, order: SortOrder)
    requires SortVariants(columns, variants, sortKey, order).Ok?
    requires SortableRows(FindColumn(columns, sortKey).value, variants)
    ensures var column := FindColumn(columns, sortKey).value;
            var r := SortVariants(columns, variants, sortKey, order).value;
            forall i, j | 0 <= i < j < |r| && !EmptySortValue(SortValue(column, r[i])) && !EmptySortValue(SortValue(column, r[j])) ::
              column.sortBy.Some? &&
              if order == Ascending then Compare(column.sortBy.value.sortFunction, SortValue(column, r[j]), SortValue(column, r[i])) >= 0
              else Compare(column.sortBy.value.sortFunction, SortValue(column, r[i]), SortValue(column, r[j])) >= 0
  {
    var column := FindColumn(columns, sortKey).value;
    RowsStrictWeak(column, order, variants);
    SortSorted(variants, RowComparator(column, order));
  }

  // ---------------------------------------------------------------------
  // Sort requests

  function Flipped(order: SortOrder): SortOrder {
    if order == Ascending then Descending else Ascending
  }

  /** The direction `onSort` picks: the other one for the active key, descending for a new key. */
  function NextSortOrder(sortKey: string, sortOrder: SortOrder, newSortKey: string): (r: SortOrder)
    ensures newSortKey == sortKey ==> r != sortOrder
    ensures newSortKey != sortKey ==> r == Descending
  {
    if newSortKey == sortKey then Flipped(sortOrder) else Descending
  }

  /** Requesting the active key twice restores the direction; a new key always starts descending. */
  lemma NextSortOrderToggles(sortKey: string, sortOrder: SortOrder, newSortKey: string)
    ensures newSortKey == sortKey ==> NextSortOrder(newSortKey, NextSortOrder(sortKey, sortOrder, newSortKey), newSortKey) == sortOrder
    ensures newSortKey != sortKey ==> NextSortOrder(sortKey, sortOrder, newSortKey) == Descending
    ensures NextSortOrder(sortKey, sortOrder, newSortKey) != sortOrder <==> newSortKey == sortKey || sortOrder == Ascending
  {
  }

  // ---------------------------------------------------------------------
  // Jump to position

  /** `v.pos` read as a number by `<`, `>=` and `<=`. */
  function PositionOf(v: Value): Option<real> {
    ToNumber(Field(v, "pos"))
  }

  /** `sortedVariants[i + 1] && position >= variant.pos && position <= sortedVariants[i + 1].pos` */
  predicate Brackets(vs: seq<Value>, i: nat, position: real)
    requires i < |vs|
  {
    i + 1 < |vs| && Truthy(vs[i + 1]) &&
    PositionOf(vs[i]).Some? && position >= PositionOf(vs[i]).value &&
    PositionOf(vs[i + 1]).Some? && position <= PositionOf(vs[i + 1]).value
  }

  /** `findIndex` from `from` on. */
  function FirstBracket(vs: seq<Value>, position: real, from: nat): (r: Option<nat>)
    requires from <= |vs|
    ensures r.Some? ==> from <= r.value < |vs| && Brackets(vs, r.value, position) &&
                        forall j | from <= j < r.value :: !Brackets(vs, j, position)
    ensures r.None? ==> forall j | from <= j < |vs| :: !Brackets(vs, j, position)
    decreases |vs| - from
  {
    if from == |vs| then None
    else if Brackets(vs, from, position) then Some(from)
    else FirstBracket(vs, position, from + 1)
  }

  /** The row the navigator jumps to in the rows sorted by position. */
  function JumpIndex(vs: seq<Value>, position: real): (index: nat)
    ensures index == 0 || index < |vs|
  {
    if vs == [] || (PositionOf(vs[0]).Some? && position < PositionOf(vs[0]).value) then 0
    else
      match FirstBracket(vs, position, 0)
      case Some(i) => i
      case None => |vs| - 1
  }

  /** A row with a numeric `pos`. */
  predicate Positioned(v: Value) {
    v.Obj? && "pos" in v.fields && v.fields["pos"].Num?
  }

  function Pos(v: Value): real
    requires Positioned(v)
  {
    v.fields["pos"].x
  }

  predicate AllPositioned(vs: seq<Value>) {
    forall i | 0 <= i < |vs| :: Positioned(vs[i])
  }

  predicate PositionsAscending(vs: seq<Value>)
    requires AllPositioned(vs)
  {
    forall i, j | 0 <= i < j < |vs| :: Pos(vs[i]) <= Pos(vs[j])
  }

  lemma {:induction false} BracketExists(vs: seq<Value>, position: real, from: nat)
    requires AllPositioned(vs) && PositionsAscending(vs)
    requires from + 1 < |vs| && Pos(vs[from]) <= position <= Pos(vs[|vs| - 1])
    ensures exists j | from <= j < |vs| :: Brackets(vs, j, position)
    decreases |vs| - from
  {
    if position <= Pos(vs[from + 1]) {
      assert Brackets(vs, from, position);
    } else {
      BracketExists(vs, position, from + 1);
    }
  }

  /**
   * On rows sorted by position: before the first row the index is 0; between
   * the first and the last it is the first row whose position and the next
   * one's bracket the clicked position; past the last row it is the last index.
   */
  lemma JumpIndexBrackets(vs: seq<Value>, position: real)
    requires AllPositioned(vs) && PositionsAscending(vs)
    ensures var i := JumpIndex(vs, position);
            (vs == [] || position < Pos(vs[0]) ==> i == 0) &&
            (|vs| > 1 && Pos(vs[0]) <= position <= Pos(vs[|vs| - 1]) ==>
               i + 1 < |vs| && Pos(vs[i]) <= position <= Pos(vs[i + 1]) &&
               forall j | 0 <= j < i :: !(Pos(vs[j]) <= position <= Pos(vs[j + 1]))) &&
            (vs != [] && position > Pos(vs[|vs| - 1]) ==> i == |vs| - 1)
  {
    if vs != [] {
      var first := FirstBracket(vs, position, 0);
      if |vs| > 1 && Pos(vs[0]) <= position <= Pos(vs[|vs| - 1]) {
        BracketExists(vs, position, 0);
        var i := first.value;
        forall j | 0 <= j < i ensures !(Pos(vs[j]) <= position <= Pos(vs[j + 1])) {
          assert !Brackets(vs, j, position);
        }
      }
      if position > Pos(vs[|vs| - 1]) {
        assert Pos(vs[0]) <= Pos(vs[|vs| - 1]);
        forall j | 0 <= j < |vs| ensures !Brackets(vs, j, position) {
          if j + 1 < |vs| {
            assert Pos(vs[j + 1]) <= Pos(vs[|vs| - 1]);
          }
        }
      }
    }
  }

  /** The Variant ID column sorts by the numeric `pos` read straight from the row. */
  lemma VariantIdSortValue(row: Value)
    requires Positioned(row)
    ensures BaseColumns[0].sortBy == Some(SortBy("pos", Subtract))
    ensures SortValue(BaseColumns[0], row) == row.fields["pos"]
  {
  }

  lemma PositionedSortable(rows: seq<Value>)
    requires AllPositioned(rows)
    ensures SortableRows(BaseColumns[0], rows)
  {
    forall i | 0 <= i < |rows| ensures SortableRow(BaseColumns[0], rows[i]) {
      VariantIdSortValue(rows[i]);
    }
  }

  lemma SortedByPosition(r: seq<Value>)
    requires AllPositioned(r) && SortedBy(r, RowComparator(BaseColumns[0], Ascending))
    ensures PositionsAscending(r)
  {
    forall i, j | 0 <= i < j < |r| ensures Pos(r[i]) <= Pos(r[j]) {
      assert CompareRows(BaseColumns[0], Ascending, r[j], r[i]) >= 0;
      VariantIdSortValue(r[i]);
      VariantIdSortValue(r[j]);
    }
  }

  /** Sorting by Variant ID orders rows with a numeric `pos` by that position. */
  lemma SortByVariantIdOrdersPositions(rows: seq<Value>)
    requires AllPositioned(rows)
    ensures var r := InsertionSort(rows, RowComparator(BaseColumns[0], Ascending));
            AllPositioned(r) && PositionsAscending(r)
  {
    var cmp := RowComparator(BaseColumns[0], Ascending);
    PositionedSortable(rows);
    RowsStrictWeak(BaseColumns[0], Ascending, rows);
    SortSorted(rows, cmp);
    SortPermutation(rows, cmp);
    var r := InsertionSort(rows, cmp);
    forall i | 0 <= i < |r| ensures Positioned(r[i]) {
      assert r[i] in multiset(rows);
    }
    SortedByPosition(r);
  }

  // ---------------------------------------------------------------------
  // The component

  /** The rows before sorting: the group's variants, filtered. */
  function SelectAndFilter(variants: seq<Value>, custom: Option<CustomFilter>, group: string, filter: VariantFilter): Result<seq<Value>, string>
    requires forall i | 0 <= i < |variants| :: Decoded(variants[i])
  {
    FilterVariants(SelectGroupResult(variants, group), filter, custom)
  }

  /** The custom filter state the table starts with; a browser without a custom filter never reads it. */
  function DefaultCustom(custom: Option<CustomFilter>): CustomFilterState {
    if custom.Some? then custom.value.defaultFilter else CustomFilterState(false, false)
  }

  /** The state of the variant table that its controls replace. */
  class VariantsInGenePage {
    const variants: seq<Value>
    const tableColumns: seq<TableColumn>
    const customFilter: Option<CustomFilter>
    var filter: VariantFilter
    var renderedVariants: seq<Value>
    var sortKey: string
    var sortOrder: SortOrder
    var rowIndexLastClickedInNavigator: nat
    var selectedAnalysisGroup: string

    /**
     * The decoded variants come from the decoder; the sort key names a column;
     * the rows on screen are the selected group's variants after the current
     * filter, in some order.
     */
    ghost predicate Valid()
      reads this
    {
      (forall i | 0 <= i < |variants| :: Decoded(variants[i])) &&
      FindColumn(tableColumns, "variant_id") == Some(BaseColumns[0]) &&
      FindColumn(tableColumns, sortKey).Some? &&
      SelectAndFilter(variants, customFilter, selectedAnalysisGroup, filter).Ok? &&
      multiset(renderedVariants) == multiset(SelectAndFilter(variants, customFilter, selectedAnalysisGroup, filter).value)
    }

    /**
     * The constructor: every category, no search text and the browser's default
     * custom filter, sorted by Variant ID ascending. It completes when the
     * default custom filter does not throw on the default group.
     */
    constructor(variants: seq<Value>, resultColumns: seq<ResultColumn>, customFilter: Option<CustomFilter>, defaultGroup: string)
      requires forall i | 0 <= i < |variants| :: Decoded(variants[i])
      requires SelectAndFilter(variants, customFilter, defaultGroup, DefaultFilter(DefaultCustom(customFilter))).Ok?
      ensures Valid()
      ensures this.variants == variants && this.customFilter == customFilter
      ensures tableColumns == GetVariantTableColumns(ShownOnGenePage(resultColumns))
      ensures filter == DefaultFilter(DefaultCustom(customFilter))
      ensures sortKey == "variant_id" && sortOrder == Ascending
      ensures rowIndexLastClickedInNavigator == 0 && selectedAnalysisGroup == defaultGroup
      ensures renderedVariants ==
                InsertionSort(SelectAndFilter(variants, customFilter, defaultGroup, DefaultFilter(DefaultCustom(customFilter))).value,
                              RowComparator(BaseColumns[0], Ascending))
    {
      var columns := GetVariantTableColumns(ShownOnGenePage(resultColumns));
      VariantIdSortsByPosition(ShownOnGenePage(resultColumns));
      var defaultFilter := DefaultFilter(DefaultCustom(customFilter));
      var staged := SelectAndFilter(variants, customFilter, defaultGroup, defaultFilter).value;
      SortPermutation(staged, RowComparator(BaseColumns[0], Ascending));
      this.variants := variants;
      this.tableColumns := columns;
      this.customFilter := customFilter;
      this.filter := defaultFilter;
      this.renderedVariants := InsertionSort(staged, RowComparator(BaseColumns[0], Ascending));
      this.sortKey := "variant_id";
      this.sortOrder := Ascending;
      this.rowIndexLastClickedInNavigator := 0;
      this.selectedAnalysisGroup := defaultGroup;
    }

    /**
     * `onChangeAnalysisGroup`: the new group's variants, filtered and sorted
     * as before. When the filter throws, the state stays as it was.
     */
    method OnChangeAnalysisGroup(group: string) returns (thrown: Option<string>)
      requires Valid()
      modifies this
      ensures Valid()
      ensures var staged := SelectAndFilter(variants, customFilter, group, old(filter));
              if staged.Err? then thrown == Some(staged.error) && unchanged(this)
              else
                thrown.None? && selectedAnalysisGroup == group &&
                renderedVariants == SortVariants(tableColumns, staged.value, old(sortKey), old(sortOrder)).value &&
                filter == old(filter) && sortKey == old(sortKey) && sortOrder == old(sortOrder) &&
                rowIndexLastClickedInNavigator == old(rowIndexLastClickedInNavigator)
    {
      var staged := SelectAndFilter(variants, customFilter, group, filter);
      if staged.Err? {
        return Some(staged.error);
      }
      SortVariantsPermutes(tableColumns, staged.value, sortKey, sortOrder);
      renderedVariants := SortVariants(tableColumns, staged.value, sortKey, sortOrder).value;
      selectedAnalysisGroup := group;
      thrown := None;
    }

    /** `onChangeFilter`: the group's variants under the new filter, sorted as before. */
    method OnChangeFilter(newFilter: VariantFilter) returns (thrown: Option<string>)
      requires Valid()
      modifies this
      ensures Valid()
      ensures var staged := SelectAndFilter(variants, customFilter, old(selectedAnalysisGroup), newFilter);
              if staged.Err? then thrown == Some(staged.error) && unchanged(this)
              else
                thrown.None? && filter == newFilter &&
                renderedVariants == SortVariants(tableColumns, staged.value, old(sortKey), old(sortOrder)).value &&
                selectedAnalysisGroup == old(selectedAnalysisGroup) && sortKey == old(sortKey) && sortOrder == old(sortOrder) &&
                rowIndexLastClickedInNavigator == old(rowIndexLastClickedInNavigator)
    {
      var staged := SelectAndFilter(variants, customFilter, selectedAnalysisGroup, newFilter);
      if staged.Err? {
        return Some(staged.error);
      }
      SortVariantsPermutes(tableColumns, staged.value, sortKey, sortOrder);
      renderedVariants := SortVariants(tableColumns, staged.value, sortKey, sortOrder).value;
      filter := newFilter;
      thrown := None;
    }

    /**
     * `onSort`: re-sorts the rows on screen, so the same rows stay on screen.
     * A key no column has throws and leaves the state as it was.
     */
    method OnSort(newSortKey: string) returns (thrown: Option<string>)
      requires Valid()
      modifies this
      ensures Valid()
      ensures var order := NextSortOrder(old(sortKey), old(sortOrder), newSortKey);
              var sorted := SortVariants(tableColumns, old(renderedVariants), newSortKey, order);
              if sorted.Err? then thrown == Some(sorted.error) && unchanged(this)
              else
                thrown.None? && renderedVariants == sorted.value && sortKey == newSortKey && sortOrder == order &&
                multiset(renderedVariants) == multiset(old(renderedVariants)) &&
                filter == old(filter) && selectedAnalysisGroup == old(selectedAnalysisGroup) &&
                rowIndexLastClickedInNavigator == old(rowIndexLastClickedInNavigator)
    {
      var order := NextSortOrder(sortKey, sortOrder, newSortKey);
      var sorted := SortVariants(tableColumns, renderedVariants, newSortKey, order);
      if sorted.Err? {
        return Some(sorted.error);
      }
      SortVariantsPermutes(tableColumns, renderedVariants, newSortKey, order);
      renderedVariants := sorted.value;
      sortKey := newSortKey;
      sortOrder := order;
      thrown := None;
    }

    /**
     * `onClickPosition`: sorts the rows by Variant ID ascending and remembers
     * the row the navigator jumps to.
     */
    method OnClickPosition(position: real)
      requires Valid()
      modifies this
      ensures Valid()
      ensures renderedVariants == InsertionSort(old(renderedVariants), RowComparator(BaseColumns[0], Ascending))
      ensures rowIndexLastClickedInNavigator == JumpIndex(renderedVariants, position)
      ensures rowIndexLastClickedInNavigator == 0 || rowIndexLastClickedInNavigator < |renderedVariants|
      ensures sortKey == "variant_id" && sortOrder == Ascending
      ensures filter == old(filter) && selectedAnalysisGroup == old(selectedAnalysisGroup)
    {
      var sorted := SortVariants(tableColumns, renderedVariants, "variant_id", Ascending);
      SortVariantsPermutes(tableColumns, renderedVariants, "variant_id", Ascending);
      renderedVariants := sorted.value;
      rowIndexLastClickedInNavigator := JumpIndex(sorted.value, position);
      sortKey := "variant_id";
      sortOrder := Ascending;
    }
  }
}
