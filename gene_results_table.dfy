/**
 * The gene-results table (src/browsers/base/GeneResultsPage/GeneResultsTable.js):
 * the sort state with its `gene_id` to `gene_symbol` key rewrite, and the
 * null-last sort that reorders the results array in place.
 */
module GeneResultsTable {
  import opened Wrappers
  import opened JsValues
  import opened Seqs
  import opened Sorting
  import opened Columns

  // ---------------------------------------------------------------------
  // Sort state

  /** The table's sort state: a key and a direction. */
  datatype SortState = SortState(sortKey: string, sortAscending: bool)

  /** The initial state: `defaultSortKey` (by default `gene_id`), ascending. */
  function InitialSortState(defaultSortKey: Option<string>): (r: SortState)
    ensures r.sortAscending
    ensures defaultSortKey.None? ==> r.sortKey == "gene_id"
    ensures defaultSortKey.Some? ==> r.sortKey == defaultSortKey.value
  {
    SortState(if defaultSortKey.Some? then defaultSortKey.value else "gene_id", true)
  }

  /** The key the table stores for a request: a request for `gene_id` sorts by `gene_symbol`. */
  function StoredSortKey(requested: string): string {
    if requested == "gene_id" then "gene_symbol" else requested
  }

  /** `setSortKey`: the direction flips when the request names the stored key and is reset otherwise. */
  function NextSortState(state: SortState, requested: string): SortState {
    SortState(StoredSortKey(requested), if requested == state.sortKey then !state.sortAscending else true)
  }

  /** A request for any key but `gene_id` stores that key; the direction flips exactly when it was already stored. */
  lemma NextSortStateToggles(state: SortState, requested: string)
    requires requested != "gene_id"
    ensures NextSortState(state, requested).sortKey == requested
    ensures NextSortState(state, requested).sortAscending == (if requested == state.sortKey then !state.sortAscending else true)
    ensures NextSortState(NextSortState(state, requested), requested).sortAscending == !NextSortState(state, requested).sortAscending
  {
  }

  /**
   * Since `gene_id` is stored as `gene_symbol`, repeated requests for
   * `gene_id` never toggle: from the second request on the table sorts by
   * symbol, ascending.
   */
  lemma GeneIdNeverToggles(state: SortState, n: nat)
    requires n >= 2
    ensures RepeatRequest(state, "gene_id", n) == SortState("gene_symbol", true)
  {
    RepeatGeneIdSettles(state, n);
  }

  /** `n` successive requests for the same key. */
  function RepeatRequest(state: SortState, requested: string, n: nat): SortState
    decreases n
  {
    if n == 0 then state else NextSortState(RepeatRequest(state, requested, n - 1), requested)
  }

  lemma {:induction false} RepeatGeneIdSettles(state: SortState, n: nat)
    requires n >= 1
    ensures RepeatRequest(state, "gene_id", n).sortKey == "gene_symbol"
    ensures n >= 2 ==> RepeatRequest(state, "gene_id", n).sortAscending
    decreases n
  {
    if n >= 2 {
      RepeatGeneIdSettles(state, n - 1);
    }
  }

  // ---------------------------------------------------------------------
  // The comparator

  /** Only `null` and `''` count as empty here; `undefined` is compared like any other value. */
  predicate EmptyResultValue(x: Value) {
    x.Null? || x == Str("")
  }

  /** `localeCompare` for `gene_id` and `gene_name`, `a - b` for every other key, `gene_symbol` included. */
  function SortFunctionFor(sortKey: string): (f: SortFunction)
    ensures f == LocaleCompareFn <==> sortKey == "gene_id" || sortKey == "gene_name"
  {
    if sortKey == "gene_id" || sortKey == "gene_name" then LocaleCompareFn else Subtract
  }

  /** The comparator `getRenderedResults` hands to `sort`. */
  function CompareResults(state: SortState, a: Value, b: Value): int {
    var x := Field(a, state.sortKey);
    var y := Field(b, state.sortKey);
    if EmptyResultValue(x) then 1
    else if EmptyResultValue(y) then -1
    else if state.sortAscending then Compare(SortFunctionFor(state.sortKey), x, y)
    else Compare(SortFunctionFor(state.sortKey), y, x)
  }

  function ResultComparator(state: SortState): Comparator<Value> {
    (a, b) => CompareResults(state, a, b)
  }

  function EmptyResultAt(sortKey: string): Value -> bool {
    v => EmptyResultValue(Field(v, sortKey))
  }

  // ---------------------------------------------------------------------
  // Properties of the sorted results

  /** The sort only rearranges the results. */
  lemma RenderedPermutes(state: SortState, results: seq<Value>)
    ensures multiset(InsertionSort(results, ResultComparator(state))) == multiset(results)
  {
    SortPermutation(results, ResultComparator(state));
  }

  /** In both directions the results with a `null` or `''` value come last, in their original order. */
  lemma RenderedEmptiesLast(state: SortState, results: seq<Value>)
    ensures var r := InsertionSort(results, ResultComparator(state));
            PartitionedBy(r, EmptyResultAt(state.sortKey)) &&
            Filter(r, EmptyResultAt(state.sortKey)) == Filter(results, EmptyResultAt(state.sortKey))
  {
    var cmp := ResultComparator(state);
    var e := EmptyResultAt(state.sortKey);
    assert PutsLast(results, cmp, e);
    SortPartitioned(results, cmp, e);
    SortKeepsOrderOf(results, cmp, e);
  }

  /** A non-empty value the key's comparator can order: a string for `localeCompare`, a number for `a - b`. */
  predicate SortableResult(sortKey: string, v: Value) {
    var x := Field(v, sortKey);
    EmptyResultValue(x) ||
    (if SortFunctionFor(sortKey) == LocaleCompareFn then x.Str? else ToNumber(x).Some?)
  }

  lemma CompareResultsOrders(state: SortState, a: Value, b: Value, c: Value)
    requires SortableResult(state.sortKey, a) && SortableResult(state.sortKey, b) && SortableResult(state.sortKey, c)
    ensures CompareResults(state, a, b) < 0 ==> CompareResults(state, b, a) >= 0
    ensures CompareResults(state, a, b) >= 0 && CompareResults(state, b, c) >= 0 ==> CompareResults(state, a, c) >= 0
  {
    var x, y, z := Field(a, state.sortKey), Field(b, state.sortKey), Field(c, state.sortKey);
    var f := SortFunctionFor(state.sortKey);
    if f == LocaleCompareFn && !EmptyResultValue(x) && !EmptyResultValue(y) {
      LocaleCompareAntisymmetric(x.s, y.s);
      if !EmptyResultValue(z) {
        LocaleCompareAntisymmetric(y.s, z.s);
        LocaleCompareAntisymmetric(x.s, z.s);
        LocaleCompareTransitive(x.s, y.s, z.s);
        LocaleCompareTransitive(z.s, y.s, x.s);
      }
    }
  }

  /**
   * When every value at the key is empty or comparable, the results come
   * out ordered: non-decreasing when ascending, non-increasing when descending.
   */
  lemma RenderedOrdered(state: SortState, results: seq<Value>)
    requires forall i | 0 <= i < |results| :: SortableResult(state.sortKey, results[i])
    ensures var r := InsertionSort(results, ResultComparator(state));
            forall i, j | 0 <= i < j < |r| && !EmptyResultValue(Field(r[i], state.sortKey)) && !EmptyResultValue(Field(r[j], state.sortKey)) ::
              if state.sortAscending then Compare(SortFunctionFor(state.sortKey), Field(r[j], state.sortKey), Field(r[i], state.sortKey)) >= 0
              else Compare(SortFunctionFor(state.sortKey), Field(r[i], state.sortKey), Field(r[j], state.sortKey)) >= 0
  {
    var cmp := ResultComparator(state);
    forall i, j | 0 <= i < |results| && 0 <= j < |results| ensures cmp(results[i], results[j]) < 0 ==> cmp(results[j], results[i]) >= 0 {
      CompareResultsOrders(state, results[i], results[j], results[i]);
    }
    forall i, j, k | 0 <= i < |results| && 0 <= j < |results| && 0 <= k < |results|
      ensures cmp(results[i], results[j]) >= 0 && cmp(results[j], results[k]) >= 0 ==> cmp(results[i], results[k]) >= 0
    {
      CompareResultsOrders(state, results[i], results[j], results[k]);
    }
    SortSorted(results, cmp);
  }

  /**
   * Sorting by `gene_symbol` applies `a - b` to the symbols; on symbols that
   * are not numbers every comparison is `NaN`, so the order is left as it was.
   */
  lemma SymbolSortKeepsOrder(results: seq<Value>, ascending: bool)
    requires forall i | 0 <= i < |results| ::
               !EmptyResultValue(Field(results[i], "gene_symbol")) && ToNumber(Field(results[i], "gene_symbol")).None?
    ensures InsertionSort(results, ResultComparator(SortState("gene_symbol", ascending))) == results
  {
    var cmp := ResultComparator(SortState("gene_symbol", ascending));
    var all: Value -> bool := _ => true;
    forall i, j | 0 <= i < |results| && 0 <= j < |results| && all(results[i]) ensures cmp(results[i], results[j]) >= 0 {
      SymbolsTie(results[i], results[j], ascending);
    }
    SortKeepsOrderOf(results, cmp, all);
    FilterAll(results, all);
    FilterAll(InsertionSort(results, cmp), all);
  }

  /** Two results whose symbols are present but not numbers compare equal under the symbol sort. */
  lemma SymbolsTie(a: Value, b: Value, ascending: bool)
    requires !EmptyResultValue(Field(a, "gene_symbol")) && ToNumber(Field(a, "gene_symbol")).None?
    requires !EmptyResultValue(Field(b, "gene_symbol")) && ToNumber(Field(b, "gene_symbol")).None?
    ensures ResultComparator(SortState("gene_symbol", ascending))(a, b) == 0
  {
    assert CompareResults(SortState("gene_symbol", ascending), a, b) == 0;
  }

  // ---------------------------------------------------------------------
  // The component

  /** The table's state; the results array it is given is sorted in place. */
  class GeneResultsTableComponent {
    var sortKey: string
    var sortAscending: bool

    function State(): SortState
      reads this
    {
      SortState(sortKey, sortAscending)
    }

    constructor(defaultSortKey: Option<string>)
      ensures State() == InitialSortState(defaultSortKey)
    {
      var s := InitialSortState(defaultSortKey);
      sortKey := s.sortKey;
      sortAscending := s.sortAscending;
    }

    /** `setSortKey` */
    method SetSortKey(requested: string)
      modifies this
      ensures State() == NextSortState(old(State()), requested)
    {
      sortAscending := if requested == sortKey then !sortAscending else true;
      sortKey := StoredSortKey(requested);
    }

    /** `getRenderedResults`: `geneResults.sort(...)` reorders the given array and returns it. */
    method GetRenderedResults(geneResults: array<Value>) returns (sorted: array<Value>)
      modifies geneResults
      ensures sorted == geneResults
      ensures geneResults[..] == InsertionSort(old(geneResults[..]), ResultComparator(State()))
    {
      SortInPlace(geneResults, ResultComparator(State()));
      sorted := geneResults;
    }
  }

  /** `Array.prototype.sort`: each element moves left past the elements it goes strictly before. */
  method SortInPlace(a: array<Value>, cmp: Comparator<Value>)
    modifies a
    ensures a[..] == InsertionSort(old(a[..]), cmp)
  {
    ghost var orig := a[..];
    var i := 0;
    while i < a.Length
      invariant 0 <= i <= a.Length
      invariant a[..] == InsertionSort(orig[..i], cmp) + orig[i..]
    {
      SplitAt(InsertionSort(orig[..i], cmp), orig, i);
      InsertLast(a, i, cmp);
      assert orig[..i + 1][..i] == orig[..i];
      i := i + 1;
    }
    assert orig[..a.Length] == orig;
  }

  /** One pass of the sort: `a[i]` moves left into the sorted prefix `a[..i]`. */
  method InsertLast(a: array<Value>, i: nat, cmp: Comparator<Value>)
    requires i < a.Length
    modifies a
    ensures a[..] == Insert(old(a[..i]), old(a[i]), cmp) + old(a[i + 1..])
  {
    ghost var sorted := a[..i];
    ghost var rest := a[i + 1..];
    var x := a[i];
    var j := i;
    while j > 0 && cmp(x, a[j - 1]) < 0
      invariant 0 <= j <= i
      invariant a[..j] == sorted[..j] && a[j + 1..] == sorted[j..] + rest
      invariant Insert(sorted, x, cmp) == Insert(sorted[..j], x, cmp) + sorted[j..]
    {
      InsertStep(sorted, j, x, cmp);
      ghost var before := a[..];
      a[j] := a[j - 1];
      ShiftStep(before, a[..], sorted, rest, j);
      j := j - 1;
    }
    ghost var before := a[..];
    a[j] := x;
    InsertDone(before, a[..], sorted, rest, j, x, cmp);
  }

  /** Before the inner loop the array is the sorted prefix, `x`, and the untouched rest. */
  lemma SplitAt(sorted: seq<Value>, orig: seq<Value>, i: nat)
    requires i < |orig| && |sorted| == i
    ensures var a := sorted + orig[i..];
            a[i] == orig[i] && a[..i] == sorted[..i] && a[i + 1..] == sorted[i..] + orig[i + 1..]
  {
  }

  /** Shifting one element right keeps the array the sorted prefix with a gap that moves left. */
  lemma ShiftStep(before: seq<Value>, after: seq<Value>, sorted: seq<Value>, rest: seq<Value>, j: nat)
    requires 0 < j <= |sorted| && j < |before|
    requires before[..j] == sorted[..j] && before[j + 1..] == sorted[j..] + rest
    requires after == before[j := before[j - 1]]
    ensures after[..j - 1] == sorted[..j - 1] && after[j..] == sorted[j - 1..] + rest
  {
    assert after[..j - 1] == before[..j][..j - 1];
    assert after[j..] == [before[j - 1]] + before[j + 1..];
    assert sorted[j - 1..] == [sorted[j - 1]] + sorted[j..];
  }

  /** Moving past one element that `x` goes strictly before. */
  lemma InsertStep(sorted: seq<Value>, j: nat, x: Value, cmp: Comparator<Value>)
    requires 0 < j <= |sorted| && cmp(x, sorted[j - 1]) < 0
    ensures Insert(sorted[..j], x, cmp) + sorted[j..] == Insert(sorted[..j - 1], x, cmp) + sorted[j - 1..]
  {
    assert sorted[..j][..j - 1] == sorted[..j - 1];
    assert sorted[j - 1..] == [sorted[j - 1]] + sorted[j..];
  }

  /** Dropping `x` into the gap completes the insertion. */
  lemma InsertDone(before: seq<Value>, after: seq<Value>, sorted: seq<Value>, rest: seq<Value>, j: nat, x: Value, cmp: Comparator<Value>)
    requires j <= |sorted| && j < |before|
    requires before[..j] == sorted[..j] && before[j + 1..] == sorted[j..] + rest
    requires after == before[j := x]
    requires j == 0 || cmp(x, before[j - 1]) >= 0
    requires Insert(sorted, x, cmp) == Insert(sorted[..j], x, cmp) + sorted[j..]
    ensures after == Insert(sorted, x, cmp) + rest
  {
    if j > 0 {
      assert before[j - 1] == sorted[j - 1];
    }
    assert Insert(sorted[..j], x, cmp) == sorted[..j] + [x];
    assert after == after[..j] + [after[j]] + after[j + 1..];
  }
}
