/**
 * The variant details panel (src/browsers/base/GenePage/VariantDetails.js):
 * the summary of the default analysis group and the table with one row per
 * analysis group, the default group first and the others ordered by label.
 */
module VariantDetails {
  import opened Wrappers
  import opened JsValues
  import opened Seqs
  import opened Sorting
  import opened VariantSelection

  // ---------------------------------------------------------------------
  // Ordering the analysis groups

  /**
   * `variantAnalysisGroupLabels[g] || g`: the label of a group, computed the
   * same way for the rows of the variant details and for the options of the
   * group menu (VariantFilterControls.js).
   */
  function GroupLabel(labels: map<string, string>, g: string): (r: string)
    ensures g in labels && labels[g] != "" ==> r == labels[g]
    ensures (g !in labels || labels[g] == "") ==> r == g
  {
    if g in labels && labels[g] != "" then labels[g] else g
  }

  /** The comparator of the group rows: the default group before everything, then labels in `localeCompare` order. */
  function CompareGroups(defaultGroup: string, labels: map<string, string>, g1: string, g2: string): int {
    if g1 == defaultGroup then -1
    else if g2 == defaultGroup then 1
    else LocaleCompare(GroupLabel(labels, g1), GroupLabel(labels, g2))
  }

  function GroupComparator(defaultGroup: string, labels: map<string, string>): Comparator<string> {
    (g1, g2) => CompareGroups(defaultGroup, labels, g1, g2)
  }

  function NotDefault(defaultGroup: string): string -> bool {
    g => g != defaultGroup
  }

  /** `Object.keys(variant.group_results).sort(...)` */
  function OrderedGroups(groups: seq<string>, defaultGroup: string, labels: map<string, string>): seq<string> {
    InsertionSort(groups, GroupComparator(defaultGroup, labels))
  }

  predicate DistinctGroups(groups: seq<string>) {
    forall i, j | 0 <= i < j < |groups| :: groups[i] != groups[j]
  }

  /** The sort puts the default group in front of the other groups sorted among themselves. */
  lemma OrderedGroupsSplit(groups: seq<string>, defaultGroup: string, labels: map<string, string>)
    requires DistinctGroups(groups)
    ensures OrderedGroups(groups, defaultGroup, labels) ==
              Present(groups, defaultGroup) +
              InsertionSort(Filter(groups, NotDefault(defaultGroup)), GroupComparator(defaultGroup, labels))
  {
    var cmp := GroupComparator(defaultGroup, labels);
    assert GoesFirst(cmp, defaultGroup) by {
      forall y ensures cmp(defaultGroup, y) < 0 && (y != defaultGroup ==> cmp(y, defaultGroup) >= 0) {
        assert CompareGroups(defaultGroup, labels, defaultGroup, y) == -1;
      }
    }
    SortFirstSplit(groups, cmp, defaultGroup, NotDefault(defaultGroup));
  }

  /** Among groups other than the default the comparator is the label order. */
  lemma CompareOthers(defaultGroup: string, labels: map<string, string>, a: string, b: string, c: string)
    requires a != defaultGroup && b != defaultGroup && c != defaultGroup
    ensures CompareGroups(defaultGroup, labels, a, b) < 0 ==> CompareGroups(defaultGroup, labels, b, a) >= 0
    ensures CompareGroups(defaultGroup, labels, a, b) >= 0 && CompareGroups(defaultGroup, labels, b, c) >= 0 ==>
              CompareGroups(defaultGroup, labels, a, c) >= 0
  {
    LocaleCompareAntisymmetric(GroupLabel(labels, a), GroupLabel(labels, b));
    LocaleCompareTransitive(GroupLabel(labels, a), GroupLabel(labels, b), GroupLabel(labels, c));
  }

  /** ... a strict weak order. */
  lemma OtherGroupsStrictWeak(others: seq<string>, defaultGroup: string, labels: map<string, string>)
    requires forall i | 0 <= i < |others| :: others[i] != defaultGroup
    ensures StrictWeakOn(others, GroupComparator(defaultGroup, labels))
  {
    forall i, j, k | 0 <= i < |others| && 0 <= j < |others| && 0 <= k < |others|
      ensures OrderedTriple(GroupComparator(defaultGroup, labels), others[i], others[j], others[k])
    {
      CompareOthers(defaultGroup, labels, others[i], others[j], others[k]);
    }
    StrictWeakByTriples(others, GroupComparator(defaultGroup, labels));
  }

  /**
   * The analysis-group table lists every group once; the default group's row
   * comes first, and the other rows follow in `localeCompare` order of their labels.
   */
  lemma OrderedGroupsSpec(groups: seq<string>, defaultGroup: string, labels: map<string, string>)
    requires DistinctGroups(groups)
    ensures var r := OrderedGroups(groups, defaultGroup, labels);
            multiset(r) == multiset(groups) &&
            (defaultGroup in groups ==> r[0] == defaultGroup) &&
            forall i, j | 0 <= i < j < |r| && r[i] != defaultGroup && r[j] != defaultGroup ::
              LocaleCompare(GroupLabel(labels, r[i]), GroupLabel(labels, r[j])) <= 0
  {
    var cmp := GroupComparator(defaultGroup, labels);
    SortPermutation(groups, cmp);
    OrderedGroupsSplit(groups, defaultGroup, labels);
    var others := Filter(groups, NotDefault(defaultGroup));
    assert forall i | 0 <= i < |others| :: others[i] != defaultGroup by {
      forall i | 0 <= i < |others| ensures others[i] != defaultGroup {
        assert others[i] in others;
      }
    }
    OtherGroupsStrictWeak(others, defaultGroup, labels);
    SortSorted(others, cmp);
    OthersByLabel(OrderedGroups(groups, defaultGroup, labels), Present(groups, defaultGroup), InsertionSort(others, cmp), defaultGroup, labels);
  }

  /** Behind the default group, a sequence sorted by the comparator is in label order. */
  lemma OthersByLabel(r: seq<string>, head: seq<string>, t: seq<string>, defaultGroup: string, labels: map<string, string>)
    requires r == head + t && |head| <= 1 && (head != [] ==> head[0] == defaultGroup)
    requires SortedBy(t, GroupComparator(defaultGroup, labels))
    ensures forall i, j | 0 <= i < j < |r| && r[i] != defaultGroup && r[j] != defaultGroup ::
              LocaleCompare(GroupLabel(labels, r[i]), GroupLabel(labels, r[j])) <= 0
  {
    forall i, j | 0 <= i < j < |r| && r[i] != defaultGroup && r[j] != defaultGroup
      ensures LocaleCompare(GroupLabel(labels, r[i]), GroupLabel(labels, r[j])) <= 0
    {
      OthersPairByLabel(r, head, t, i, j, defaultGroup, labels);
    }
  }

  lemma OthersPairByLabel(r: seq<string>, head: seq<string>, t: seq<string>, i: nat, j: nat, defaultGroup: string, labels: map<string, string>)
    requires r == head + t && |head| <= 1 && (head != [] ==> head[0] == defaultGroup)
    requires SortedBy(t, GroupComparator(defaultGroup, labels))
    requires i < j < |r| && r[i] != defaultGroup && r[j] != defaultGroup
    ensures LocaleCompare(GroupLabel(labels, r[i]), GroupLabel(labels, r[j])) <= 0
  {
    assert i >= |head|;
    AppendRight(head, t, i);
    AppendRight(head, t, j);
    SortedPairLabels(t, i - |head|, j - |head|, defaultGroup, labels);
  }

  lemma SortedPairLabels(t: seq<string>, i: nat, j: nat, defaultGroup: string, labels: map<string, string>)
    requires SortedBy(t, GroupComparator(defaultGroup, labels))
    requires i < j < |t| && t[i] != defaultGroup && t[j] != defaultGroup
    ensures LocaleCompare(GroupLabel(labels, t[i]), GroupLabel(labels, t[j])) <= 0
  {
    LabelOrder(t[i], t[j], defaultGroup, labels);
  }

  /** Two groups other than the default that the comparator does not swap are in label order. */
  lemma LabelOrder(a: string, b: string, defaultGroup: string, labels: map<string, string>)
    requires a != defaultGroup && b != defaultGroup
    requires GroupComparator(defaultGroup, labels)(b, a) >= 0
    ensures LocaleCompare(GroupLabel(labels, a), GroupLabel(labels, b)) <= 0
  {
    LocaleCompareAntisymmetric(GroupLabel(labels, a), GroupLabel(labels, b));
  }

  // ---------------------------------------------------------------------
  // The rows and the summary

  /** One row of the analysis-group table: its group, its label and the variant it renders. */
  datatype GroupRow = GroupRow(group: string, groupLabel: string, rowVariant: Value)

  /** `{ ...inputVariant, group_result: group_results[defaultVariantAnalysisGroup] }` */
  function DetailVariant(inputVariant: Value, defaultGroup: string): Value {
    WithGroupResult(inputVariant, defaultGroup)
  }

  function RowFor(variant: Value, labels: map<string, string>): string -> GroupRow {
    g => GroupRow(g, GroupLabel(labels, g), WithGroupResult(variant, g))
  }

  /** The table body: the sorted group keys, each with its label and the variant carrying that group's result. */
  function GroupRows(inputVariant: Value, groupKeys: seq<string>, defaultGroup: string, labels: map<string, string>): seq<GroupRow> {
    Map(OrderedGroups(groupKeys, defaultGroup, labels), RowFor(DetailVariant(inputVariant, defaultGroup), labels))
  }

  /**
   * There is exactly one row per key of `group_results`, and each row's
   * `group_result` is that group's own entry.
   */
  lemma GroupRowsOnePerGroup(inputVariant: Value, groupKeys: seq<string>, defaultGroup: string, labels: map<string, string>)
    requires DistinctGroups(groupKeys)
    ensures var rows := GroupRows(inputVariant, groupKeys, defaultGroup, labels);
            |rows| == |groupKeys| &&
            (forall g | g in groupKeys :: exists i | 0 <= i < |rows| :: rows[i].group == g) &&
            (forall i, j | 0 <= i < j < |rows| :: rows[i].group != rows[j].group) &&
            forall i | 0 <= i < |rows| ::
              rows[i].group in groupKeys &&
              rows[i].groupLabel == GroupLabel(labels, rows[i].group) &&
              rows[i].rowVariant.fields["group_result"] == GroupResultOf(inputVariant, rows[i].group)
  {
    var ordered := OrderedGroups(groupKeys, defaultGroup, labels);
    var rows := GroupRows(inputVariant, groupKeys, defaultGroup, labels);
    OrderedGroupsDistinct(groupKeys, defaultGroup, labels);
    forall g | g in groupKeys ensures exists i | 0 <= i < |rows| :: rows[i].group == g {
      var i :| 0 <= i < |ordered| && ordered[i] == g;
      assert rows[i].group == g;
    }
  }

  /** The sorted keys are the keys, each once. */
  lemma OrderedGroupsDistinct(groupKeys: seq<string>, defaultGroup: string, labels: map<string, string>)
    requires DistinctGroups(groupKeys)
    ensures var ordered := OrderedGroups(groupKeys, defaultGroup, labels);
            |ordered| == |groupKeys| &&
            (forall g | g in groupKeys :: exists i | 0 <= i < |ordered| :: ordered[i] == g) &&
            (forall i | 0 <= i < |ordered| :: ordered[i] in groupKeys) &&
            (forall i, j | 0 <= i < j < |ordered| :: ordered[i] != ordered[j])
  {
    var ordered := OrderedGroups(groupKeys, defaultGroup, labels);
    OrderedGroupsSpec(groupKeys, defaultGroup, labels);
    forall g | g in groupKeys ensures exists i | 0 <= i < |ordered| :: ordered[i] == g {
      assert g in multiset(ordered);
    }
    forall i | 0 <= i < |ordered| ensures ordered[i] in groupKeys {
      assert ordered[i] in multiset(groupKeys);
    }
    forall i, j | 0 <= i < j < |ordered| ensures ordered[i] != ordered[j] {
      if ordered[i] == ordered[j] {
        MultisetTwice(ordered, i, j);
        DistinctOnce(groupKeys, ordered[i]);
        assert false;
      }
    }
  }

  lemma MultisetTwice(s: seq<string>, i: nat, j: nat)
    requires i < j < |s| && s[i] == s[j]
    ensures multiset(s)[s[i]] >= 2
  {
    assert s == s[..j] + [s[j]] + s[j + 1..];
    assert s[..j][i] == s[i];
    assert s[i] in multiset(s[..j]);
  }

  lemma {:induction false} DistinctOnce(s: seq<string>, x: string)
    requires DistinctGroups(s)
    ensures multiset(s)[x] <= 1
    decreases |s|
  {
    if s != [] {
      var init := s[..|s| - 1];
      assert DistinctGroups(init);
      assert s == init + [s[|s| - 1]];
      DistinctOnce(init, x);
      if x == s[|s| - 1] {
        assert x !in init;
      }
    }
  }

  /** The summary block shows the default group's result, and is left out when the variant has none. */
  function SummaryGroupResult(inputVariant: Value, defaultGroup: string): (r: Option<Value>)
    ensures r.Some? <==> Truthy(GroupResultOf(inputVariant, defaultGroup))
    ensures r.Some? ==> r.value == DetailVariant(inputVariant, defaultGroup).fields["group_result"]
  {
    var groupResult := GroupResultOf(inputVariant, defaultGroup);
    if Truthy(groupResult) then Some(groupResult) else None
  }

  /** A column cell of the table: `''` for `null`, else the rendering of the value at the column's key. */
  function TableCell(rowVariant: Value, key: string, render: Value -> Result<string, string>): Result<string, string> {
    var value := Get(rowVariant, key);
    if value.Null? then Ok("") else render(value)
  }

  /** A column entry of the summary: nothing for `null`, else the rendering of the value. */
  function SummaryCell(variant: Value, key: string, render: Value -> Result<string, string>): Result<Option<string>, string> {
    var value := Get(variant, key);
    if value.Null? then Ok(None)
    else match render(value)
      case Err(e) => Err(e)
      case Ok(text) => Ok(Some(text))
  }

  /**
   * The table and the summary agree: where the summary shows nothing the
   * table shows `''`, and otherwise both show the same text or throw the same
   * error; a `null` value is never handed to the renderer.
   */
  lemma CellsAgree(variant: Value, key: string, render: Value -> Result<string, string>)
    ensures Get(variant, key).Null? ==> TableCell(variant, key, render) == Ok("") && SummaryCell(variant, key, render) == Ok(None)
    ensures !Get(variant, key).Null? ==> SummaryCell(variant, key, render).Ok? == render(Get(variant, key)).Ok?
    ensures TableCell(variant, key, render) ==
              match SummaryCell(variant, key, render)
              case Err(e) => Err(e)
              case Ok(None) => Ok("")
              case Ok(Some(text)) => Ok(text)
  {
  }
}
