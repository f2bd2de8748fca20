/**
 * `selectGroupResult` (src/browsers/base/GenePage/VariantsInGene.js): the
 * variant table shows one analysis group at a time, so it keeps the decoded
 * variants that have a result for the group and copies that result into
 * `group_result`.
 */
module VariantSelection {
  import opened JsValues
  import opened Seqs
  import opened VariantDecoder

  /** `v.group_results[group]` of a decoded variant. */
  function GroupResultOf(v: Value, group: string): Value {
    Field(Field(v, "group_results"), group)
  }

  /** `{ ...v, group_result: v.group_results[group] }`; spreading a value that is not an object adds no fields. */
  function WithGroupResult(v: Value, group: string): (r: Value)
    ensures r.Obj? && "group_result" in r.fields && r.fields["group_result"] == GroupResultOf(v, group)
    ensures v.Obj? ==> r.fields.Keys == v.fields.Keys + {"group_result"}
    ensures v.Obj? ==> forall k | k in v.fields && k != "group_result" :: r.fields[k] == v.fields[k]
  {
    match v
    case Obj(m) => Obj(m["group_result" := GroupResultOf(v, group)])
    case _ => Obj(map["group_result" := GroupResultOf(v, group)])
  }

  /** The variants that have a result for `group`. */
  predicate InGroup(v: Value, group: string) {
    Truthy(GroupResultOf(v, group))
  }

  /** A row the variant table works on: an object whose `group_result` is truthy. */
  predicate HasGroupResult(v: Value) {
    v.Obj? && "group_result" in v.fields && Truthy(v.fields["group_result"])
  }

  function SelectGroupResult(variants: seq<Value>, group: string): (r: seq<Value>)
    requires forall i | 0 <= i < |variants| :: Decoded(variants[i])
    ensures |r| == |Filter(variants, v => InGroup(v, group))|
    ensures forall i | 0 <= i < |r| :: HasGroupResult(r[i])
    ensures forall i | 0 <= i < |r| :: r[i] == WithGroupResult(Filter(variants, v => InGroup(v, group))[i], group)
  {
    var kept := Filter(variants, v => InGroup(v, group));
    assert forall i | 0 <= i < |kept| :: InGroup(kept[i], group) by {
      forall i | 0 <= i < |kept| ensures InGroup(kept[i], group) {
        assert kept[i] in kept;
      }
    }
    Map(kept, v => WithGroupResult(v, group))
  }

  /**
   * A row is shown exactly when it comes from a variant with a result for the
   * group, and then it is that variant with the result copied in.
   */
  lemma SelectMembership(variants: seq<Value>, group: string, x: Value)
    requires forall i | 0 <= i < |variants| :: Decoded(variants[i])
    ensures x in SelectGroupResult(variants, group) <==>
              exists v | v in variants :: InGroup(v, group) && x == WithGroupResult(v, group)
  {
    if x in SelectGroupResult(variants, group) {
      SelectedComesFrom(variants, group, x);
    }
    if exists v | v in variants :: InGroup(v, group) && x == WithGroupResult(v, group) {
      var v :| v in variants && InGroup(v, group) && x == WithGroupResult(v, group);
      SelectedFrom(variants, group, v);
    }
  }

  lemma SelectedComesFrom(variants: seq<Value>, group: string, x: Value)
    requires forall i | 0 <= i < |variants| :: Decoded(variants[i])
    requires x in SelectGroupResult(variants, group)
    ensures exists v | v in variants :: InGroup(v, group) && x == WithGroupResult(v, group)
  {
    var kept := Filter(variants, v => InGroup(v, group));
    var r := SelectGroupResult(variants, group);
    var i :| 0 <= i < |r| && r[i] == x;
    assert kept[i] in kept;
    assert kept[i] in variants && InGroup(kept[i], group);
  }

  lemma SelectedFrom(variants: seq<Value>, group: string, v: Value)
    requires forall i | 0 <= i < |variants| :: Decoded(variants[i])
    requires v in variants && InGroup(v, group)
    ensures WithGroupResult(v, group) in SelectGroupResult(variants, group)
  {
    var kept := Filter(variants, u => InGroup(u, group));
    FilterMembership(variants, u => InGroup(u, group), v);
    var i :| 0 <= i < |kept| && kept[i] == v;
    assert SelectGroupResult(variants, group)[i] == WithGroupResult(v, group);
  }

  /** Selection works element by element, so it keeps the input order. */
  lemma SelectConcat(a: seq<Value>, b: seq<Value>, group: string)
    requires forall i | 0 <= i < |a| :: Decoded(a[i])
    requires forall i | 0 <= i < |b| :: Decoded(b[i])
    ensures forall i | 0 <= i < |a + b| :: Decoded((a + b)[i])
    ensures SelectGroupResult(a + b, group) == SelectGroupResult(a, group) + SelectGroupResult(b, group)
  {
    assert forall i | 0 <= i < |a + b| :: Decoded((a + b)[i]) by {
      forall i | 0 <= i < |a + b| ensures Decoded((a + b)[i]) {
        if i >= |a| {
          assert (a + b)[i] == b[i - |a|];
        }
      }
    }
    FilterConcat(a, b, v => InGroup(v, group));
    MapConcat(Filter(a, v => InGroup(v, group)), Filter(b, v => InGroup(v, group)), v => WithGroupResult(v, group));
  }

  /** A row whose `info` is an object, as every decoded variant's is. */
  predicate HasInfo(v: Value) {
    v.Obj? && "info" in v.fields && v.fields["info"].Obj?
  }

  /** Selection keeps each variant's `info`. */
  lemma SelectKeepsInfo(variants: seq<Value>, group: string)
    requires forall i | 0 <= i < |variants| :: Decoded(variants[i])
    ensures forall i | 0 <= i < |SelectGroupResult(variants, group)| :: HasInfo(SelectGroupResult(variants, group)[i])
  {
    var kept := Filter(variants, v => InGroup(v, group));
    forall i | 0 <= i < |kept| ensures HasInfo(WithGroupResult(kept[i], group)) {
      assert kept[i] in kept;
      var j :| 0 <= j < |variants| && variants[j] == kept[i];
      assert Decoded(kept[i]);
    }
  }
}
