/**
 * The decoder of positional variant rows (`VariantsInGeneContainer` in
 * src/browsers/base/GenePage/VariantsInGene.js): each row is read against
 * the field lists the pipeline stored in the dataset metadata, the allele
 * frequencies of every analysis group are derived from its counts, and the
 * consequence term is mapped to its configured category and label.
 */
module VariantDecoder {
  import opened Wrappers
  import opened JsValues
  import opened Consequences
  import Seqs

  // ---------------------------------------------------------------------------
  // The consequence dictionary of the decoder
  // ---------------------------------------------------------------------------

  /** `consequences[term]`: the label (or the term) and the category (or `'other'`). */
  datatype ConsequenceEntry = ConsequenceEntry(labelText: string, category: string)

  function EntryOf(c: ConsequenceConfig): ConsequenceEntry {
    ConsequenceEntry(StringOr(c.labelText, c.term), StringOr(c.category, "other"))
  }

  /** The dictionary after the `forEach` over the configured consequences. */
  function DecoderTable(config: seq<ConsequenceConfig>): map<string, ConsequenceEntry>
    decreases |config|
  {
    if config == [] then map[]
    else DecoderTable(config[..|config| - 1])[config[|config| - 1].term := EntryOf(config[|config| - 1])]
  }

  /** The `forEach` that fills the dictionary. */
  method BuildDecoderTable(config: seq<ConsequenceConfig>) returns (table: map<string, ConsequenceEntry>)
    ensures table == DecoderTable(config)
  {
    table := map[];
    var i := 0;
    while i < |config|
      invariant 0 <= i <= |config|
      invariant table == DecoderTable(config[..i])
    {
      table := table[config[i].term := EntryOf(config[i])];
      assert config[..i + 1][..i] == config[..i];
      i := i + 1;
    }
    assert config[..|config|] == config;
  }

  /** A term is in the dictionary exactly when it is configured, and then the last entry for it wins. */
  lemma {:induction false} DecoderTableLastWins(config: seq<ConsequenceConfig>, term: string)
    ensures term in DecoderTable(config) <==> LastEntry(config, term).Some?
    ensures LastEntry(config, term).Some? ==> DecoderTable(config)[term] == EntryOf(config[LastEntry(config, term).value])
    decreases |config|
  {
    if config != [] {
      DecoderTableLastWins(config[..|config| - 1], term);
    }
  }

  /** When no term is configured twice, every entry is in the dictionary, with its own label and category. */
  lemma DecoderTableDistinct(config: seq<ConsequenceConfig>, i: nat)
    requires forall a, b | 0 <= a < b < |config| :: config[a].term != config[b].term
    requires i < |config|
    ensures config[i].term in DecoderTable(config) && DecoderTable(config)[config[i].term] == EntryOf(config[i])
  {
    DecoderTableLastWins(config, config[i].term);
  }

  /**
   * The decoder's dictionary agrees with the browser-wide lookups: its label
   * is `getLabelForConsequenceTerm` and its category is
   * `getCategoryFromConsequence(term) || 'other'`.
   */
  lemma DecoderAgreesWithLookup(lookup: ConsequenceLookup, term: string)
    requires lookup.Valid()
    requires term in DecoderTable(lookup.config)
    ensures DecoderTable(lookup.config)[term].labelText == lookup.GetLabel(term)
    ensures DecoderTable(lookup.config)[term].category == StringOr(lookup.GetCategory(term), "other")
  {
    DecoderTableLastWins(lookup.config, term);
  }

  // ---------------------------------------------------------------------------
  // Pairing names with positions
  // ---------------------------------------------------------------------------

  /** The metadata lists the decoder reads a row against. */
  datatype VariantSchema = VariantSchema(
    variantFields: seq<string>,
    infoFieldNames: seq<string>,
    analysisGroups: seq<string>,
    groupResultFieldNames: seq<string>)

  /** A property of an object held as a map, `undefined` when absent. */
  function Entry(m: map<string, Value>, k: string): Value {
    if k in m then m[k] else Undefined
  }

  /** `names.forEach((name, k) => { obj[name] = values[k] })` on an empty object. */
  function Pair(names: seq<string>, values: Value): map<string, Value>
    requires !IsNullish(values)
    decreases |names|
  {
    if names == [] then map[]
    else Pair(names[..|names| - 1], values)[names[|names| - 1] := At(values, |names| - 1).value]
  }

  /** The object has exactly the listed names as keys ... */
  lemma {:induction false} PairKeys(names: seq<string>, values: Value, n: string)
    requires !IsNullish(values)
    ensures n in Pair(names, values) <==> n in names
    decreases |names|
  {
    if names != [] {
      PairKeys(names[..|names| - 1], values, n);
      assert names == names[..|names| - 1] + [names[|names| - 1]];
    }
  }

  /** Pairing one more name is one more update of the object being filled. */
  lemma PairExtend(base: map<string, Value>, names: seq<string>, values: Value, k: nat)
    requires !IsNullish(values) && k < |names|
    ensures base + Pair(names[..k + 1], values) == (base + Pair(names[..k], values))[names[k] := At(values, k).value]
  {
    assert names[..k + 1][..k] == names[..k];
  }

  /** ... and a name listed once holds the value at its position. */
  lemma {:induction false} PairValue(names: seq<string>, values: Value, k: nat)
    requires !IsNullish(values) && k < |names|
    requires forall j | k < j < |names| :: names[j] != names[k]
    ensures names[k] in Pair(names, values) && Pair(names, values)[names[k]] == At(values, k).value
    decreases |names|
  {
    if k < |names| - 1 {
      PairValue(names[..|names| - 1], values, k);
    }
  }

  // ---------------------------------------------------------------------------
  // Allele frequencies
  // ---------------------------------------------------------------------------

  /** JavaScript `a / b`; a non-zero number over zero (an infinity) is read as `NaN`. */
  function Quotient(a: Value, b: Value): Value {
    match (ToNumber(a), ToNumber(b))
    case (Some(x), Some(y)) => if y != 0.0 then Num(x / y) else NaN
    case _ => NaN
  }

  /** JavaScript `a + b` on counts; a string, array or object operand (concatenation) is read as `NaN`. */
  function Sum(a: Value, b: Value): Value {
    if a.Str? || b.Str? || a.Arr? || b.Arr? || a.Obj? || b.Obj? then NaN
    else
      match (ToNumber(a), ToNumber(b))
      case (Some(x), Some(y)) => Num(x + y)
      case _ => NaN
  }

  /** The rule for `af_case` and `af_ctrl`: null with a null count, 0 with no alleles, else the ratio. */
  function AfRatio(ac: Value, an: Value): Value {
    if ac == Null || an == Null then Null
    else if an == Num(0.0) then Num(0.0)
    else Quotient(ac, an)
  }

  /** The rule for `af`, read from a group result whose `af_case` and `af_ctrl` are already set. */
  function PooledAf(gr: map<string, Value>): Value {
    if Entry(gr, "af_case") == Null || Entry(gr, "af_ctrl") == Null then Null
    else if Sum(Entry(gr, "an_case"), Entry(gr, "an_ctrl")) == Num(0.0) then Num(0.0)
    else Quotient(Sum(Entry(gr, "ac_case"), Entry(gr, "ac_ctrl")), Sum(Entry(gr, "an_case"), Entry(gr, "an_ctrl")))
  }

  /** A group result with `af_case`, `af_ctrl` and `af` set in that order. */
  function WithFrequencies(gr: map<string, Value>): map<string, Value> {
    var g1 := gr["af_case" := AfRatio(Entry(gr, "ac_case"), Entry(gr, "an_case"))];
    var g2 := g1["af_ctrl" := AfRatio(Entry(g1, "ac_ctrl"), Entry(g1, "an_ctrl"))];
    g2["af" := PooledAf(g2)]
  }

  /** Numeric counts with alleles give the ratio; a count of at most the allele number gives a frequency in [0, 1]. */
  lemma FrequencyBounds(ac: real, an: real)
    requires an != 0.0
    ensures AfRatio(Num(ac), Num(an)) == Num(ac / an)
    ensures 0.0 <= ac <= an ==> 0.0 <= ac / an <= 1.0
  {
    if 0.0 <= ac <= an {
      assert an > 0.0;
      assert ac / an * an == ac;
    }
  }

  /** `af` is null exactly when one of the four counts is null. */
  lemma PooledNullIffCountNull(gr: map<string, Value>)
    requires forall k | k in ["ac_case", "an_case", "ac_ctrl", "an_ctrl"] :: k in gr
    ensures WithFrequencies(gr)["af"] == Null <==>
              gr["ac_case"] == Null || gr["an_case"] == Null || gr["ac_ctrl"] == Null || gr["an_ctrl"] == Null
  {
    var g1 := gr["af_case" := AfRatio(Entry(gr, "ac_case"), Entry(gr, "an_case"))];
    var g2 := g1["af_ctrl" := AfRatio(Entry(g1, "ac_ctrl"), Entry(g1, "an_ctrl"))];
    assert Entry(g2, "an_case") == gr["an_case"] && Entry(g2, "an_ctrl") == gr["an_ctrl"];
    assert Entry(g2, "ac_case") == gr["ac_case"] && Entry(g2, "ac_ctrl") == gr["ac_ctrl"];
  }

  /**
   * The pooled frequency of two groups with alleles lies between their two
   * frequencies (it is their mediant).
   */
  lemma PooledBetween(acCase: real, anCase: real, acCtrl: real, anCtrl: real)
    requires anCase > 0.0 && anCtrl > 0.0
    ensures var gr := map["ac_case" := Num(acCase), "an_case" := Num(anCase), "ac_ctrl" := Num(acCtrl), "an_ctrl" := Num(anCtrl)];
            var f := WithFrequencies(gr);
            f["af_case"] == Num(acCase / anCase) && f["af_ctrl"] == Num(acCtrl / anCtrl) &&
            f["af"] == Num((acCase + acCtrl) / (anCase + anCtrl)) &&
            Min(acCase / anCase, acCtrl / anCtrl) <= (acCase + acCtrl) / (anCase + anCtrl) <= Max(acCase / anCase, acCtrl / anCtrl)
  {
    var gr := map["ac_case" := Num(acCase), "an_case" := Num(anCase), "ac_ctrl" := Num(acCtrl), "an_ctrl" := Num(anCtrl)];
    var g1 := gr["af_case" := AfRatio(Entry(gr, "ac_case"), Entry(gr, "an_case"))];
    var g2 := g1["af_ctrl" := AfRatio(Entry(g1, "ac_ctrl"), Entry(g1, "an_ctrl"))];
    assert g1["af_case"] == Num(acCase / anCase);
    assert g2["af_ctrl"] == Num(acCtrl / anCtrl);
    assert Sum(Entry(g2, "an_case"), Entry(g2, "an_ctrl")) == Num(anCase + anCtrl);
    assert Sum(Entry(g2, "ac_case"), Entry(g2, "ac_ctrl")) == Num(acCase + acCtrl);
    Mediant(acCase, anCase, acCtrl, anCtrl);
  }

  function Min(x: real, y: real): real { if x <= y then x else y }
  function Max(x: real, y: real): real { if x <= y then y else x }

  lemma Mediant(a: real, b: real, c: real, d: real)
    requires b > 0.0 && d > 0.0
    ensures Min(a / b, c / d) <= (a + c) / (b + d) <= Max(a / b, c / d)
  {
    var p, q, m := a / b, c / d, (a + c) / (b + d);
    var s := b + d;
    assert a == p * b && c == q * d;
    assert m * s == a + c;
    var w := p * b + q * d;
    assert m * s == w;
    if p <= q {
      WeightedMean(p, q, b, d, s);
      DivideOut(p, m, s);
      DivideOut(m, q, s);
    } else {
      WeightedMean(q, p, d, b, s);
      DivideOut(q, m, s);
      DivideOut(m, p, s);
    }
  }

  /** `p * b + q * d` lies between `p * s` and `q * s` for `s == b + d` when `p <= q`. */
  lemma WeightedMean(p: real, q: real, b: real, d: real, s: real)
    requires b > 0.0 && d > 0.0 && p <= q && s == b + d
    ensures p * s <= p * b + q * d <= q * s
  {
    assert p * s == p * b + p * d && q * s == q * b + q * d;
    assert (q - p) * d >= 0.0;
    assert (q - p) * b >= 0.0;
  }

  lemma DivideOut(x: real, y: real, s: real)
    requires s > 0.0 && x * s <= y * s
    ensures x <= y
  {
  }

  // ---------------------------------------------------------------------------
  // Reading one row
  // ---------------------------------------------------------------------------

  /** The object being filled: its plain fields, `variant.info` and `variant.group_results`. */
  datatype Draft = Draft(top: map<string, Value>, info: map<string, Value>, groupResults: map<string, Value>)

  /** The decoded result of one analysis group: its fields by position, then the frequencies. */
  function GroupResult(fieldNames: seq<string>, values: Value): map<string, Value>
    requires !IsNullish(values)
  {
    WithFrequencies(Pair(fieldNames, values))
  }

  /** `variant.group_results` entries written by the `forEach` over the analysis groups; falsy positions are skipped. */
  function GroupEntries(groups: seq<string>, cell: Value, fieldNames: seq<string>): map<string, Value>
    requires !IsNullish(cell)
    decreases |groups|
  {
    if groups == [] then map[]
    else
      var gi := |groups| - 1;
      var gv := At(cell, gi).value;
      if Truthy(gv) then GroupEntries(groups[..gi], cell, fieldNames)[groups[gi] := Obj(GroupResult(fieldNames, gv))]
      else GroupEntries(groups[..gi], cell, fieldNames)
  }

  /** A group has an entry exactly when some position listing it holds a truthy value. */
  lemma {:induction false} GroupEntriesKeys(groups: seq<string>, cell: Value, fieldNames: seq<string>, g: string)
    requires !IsNullish(cell)
    ensures g in GroupEntries(groups, cell, fieldNames) <==>
              exists gi | 0 <= gi < |groups| :: groups[gi] == g && Truthy(At(cell, gi).value)
    decreases |groups|
  {
    if groups != [] {
      var gi := |groups| - 1;
      var init := groups[..gi];
      GroupEntriesKeys(init, cell, fieldNames, g);
      assert forall j | 0 <= j < gi :: init[j] == groups[j];
    }
  }

  /** A group listed once, at a truthy position, holds the group result decoded from that position. */
  lemma {:induction false} GroupEntriesValue(groups: seq<string>, cell: Value, fieldNames: seq<string>, gi: nat)
    requires !IsNullish(cell) && gi < |groups| && Truthy(At(cell, gi).value)
    requires forall j | gi < j < |groups| :: groups[j] != groups[gi]
    ensures groups[gi] in GroupEntries(groups, cell, fieldNames)
    ensures GroupEntries(groups, cell, fieldNames)[groups[gi]] == Obj(GroupResult(fieldNames, At(cell, gi).value))
    decreases |groups|
  {
    if gi < |groups| - 1 {
      GroupEntriesValue(groups[..|groups| - 1], cell, fieldNames, gi);
    }
  }

  /** The `info` branch: `variant.info[name] = variantValues[fieldIndex][k]` for every info field name. */
  function InfoStep(names: seq<string>, row: Value, fi: nat, info: map<string, Value>): Result<map<string, Value>, string> {
    if names == [] then Ok(info)
    else
      match At(row, fi)
      case Err(e) => Err(e)
      case Ok(cell) => if IsNullish(cell) then Err(NullPropertyRead) else Ok(info + Pair(names, cell))
  }

  /** The `group_results` branch: one entry per analysis group whose position holds a truthy value. */
  function GroupsStep(groups: seq<string>, fieldNames: seq<string>, row: Value, fi: nat, groupResults: map<string, Value>): Result<map<string, Value>, string> {
    if groups == [] then Ok(groupResults)
    else
      match At(row, fi)
      case Err(e) => Err(e)
      case Ok(cell) => if IsNullish(cell) then Err(NullPropertyRead) else Ok(groupResults + GroupEntries(groups, cell, fieldNames))
  }

  /** One step of the `forEach` over `variant_fields`; reading a position of a nullish value throws. */
  function FieldStep(schema: VariantSchema, row: Value, d: Draft, fi: nat): Result<Draft, string>
    requires fi < |schema.variantFields|
  {
    var field := schema.variantFields[fi];
    if field == "info" then
      match InfoStep(schema.infoFieldNames, row, fi, d.info)
      case Err(e) => Err(e)
      case Ok(info) => Ok(d.(info := info))
    else if field == "group_results" then
      match GroupsStep(schema.analysisGroups, schema.groupResultFieldNames, row, fi, d.groupResults)
      case Err(e) => Err(e)
      case Ok(groupResults) => Ok(d.(groupResults := groupResults))
    else
      match At(row, fi)
      case Err(e) => Err(e)
      case Ok(v) => Ok(d.(top := d.top[field := v]))
  }

  /** The object after the first `n` fields. */
  function DraftAfter(schema: VariantSchema, row: Value, n: nat): Result<Draft, string>
    requires n <= |schema.variantFields|
  {
    if n == 0 then Ok(Draft(map[], map[], map[]))
    else
      match DraftAfter(schema, row, n - 1)
      case Err(e) => Err(e)
      case Ok(d) => FieldStep(schema, row, d, n - 1)
  }

  /** Once a step has thrown, the decoding has failed with that exception. */
  lemma {:induction false} DraftErrorPersists(schema: VariantSchema, row: Value, n: nat, m: nat)
    requires n <= m <= |schema.variantFields| && DraftAfter(schema, row, n).Err?
    ensures DraftAfter(schema, row, m) == DraftAfter(schema, row, n)
    decreases m - n
  {
    if n < m {
      DraftErrorPersists(schema, row, n, m - 1);
    }
  }

  /** After the fields: `hgvs = hgvsp || hgvsc`, then the consequence's category and label. */
  function Finish(d: Draft, table: map<string, ConsequenceEntry>): (v: Value)
    ensures v.Obj?
    ensures Entry(v.fields, "info") == Obj(d.info) && Entry(v.fields, "group_results") == Obj(d.groupResults)
    ensures Entry(v.fields, "hgvs") == Or(Entry(d.top, "hgvsp"), Entry(d.top, "hgvsc"))
    ensures forall k | k in d.top && k !in ["info", "group_results", "hgvs", "consequence", "consequenceCategory"] ::
              Entry(v.fields, k) == d.top[k]
    ensures var c := Entry(d.top, "consequence");
            if Truthy(c) && c.Str? && c.s in table then
              Entry(v.fields, "consequenceCategory") == Str(StringOr(Some(table[c.s].category), "other")) &&
              Entry(v.fields, "consequence") == (if table[c.s].labelText != "" then Str(table[c.s].labelText) else c)
            else
              Entry(v.fields, "consequenceCategory") == Str("other") && Entry(v.fields, "consequence") == c
  {
    var base := d.top["info" := Obj(d.info)]["group_results" := Obj(d.groupResults)];
    var withHgvs := base["hgvs" := Or(Entry(base, "hgvsp"), Entry(base, "hgvsc"))];
    var c := Entry(withHgvs, "consequence");
    if Truthy(c) then
      var found := c.Str? && c.s in table;
      var category := if found && table[c.s].category != "" then table[c.s].category else "other";
      var consequence := if found && table[c.s].labelText != "" then Str(table[c.s].labelText) else c;
      Obj(withHgvs["consequenceCategory" := Str(category)]["consequence" := consequence])
    else
      Obj(withHgvs["consequenceCategory" := Str("other")])
  }

  /** The decoded variant of one row, or the exception its decoding throws. */
  function DecodeVariantSpec(schema: VariantSchema, table: map<string, ConsequenceEntry>, row: Value): Result<Value, string> {
    match DraftAfter(schema, row, |schema.variantFields|)
    case Err(e) => Err(e)
    case Ok(d) => Ok(Finish(d, table))
  }

  /** The body of `data.variants.map(...)`: the nested `forEach` loops filling `variant`. */
  method DecodeVariant(schema: VariantSchema, table: map<string, ConsequenceEntry>, row: Value) returns (r: Result<Value, string>)
    ensures r == DecodeVariantSpec(schema, table, row)
  {
    var drafted := DecodeFields(schema, row);
    r := if drafted.Err? then Err(drafted.error) else Ok(Finish(drafted.value, table));
  }

  /** The `forEach` over `variant_fields`, stopping at the first exception. */
  method DecodeFields(schema: VariantSchema, row: Value) returns (r: Result<Draft, string>)
    ensures r == DraftAfter(schema, row, |schema.variantFields|)
  {
    var d := Draft(map[], map[], map[]);
    var fi := 0;
    while fi < |schema.variantFields|
      invariant 0 <= fi <= |schema.variantFields|
      invariant DraftAfter(schema, row, fi) == Ok(d)
    {
      var step := DecodeField(schema, row, d, fi);
      if step.Err? {
        DraftErrorPersists(schema, row, fi + 1, |schema.variantFields|);
        return Err(step.error);
      }
      d := step.value;
      fi := fi + 1;
    }
    r := Ok(d);
  }

  /** One pass of the `forEach` over `variant_fields`. */
  method DecodeField(schema: VariantSchema, row: Value, d: Draft, fi: nat) returns (step: Result<Draft, string>)
    requires fi < |schema.variantFields|
    ensures step == FieldStep(schema, row, d, fi)
  {
    var field := schema.variantFields[fi];
    if field == "info" {
      var filled := FillInfo(schema.infoFieldNames, row, fi, d.info);
      step := if filled.Err? then Err(filled.error) else Ok(d.(info := filled.value));
    } else if field == "group_results" {
      var filled := FillGroupResults(schema.analysisGroups, schema.groupResultFieldNames, row, fi, d.groupResults);
      step := if filled.Err? then Err(filled.error) else Ok(d.(groupResults := filled.value));
    } else {
      var cell := At(row, fi);
      step := if cell.Err? then Err(cell.error) else Ok(d.(top := d.top[field := cell.value]));
    }
  }

  /** The `forEach` over the info field names. */
  method FillInfo(names: seq<string>, row: Value, fi: nat, info0: map<string, Value>) returns (r: Result<map<string, Value>, string>)
    ensures r == InfoStep(names, row, fi, info0)
  {
    var info := info0;
    var k := 0;
    while k < |names|
      invariant 0 <= k <= |names|
      invariant k == 0 ==> info == info0
      invariant k > 0 ==> At(row, fi).Ok? && !IsNullish(At(row, fi).value) &&
                          info == info0 + Pair(names[..k], At(row, fi).value)
    {
      var cell := At(row, fi);
      if cell.Err? {
        return Err(cell.error);
      }
      var value := At(cell.value, k);
      if value.Err? {
        return Err(value.error);
      }
      PairExtend(info0, names, cell.value, k);
      info := info[names[k] := value.value];
      k := k + 1;
    }
    Seqs.TakeAll(names);
    r := Ok(info);
  }

  /** The `forEach` over the analysis groups; a falsy position is skipped. */
  method FillGroupResults(analysisGroups: seq<string>, fieldNames: seq<string>, row: Value, fi: nat, groups0: map<string, Value>)
    returns (r: Result<map<string, Value>, string>)
    ensures r == GroupsStep(analysisGroups, fieldNames, row, fi, groups0)
  {
    var groups := groups0;
    var g := 0;
    while g < |analysisGroups|
      invariant 0 <= g <= |analysisGroups|
      invariant g == 0 ==> groups == groups0
      invariant g > 0 ==> At(row, fi).Ok? && !IsNullish(At(row, fi).value) &&
                          groups == groups0 + GroupEntries(analysisGroups[..g], At(row, fi).value, fieldNames)
    {
      var cell := At(row, fi);
      if cell.Err? {
        return Err(cell.error);
      }
      var groupResultValues := At(cell.value, g);
      if groupResultValues.Err? {
        return Err(groupResultValues.error);
      }
      GroupEntriesStep(analysisGroups, g, cell.value, fieldNames, groups0);
      if Truthy(groupResultValues.value) {
        var groupResult := DecodeGroupResult(fieldNames, groupResultValues.value);
        groups := groups[analysisGroups[g] := Obj(groupResult)];
      }
      g := g + 1;
    }
    assert analysisGroups[..|analysisGroups|] == analysisGroups;
    r := Ok(groups);
  }

  lemma GroupEntriesStep(groups: seq<string>, g: nat, cell: Value, fieldNames: seq<string>, base: map<string, Value>)
    requires !IsNullish(cell) && g < |groups|
    ensures var gv := At(cell, g).value;
            base + GroupEntries(groups[..g + 1], cell, fieldNames) ==
              if Truthy(gv) then (base + GroupEntries(groups[..g], cell, fieldNames))[groups[g] := Obj(GroupResult(fieldNames, gv))]
              else base + GroupEntries(groups[..g], cell, fieldNames)
  {
    assert groups[..g + 1][..g] == groups[..g];
  }

  /** The inner `forEach` over the group-result field names, then the three frequency assignments. */
  method DecodeGroupResult(fieldNames: seq<string>, values: Value) returns (groupResult: map<string, Value>)
    requires !IsNullish(values)
    ensures groupResult == GroupResult(fieldNames, values)
  {
    groupResult := map[];
    var j := 0;
    while j < |fieldNames|
      invariant 0 <= j <= |fieldNames|
      invariant groupResult == Pair(fieldNames[..j], values)
    {
      groupResult := groupResult[fieldNames[j] := At(values, j).value];
      assert fieldNames[..j + 1][..j] == fieldNames[..j];
      j := j + 1;
    }
    assert fieldNames[..|fieldNames|] == fieldNames;
    groupResult := groupResult["af_case" := AfRatio(Entry(groupResult, "ac_case"), Entry(groupResult, "an_case"))];
    groupResult := groupResult["af_ctrl" := AfRatio(Entry(groupResult, "ac_ctrl"), Entry(groupResult, "an_ctrl"))];
    groupResult := groupResult["af" := PooledAf(groupResult)];
  }

  /** `data.variants.map(...)`: the first row whose decoding throws ends the whole decoding. */
  function DecodeRows(schema: VariantSchema, table: map<string, ConsequenceEntry>, rows: seq<Value>): (r: Result<seq<Value>, string>)
    ensures r.Ok? ==> |r.value| == |rows| && forall i | 0 <= i < |rows| :: DecodeVariantSpec(schema, table, rows[i]) == Ok(r.value[i])
    ensures r.Err? ==> exists i | 0 <= i < |rows| :: DecodeVariantSpec(schema, table, rows[i]) == Err(r.error)
  {
    Seqs.MapChecked(rows, row => DecodeVariantSpec(schema, table, row))
  }

  /** The shape every decoded variant has: an object whose `info` and `group_results` are objects. */
  predicate Decoded(v: Value) {
    v.Obj? && Entry(v.fields, "info").Obj? && Entry(v.fields, "group_results").Obj? &&
    Entry(v.fields, "consequenceCategory").Str?
  }

  lemma DecodedShape(schema: VariantSchema, table: map<string, ConsequenceEntry>, row: Value)
    requires DecodeVariantSpec(schema, table, row).Ok?
    ensures Decoded(DecodeVariantSpec(schema, table, row).value)
  {
  }

  /** The category a decoded variant gets is `'other'` or the category of some dictionary entry. */
  lemma FinishCategory(d: Draft, table: map<string, ConsequenceEntry>)
    ensures var cat := Entry(Finish(d, table).fields, "consequenceCategory");
            cat == Str("other") || exists term | term in table :: cat == Str(table[term].category)
  {
    var c := Entry(d.top, "consequence");
    if Truthy(c) && c.Str? && c.s in table && table[c.s].category != "" {
      assert Entry(Finish(d, table).fields, "consequenceCategory") == Str(table[c.s].category);
    }
  }

  /**
   * With a dictionary built from configured categories among the four, every
   * decoded variant's `consequenceCategory` is one of the four.
   */
  lemma DecodedCategoryIsKnown(config: seq<ConsequenceConfig>, d: Draft)
    requires forall i | 0 <= i < |config| :: config[i].category.None? || config[i].category.value in KnownCategories
    ensures Entry(Finish(d, DecoderTable(config)).fields, "consequenceCategory").s in KnownCategories
  {
    TableCategoriesKnown(config);
    FinishCategory(d, DecoderTable(config));
  }

  const KnownCategories: set<string> := {"lof", "missense", "synonymous", "other"}

  lemma {:induction false} TableCategoriesKnown(config: seq<ConsequenceConfig>)
    requires forall i | 0 <= i < |config| :: config[i].category.None? || config[i].category.value in KnownCategories
    ensures forall term | term in DecoderTable(config) :: DecoderTable(config)[term].category in KnownCategories
    decreases |config|
  {
    if config != [] {
      TableCategoriesKnown(config[..|config| - 1]);
    }
  }
}
