/**
 * The browser-wide consequence lookups (src/client/consequences.js): two
 * prototype-less dictionaries filled once from the browser's configured
 * consequence list, read by term.
 */
module Consequences {
  import opened Wrappers

  /** One entry of a browser's `variants.consequences` list; `labelText` (its `label`) and `category` may be absent. */
  datatype ConsequenceConfig = ConsequenceConfig(term: string, labelText: Option<string>, category: Option<string>)

  /** JavaScript `x || fallback` for an optional string. */
  function StringOr(x: Option<string>, fallback: string): string {
    if x.Some? && x.value != "" then x.value else fallback
  }

  /** The index of the last entry that configures `term`, if any. */
  function LastEntry(config: seq<ConsequenceConfig>, term: string): (r: Option<nat>)
    ensures r.Some? ==> r.value < |config| && config[r.value].term == term
    ensures r.Some? ==> forall j | r.value < j < |config| :: config[j].term != term
    ensures r.None? ==> forall j | 0 <= j < |config| :: config[j].term != term
    decreases |config|
  {
    if config == [] then None
    else if config[|config| - 1].term == term then Some(|config| - 1)
    else LastEntry(config[..|config| - 1], term)
  }

  /** `categoryByTerm` after the `forEach` has run over `config`. */
  function CategoryTable(config: seq<ConsequenceConfig>): map<string, Option<string>>
    decreases |config|
  {
    if config == [] then map[]
    else CategoryTable(config[..|config| - 1])[config[|config| - 1].term := config[|config| - 1].category]
  }

  /** `labelByTerm` after the `forEach` has run over `config`. */
  function LabelTable(config: seq<ConsequenceConfig>): map<string, Option<string>>
    decreases |config|
  {
    if config == [] then map[]
    else LabelTable(config[..|config| - 1])[config[|config| - 1].term := config[|config| - 1].labelText]
  }

  /**
   * A term is in the tables exactly when some entry configures it, and then
   * the tables hold the values of the last such entry.
   */
  lemma {:induction false} TablesLastWins(config: seq<ConsequenceConfig>, term: string)
    ensures term in CategoryTable(config) <==> LastEntry(config, term).Some?
    ensures term in LabelTable(config) <==> LastEntry(config, term).Some?
    ensures LastEntry(config, term).Some? ==>
              CategoryTable(config)[term] == config[LastEntry(config, term).value].category &&
              LabelTable(config)[term] == config[LastEntry(config, term).value].labelText
    decreases |config|
  {
    if config != [] {
      TablesLastWins(config[..|config| - 1], term);
    }
  }

  /** The two lookup dictionaries of the browser. */
  class ConsequenceLookup {
    var categoryByTerm: map<string, Option<string>>
    var labelByTerm: map<string, Option<string>>
    ghost const config: seq<ConsequenceConfig>

    ghost predicate Valid()
      reads this
    {
      categoryByTerm == CategoryTable(config) && labelByTerm == LabelTable(config)
    }

    /** Fills both dictionaries from the configured list, one entry at a time. */
    constructor(consequences: seq<ConsequenceConfig>)
      ensures config == consequences && Valid()
    {
      config := consequences;
      categoryByTerm := map[];
      labelByTerm := map[];
      new;
      var i := 0;
      while i < |consequences|
        invariant 0 <= i <= |consequences|
        invariant categoryByTerm == CategoryTable(consequences[..i])
        invariant labelByTerm == LabelTable(consequences[..i])
      {
        categoryByTerm := categoryByTerm[consequences[i].term := consequences[i].category];
        labelByTerm := labelByTerm[consequences[i].term := consequences[i].labelText];
        assert consequences[..i + 1][..i] == consequences[..i];
        i := i + 1;
      }
      assert consequences[..|consequences|] == consequences;
    }

    /** `getCategoryFromConsequence`: the configured category, `undefined` for an unconfigured term. */
    function GetCategory(term: string): (r: Option<string>)
      reads this
      requires Valid()
      ensures LastEntry(config, term).None? ==> r.None?
      ensures LastEntry(config, term).Some? ==> r == config[LastEntry(config, term).value].category
    {
      TablesLastWins(config, term);
      if term in categoryByTerm then categoryByTerm[term] else None
    }

    /** `getLabelForConsequenceTerm`: the configured label, else the term itself. */
    function GetLabel(term: string): (r: string)
      reads this
      requires Valid()
      ensures LastEntry(config, term).None? ==> r == term
      ensures LastEntry(config, term).Some? ==> r == StringOr(config[LastEntry(config, term).value].labelText, term)
    {
      TablesLastWins(config, term);
      StringOr(if term in labelByTerm then labelByTerm[term] else None, term)
    }
  }
}
