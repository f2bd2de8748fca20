/**
 * The JavaScript values the browser manipulates (parsed JSON plus `undefined`
 * and `NaN`), with the few language operations the core relies on: truthiness,
 * property reads, lodash `get`, numeric coercion and the two comparators the
 * tables sort with.
 */
module JsValues {
  import opened Wrappers
  import opened Strings

  /** A JavaScript value; numbers are exact reals, with `NaN` apart. */
  datatype Value =
    | Undefined
    | Null
    | Bool(b: bool)
    | Num(x: real)
    | NaN
    | Str(s: string)
    | Arr(items: seq<Value>)
    | Obj(fields: map<string, Value>)

  /** The message of the TypeError thrown by reading a property of `null` or `undefined`. */
  const NullPropertyRead := "TypeError: cannot read properties of null or undefined"

  predicate IsNullish(v: Value) {
    v.Undefined? || v.Null?
  }

  /** `!!v` */
  predicate Truthy(v: Value) {
    match v
    case Undefined => false
    case Null => false
    case Bool(b) => b
    case Num(x) => x != 0.0
    case NaN => false
    case Str(s) => s != ""
    case Arr(_) => true
    case Obj(_) => true
  }

  /** `a || b` */
  function Or(a: Value, b: Value): Value {
    if Truthy(a) then a else b
  }

  /** The numbers `0`, `1`, ... written as array indices (no sign, no leading zero). */
  predicate IsArrayIndex(k: string) {
    k != "" && AllDigits(k) && (k == "0" || k[0] != '0')
  }

  /** `v[k]` on a value that is neither `null` nor `undefined`. */
  function Member(v: Value, k: string): Value
    requires !IsNullish(v)
  {
    match v
    case Obj(m) => if k in m then m[k] else Undefined
    case Arr(items) =>
      if k == "length" then Num(|items| as real)
      else if IsArrayIndex(k) && ParseDigits(k) < |items| then items[ParseDigits(k)]
      else Undefined
    case Str(s) =>
      if k == "length" then Num(|s| as real)
      else if IsArrayIndex(k) && ParseDigits(k) < |s| then Str([s[ParseDigits(k)]])
      else Undefined
    case _ => Undefined
  }

  /** `v[k]`: throws on `null` and `undefined`. */
  function Prop(v: Value, k: string): (r: Result<Value, string>)
    ensures r.Err? <==> IsNullish(v)
  {
    if IsNullish(v) then Err(NullPropertyRead) else Ok(Member(v, k))
  }

  /**
   * `v[k]` where the caller knows `v` is neither `null` nor `undefined`; the
   * model reads a nullish receiver as `undefined` rather than throwing.
   */
  function Field(v: Value, k: string): (r: Value)
    ensures v.Obj? ==> r == if k in v.fields then v.fields[k] else Undefined
  {
    if IsNullish(v) then Undefined else Member(v, k)
  }

  /** `(v.k || '')` read as text: the field if it is a string, `''` if it is missing. */
  function TextOf(v: Value, k: string): string {
    if Field(v, k).Str? then Field(v, k).s else ""
  }

  /** A field that `(v.k || '')` turns into a string: a string, or a falsy value. */
  predicate OptionalText(v: Value, k: string) {
    Field(v, k).Str? || !Truthy(Field(v, k))
  }

  /** `v[i]` for a numeric index `i`. */
  function At(v: Value, i: nat): (r: Result<Value, string>)
    ensures r.Err? <==> IsNullish(v)
    ensures v.Arr? ==> r == Ok(if i < |v.items| then v.items[i] else Undefined)
  {
    if IsNullish(v) then Err(NullPropertyRead)
    else if v.Arr? then Ok(if i < |v.items| then v.items[i] else Undefined)
    else Ok(Member(v, NatToString(i)))
  }

  /** `v.k1.k2...` in plain JavaScript: each step throws when the value read so far is `null` or `undefined`. */
  function Read(v: Value, keys: seq<string>): (r: Result<Value, string>)
    ensures r.Ok? ==> r.value == Walk(v, keys)
    ensures r.Err? ==> r.error == NullPropertyRead
    decreases |keys|
  {
    if keys == [] then Ok(v)
    else if IsNullish(v) then Err(NullPropertyRead)
    else Read(Member(v, keys[0]), keys[1..])
  }

  /** `v.a.b` throws exactly when `v` or `v.a` is `null` or `undefined`. */
  lemma ReadTwo(v: Value, a: string, b: string)
    ensures Read(v, [a, b]).Ok? <==> !IsNullish(v) && !IsNullish(Member(v, a))
  {
    if !IsNullish(v) {
      assert Read(v, [a, b]) == Read(Member(v, a), [b]);
      if !IsNullish(Member(v, a)) {
        assert Read(Member(v, a), [b]) == Read(Member(Member(v, a), b), []);
      }
    }
  }

  /** lodash `get(v, path)`: a literal own key first, then the dotted path, `undefined` past a nullish step. */
  function Get(v: Value, path: string): Value {
    if v.Obj? && path in v.fields then v.fields[path] else Walk(v, Split(path, "."))
  }

  function Walk(v: Value, keys: seq<string>): Value
    decreases |keys|
  {
    if keys == [] then v
    else if IsNullish(v) then Undefined
    else Walk(Member(v, keys[0]), keys[1..])
  }

  /** A key without a dot is read as a single property. */
  lemma GetPlainKey(m: map<string, Value>, key: string)
    requires !Contains(key, ".")
    ensures Get(Obj(m), key) == if key in m then m[key] else Undefined
  {
    SplitWithoutSeparator(key, ".");
    assert Walk(Obj(m), [key]) == Walk(Member(Obj(m), key), []);
  }

  /** `get(o, "a.b")` reads `b` inside `a` when `o` has no literal key "a.b". */
  lemma GetNested(m: map<string, Value>, a: string, b: string)
    requires !Contains(a, ".") && !Contains(b, ".")
    requires a + "." + b !in m
    ensures Get(Obj(m), a + "." + b) ==
            if a in m && !IsNullish(m[a]) then Member(m[a], b) else Undefined
  {
    SplitWithoutSeparator(b, ".");
    forall i | 0 <= i < |a| ensures !OccursAt(a + "." + b, ".", i) {
      assert (a + "." + b)[i..i + 1] == a[i..i + 1];
      assert !OccursAt(a, ".", i);
    }
    SplitAtFirst(a, ".", b);
    var inner := Member(Obj(m), a);
    assert Walk(Obj(m), [a, b]) == Walk(inner, [b]);
    if !IsNullish(inner) {
      assert Walk(inner, [b]) == Walk(Member(inner, b), []);
    }
  }

  /**
   * `Number(v)` (also what `a - b` applies to its operands), or `None` for NaN.
   * Strings are read as whole decimal numbers; blank strings are 0.
   */
  function ToNumber(v: Value): Option<real> {
    match v
    case Num(x) => Some(x)
    case Bool(b) => Some(if b then 1.0 else 0.0)
    case Null => Some(0.0)
    case Str(s) =>
      var t := Strip(s);
      if t == "" then Some(0.0)
      else if AllDigits(t) then Some(ParseDigits(t) as real)
      else None
    case _ => None
  }

  /** `v > 0` */
  predicate Positive(v: Value) {
    var n := ToNumber(v);
    n.Some? && n.value > 0.0
  }

  /** The sign `sort` reads from the comparator `(a, b) => a - b`; a NaN answer counts as 0. */
  function SubtractSign(a: Value, b: Value): int {
    match (ToNumber(a), ToNumber(b))
    case (Some(x), Some(y)) => if x < y then -1 else if x > y then 1 else 0
    case _ => 0
  }

  /** `a.localeCompare(b)`, taken as code-unit order. */
  function LocaleCompare(a: string, b: string): int {
    if a == b then 0 else if LexLe(a, b) then -1 else 1
  }

  /** The comparator `(a, b) => a.localeCompare(b)` on values; non-strings compare equal. */
  function LocaleCompareValues(a: Value, b: Value): int {
    if a.Str? && b.Str? then LocaleCompare(a.s, b.s) else 0
  }

  /** `localeCompare` is a total order on strings: it is antisymmetric ... */
  lemma LocaleCompareAntisymmetric(a: string, b: string)
    ensures LocaleCompare(a, b) == -LocaleCompare(b, a)
    ensures LocaleCompare(a, b) == 0 <==> a == b
  {
    LexLeTotal(a, b);
    if LexLe(a, b) && LexLe(b, a) {
      LexLeAntisymmetric(a, b);
    }
  }

  /** ... and transitive. */
  lemma LocaleCompareTransitive(a: string, b: string, c: string)
    ensures LocaleCompare(a, b) >= 0 && LocaleCompare(b, c) >= 0 ==> LocaleCompare(a, c) >= 0
  {
    LocaleCompareAntisymmetric(a, b);
    LocaleCompareAntisymmetric(b, c);
    LocaleCompareAntisymmetric(a, c);
    LexLeTotal(a, b);
    LexLeTotal(b, c);
    LexLeTotal(a, c);
    if LocaleCompare(a, b) >= 0 && LocaleCompare(b, c) >= 0 && LocaleCompare(a, c) < 0 {
      // c <= b <= a and a < c
      assert LexLe(b, a) && LexLe(c, b);
      LexLeTransitive(c, b, a);
      LexLeAntisymmetric(a, c);
    }
  }
}
