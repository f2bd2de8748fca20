/**
 * The browser's authentication helpers (src/browsers/base/auth.js). The
 * cookie string (`document.cookie`) and the stored token
 * (`localStorage.getItem('authToken')`) are parameters.
 */
module Auth {
  import opened Wrappers
  import opened Strings
  import opened JsValues

  /** The separator `getCookie` splits on: `; name=`. */
  function CookieSeparator(name: string): (sep: string)
    ensures |sep| >= 3 && sep[..2] == "; "
  {
    "; " + name + "="
  }

  /**
   * `getCookie(name)`: the text after `name=` up to the next `;` when the
   * split yields exactly two pieces, else `null` (`None`).
   */
  function GetCookie(cookie: string, name: string): (r: Option<string>)
    ensures r.Some? ==> !Contains(r.value, ";")
  {
    var parts := Split("; " + cookie, CookieSeparator(name));
    if |parts| == 2 then Some(FirstPiece(parts[1], ";")) else None
  }

  /** A cookie that occurs once is read up to the next `;` (or to the end). */
  lemma CookieFound(cookie: string, name: string, before: string, after: string)
    requires "; " + cookie == before + CookieSeparator(name) + after
    requires forall i | 0 <= i < |before| :: !OccursAt("; " + cookie, CookieSeparator(name), i)
    requires !Contains(after, CookieSeparator(name))
    ensures GetCookie(cookie, name) == Some(FirstPiece(after, ";"))
  {
    SplitAtFirst(before, CookieSeparator(name), after);
    SplitWithoutSeparator(after, CookieSeparator(name));
  }

  /**
   * The leading `; ` makes the first cookie matchable: a cookie string that
   * starts with `name=value` and continues with `;` (or ends) yields `value`.
   */
  lemma FirstCookieMatchable(name: string, value: string, rest: string)
    requires ';' !in value
    requires rest == [] || rest[0] == ';'
    requires !Contains(value + rest, CookieSeparator(name))
    ensures GetCookie(name + "=" + value + rest, name) == Some(value)
  {
    var cookie := name + "=" + value + rest;
    assert "; " + cookie == "" + CookieSeparator(name) + (value + rest);
    CookieFound(cookie, name, "", value + rest);
    var after := value + rest;
    if rest == [] {
      NoFirstCharNotContains(after, ";");
      IndexOfIsContains(after, ";");
      assert after == value;
      assert FirstPiece(after, ";") == value;
    } else {
      assert OccursAt(after, ";", |value|) by {
        assert after[|value|..|value| + 1] == [rest[0]];
      }
      forall j | 0 <= j < |value| ensures !OccursAt(after, ";", j) {
        assert after[j] == value[j];
        assert value[j] in value;
      }
      FirstOccurrence(after, ";", 0, |value|);
      assert after[..|value|] == value;
    }
  }

  /** An absent cookie reads as `null`. */
  lemma CookieAbsent(cookie: string, name: string)
    requires !Contains("; " + cookie, CookieSeparator(name))
    ensures GetCookie(cookie, name) == None
  {
    SplitWithoutSeparator("; " + cookie, CookieSeparator(name));
  }

  /** A cookie that occurs twice reads as `null` too: the split has more than two pieces. */
  lemma CookieTwice(cookie: string, name: string, i: nat, j: nat)
    requires OccursAt("; " + cookie, CookieSeparator(name), i)
    requires OccursAt("; " + cookie, CookieSeparator(name), j)
    requires i + |CookieSeparator(name)| <= j
    ensures GetCookie(cookie, name) == None
  {
    SplitTwoOccurrences("; " + cookie, CookieSeparator(name), i, j);
  }

  /** `userHasBearerCookie`: `!!getCookie('authToken')`. */
  predicate UserHasBearerCookie(cookie: string) {
    match GetCookie(cookie, "authToken")
    case Some(token) => token != ""
    case None => false
  }

  /** `isLoggedIn`: a boolean compared with `!== null`, which holds whatever the cookie says. */
  function IsLoggedIn(cookie: string): (r: bool)
    ensures r
  {
    Bool(UserHasBearerCookie(cookie)) != Null
  }

  /** The object spread `...v`: the own fields of an object, nothing for `null`, `undefined` and primitives. */
  function SpreadFields(v: Value): map<string, Value> {
    if v.Obj? then v.fields else map[]
  }

  /**
   * `addAuthHeader(options)`, with the stored token as a parameter (`None`
   * for `null`). A missing `options` defaults to `{}`; reading
   * `options.headers` on `null` throws.
   */
  function AddAuthHeader(options: Value, token: Option<string>): (r: Result<Value, string>)
    ensures (token.None? || token == Some("")) ==> r == Ok(if options.Undefined? then Obj(map[]) else options)
    ensures token.Some? && token.value != "" && options.Null? ==> r == Err(NullPropertyRead)
    ensures token.Some? && token.value != "" && (options.Obj? || options.Undefined?) ==>
              r.Ok? && r.value.Obj? &&
              (forall k | k != "headers" :: (k in r.value.fields <==> k in SpreadFields(options)) &&
                 (k in r.value.fields ==> r.value.fields[k] == SpreadFields(options)[k])) &&
              "headers" in r.value.fields &&
              r.value.fields["headers"] == Obj(SpreadFields(Field(options, "headers"))["Authorization" := Str("Bearer " + token.value)])
  {
    var opts := if options.Undefined? then Obj(map[]) else options;
    match token
    case None => Ok(opts)
    case Some(t) =>
      if t == "" then Ok(opts)
      else match Prop(opts, "headers")
        case Err(e) => Err(e)
        case Ok(headers) =>
          Ok(Obj(SpreadFields(opts)["headers" := Obj(SpreadFields(headers)["Authorization" := Str("Bearer " + t)])]))
  }

  /** Decorating options twice with the same token gives what decorating once does. */
  lemma AddAuthHeaderIdempotent(options: Value, token: Option<string>)
    requires options.Obj? || options.Undefined?
    ensures AddAuthHeader(options, token).Ok?
    ensures AddAuthHeader(AddAuthHeader(options, token).value, token) == AddAuthHeader(options, token)
  {
    var once := AddAuthHeader(options, token).value;
    if token.Some? && token.value != "" {
      var headers := once.fields["headers"];
      assert SpreadFields(headers)["Authorization" := Str("Bearer " + token.value)] == headers.fields;
      assert Field(once, "headers") == headers;
      assert once.fields["headers" := headers] == once.fields;
    }
  }
}
