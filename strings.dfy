/**
 * String operations the browser (JavaScript) and the pipeline (Python/Hail) rely on:
 * substring search, splitting on a separator, ASCII case mapping, decimal
 * rendering and parsing of natural numbers, padding and stripping.
 */
module Strings {
  import opened Wrappers

  // ---------------------------------------------------------------------------
  // Substrings
  // ---------------------------------------------------------------------------

  /** `sub` occurs in `s` starting at index `i`. */
  predicate OccursAt(s: string, sub: string, i: nat) {
    i + |sub| <= |s| && s[i..i + |sub|] == sub
  }

  /** JavaScript `s.includes(sub)`, Python `sub in s`. */
  predicate Contains(s: string, sub: string) {
    exists i | 0 <= i <= |s| :: OccursAt(s, sub, i)
  }

  /** The first index at or after `from` where `sep` occurs in `s`. */
  function IndexOf(s: string, sep: string, from: nat): (r: Option<nat>)
    ensures r.Some? ==> from <= r.value && OccursAt(s, sep, r.value)
    ensures r.Some? ==> forall i | from <= i < r.value :: !OccursAt(s, sep, i)
    ensures r.None? ==> forall i | from <= i :: !OccursAt(s, sep, i)
    decreases |s| - from
  {
    if from + |sep| > |s| then None
    else if s[from..from + |sep|] == sep then Some(from)
    else IndexOf(s, sep, from + 1)
  }

  /** Whether `sub` occurs in `s`, computed by scanning. */
  lemma IndexOfIsContains(s: string, sub: string)
    ensures IndexOf(s, sub, 0).Some? <==> Contains(s, sub)
  {
    var r := IndexOf(s, sub, 0);
    if r.Some? {
      assert OccursAt(s, sub, r.value);
    }
  }

  // ---------------------------------------------------------------------------
  // Splitting and joining
  // ---------------------------------------------------------------------------

  /**
   * JavaScript `s.split(sep)` and Python/Hail `s.split(sep)` for a non-empty
   * literal separator: the pieces between non-overlapping occurrences, scanned
   * from the left.
   */
  function Split(s: string, sep: string): (parts: seq<string>)
    requires sep != []
    ensures |parts| >= 1
    decreases |s|
  {
    match IndexOf(s, sep, 0)
    case None => [s]
    case Some(i) => [s[..i]] + Split(s[i + |sep|..], sep)
  }

  /** JavaScript `parts.join(sep)`, Python `sep.join(parts)`. */
  function Join(parts: seq<string>, sep: string): string {
    if |parts| == 0 then ""
    else if |parts| == 1 then parts[0]
    else parts[0] + sep + Join(parts[1..], sep)
  }

  /** Joining the pieces of a split with the same separator gives back the input. */
  lemma {:induction false} JoinSplit(s: string, sep: string)
    requires sep != []
    ensures Join(Split(s, sep), sep) == s
    decreases |s|
  {
    match IndexOf(s, sep, 0)
    case None =>
    case Some(i) =>
      var rest := s[i + |sep|..];
      var tail := Split(rest, sep);
      var parts := [s[..i]] + tail;
      assert Split(s, sep) == parts;
      assert parts[1..] == tail;
      calc {
        Join(parts, sep);
        parts[0] + sep + Join(tail, sep);
        { JoinSplit(rest, sep); }
        s[..i] + sep + rest;
        { assert s == s[..i] + s[i..i + |sep|] + rest; }
        s;
      }
  }

  /** No piece of a split contains the separator. */
  lemma {:induction false} SplitPiecesAvoidSeparator(s: string, sep: string)
    requires sep != []
    ensures forall k | 0 <= k < |Split(s, sep)| :: !Contains(Split(s, sep)[k], sep)
    decreases |s|
  {
    match IndexOf(s, sep, 0)
    case None =>
      NoOccurrenceNotContains(s, sep);
    case Some(i) =>
      var rest := s[i + |sep|..];
      SplitPiecesAvoidSeparator(rest, sep);
      forall j | 0 <= j <= i ensures !OccursAt(s[..i], sep, j) {
        if OccursAt(s[..i], sep, j) {
          assert s[..i][j..j + |sep|] == s[j..j + |sep|];
          assert OccursAt(s, sep, j);
        }
      }
      var parts := Split(s, sep);
      forall k | 0 <= k < |parts| ensures !Contains(parts[k], sep) {
        if k > 0 {
          assert parts[k] == Split(rest, sep)[k - 1];
        }
      }
  }

  lemma NoOccurrenceNotContains(s: string, sub: string)
    requires forall i | 0 <= i :: !OccursAt(s, sub, i)
    ensures !Contains(s, sub)
  {
  }

  /** A string without the separator splits into itself alone. */
  lemma SplitWithoutSeparator(s: string, sep: string)
    requires sep != [] && !Contains(s, sep)
    ensures Split(s, sep) == [s]
  {
    IndexOfIsContains(s, sep);
  }

  /**
   * Splitting `a + sep + b`, where the first occurrence of `sep` starts right
   * after `a`, yields `a` followed by the pieces of `b`.
   */
  lemma SplitAtFirst(a: string, sep: string, b: string)
    requires sep != []
    requires forall i | 0 <= i < |a| :: !OccursAt(a + sep + b, sep, i)
    ensures Split(a + sep + b, sep) == [a] + Split(b, sep)
  {
    var s := a + sep + b;
    assert OccursAt(s, sep, |a|) by {
      assert s[|a|..|a| + |sep|] == sep;
    }
    FirstOccurrence(s, sep, 0, |a|);
    assert s[..|a|] == a;
    assert s[|a| + |sep|..] == b;
  }

  lemma {:induction false} FirstOccurrence(s: string, sep: string, from: nat, i: nat)
    requires from <= i && OccursAt(s, sep, i)
    requires forall j | from <= j < i :: !OccursAt(s, sep, j)
    ensures IndexOf(s, sep, from) == Some(i)
    decreases i - from
  {
    if from < i {
      assert !OccursAt(s, sep, from);
      FirstOccurrence(s, sep, from + 1, i);
    }
  }

  /** Two non-overlapping occurrences give at least three pieces. */
  lemma {:induction false} SplitTwoOccurrences(s: string, sep: string, i: nat, j: nat)
    requires sep != []
    requires OccursAt(s, sep, i) && OccursAt(s, sep, j) && i + |sep| <= j
    ensures |Split(s, sep)| >= 3
    decreases |s|, 1
  {
    FirstAtOrBefore(s, sep, i);
    var k := IndexOf(s, sep, 0).value;
    SplitFirstPiece(s, sep, k);
    AfterFirstTwoPieces(s, sep, i, j, k);
  }

  /** Past the first occurrence at `k`, at least one of the two occurrences is left. */
  lemma {:induction false} AfterFirstTwoPieces(s: string, sep: string, i: nat, j: nat, k: nat)
    requires sep != []
    requires OccursAt(s, sep, i) && OccursAt(s, sep, j) && i + |sep| <= j
    requires k <= i && k + |sep| <= |s|
    ensures |Split(s[k + |sep|..], sep)| >= 2
    decreases |s|, 0
  {
    var m := k + |sep|;
    OccursShift(s, sep, m, j);
    if m <= i {
      OccursShift(s, sep, m, i);
      SplitTwoOccurrences(s[m..], sep, i - m, j - m);
    } else {
      SplitOneOccurrence(s[m..], sep, j - m);
    }
  }

  /** The first occurrence is at or before any occurrence. */
  lemma FirstAtOrBefore(s: string, sep: string, i: nat)
    requires OccursAt(s, sep, i)
    ensures IndexOf(s, sep, 0).Some? && IndexOf(s, sep, 0).value <= i
  {
  }

  /** Splitting at the first occurrence gives its first piece, then the pieces of the rest. */
  lemma SplitFirstPiece(s: string, sep: string, k: nat)
    requires sep != [] && IndexOf(s, sep, 0) == Some(k)
    ensures k + |sep| <= |s| && |Split(s, sep)| == 1 + |Split(s[k + |sep|..], sep)|
  {
  }

  /** One occurrence gives at least two pieces. */
  lemma SplitOneOccurrence(s: string, sep: string, j: nat)
    requires sep != [] && OccursAt(s, sep, j)
    ensures |Split(s, sep)| >= 2
  {
    IndexOfIsContains(s, sep);
    var k := IndexOf(s, sep, 0).value;
    SplitFirstPiece(s, sep, k);
  }

  /** An occurrence is still one, at a shifted position, in a suffix that contains it. */
  lemma OccursShift(s: string, sep: string, k: nat, i: nat)
    requires OccursAt(s, sep, i) && k <= i
    ensures OccursAt(s[k..], sep, i - k)
  {
    assert s[k..][i - k..i - k + |sep|] == s[i..i + |sep|];
  }

  /** Joining one more piece appends the separator and the piece. */
  lemma {:induction false} JoinSnoc(parts: seq<string>, x: string, sep: string)
    requires |parts| >= 1
    ensures Join(parts + [x], sep) == Join(parts, sep) + sep + x
    decreases |parts|
  {
    if |parts| > 1 {
      assert (parts + [x])[1..] == parts[1..] + [x];
      JoinSnoc(parts[1..], x, sep);
    }
  }

  /**
   * When no piece contains the separator's first character, splitting the
   * joined pieces gives the pieces back.
   */
  lemma {:induction false} SplitJoin(parts: seq<string>, sep: string)
    requires sep != [] && |parts| >= 1
    requires forall k | 0 <= k < |parts| :: sep[0] !in parts[k]
    ensures Split(Join(parts, sep), sep) == parts
    decreases |parts|
  {
    if |parts| == 1 {
      NoFirstCharNotContains(parts[0], sep);
      SplitWithoutSeparator(parts[0], sep);
    } else {
      var a := parts[0];
      var b := Join(parts[1..], sep);
      var s := a + sep + b;
      forall i | 0 <= i < |a| ensures !OccursAt(s, sep, i) {
        assert s[i] == a[i];
      }
      SplitAtFirst(a, sep, b);
      SplitJoin(parts[1..], sep);
      assert [a] + parts[1..] == parts;
    }
  }

  lemma NoFirstCharNotContains(s: string, sep: string)
    requires sep != [] && sep[0] !in s
    ensures !Contains(s, sep)
  {
    forall i | 0 <= i <= |s| ensures !OccursAt(s, sep, i) {
      if i < |s| {
        assert s[i] in s;
      }
    }
  }

  /** The last piece of a split on `sep`: Python/Hail `s.split(sep)[-1]`. */
  function LastPiece(s: string, sep: string): (r: string)
    requires sep != []
    ensures !Contains(r, sep)
  {
    var parts := Split(s, sep);
    SplitPiecesAvoidSeparator(s, sep);
    parts[|parts| - 1]
  }

  /** The last piece of a split on one character is the text after its last occurrence, or all of `s` without one. */
  lemma LastPieceAfterLast(a: string, c: char, b: string)
    requires c !in b
    ensures LastPiece(a + [c] + b, [c]) == b
    ensures c !in a ==> LastPiece(a, [c]) == a
  {
    var sep := [c];
    var init := Split(a, sep);
    SplitPiecesAvoidSeparator(a, sep);
    forall k | 0 <= k < |init + [b]| ensures sep[0] !in (init + [b])[k] {
      if k < |init| && c in init[k] {
        var j :| 0 <= j < |init[k]| && init[k][j] == c;
        assert OccursAt(init[k], sep, j);
      }
    }
    JoinSnoc(init, b, sep);
    JoinSplit(a, sep);
    SplitJoin(init + [b], sep);
    if c !in a {
      NoFirstCharNotContains(a, sep);
      SplitWithoutSeparator(a, sep);
    }
  }

  /** The first piece of a split on `sep`: JavaScript `s.split(sep).shift()`. */
  function FirstPiece(s: string, sep: string): (r: string)
    requires sep != []
    ensures !Contains(r, sep)
    ensures r <= s
  {
    SplitPiecesAvoidSeparator(s, sep);
    match IndexOf(s, sep, 0)
    case None => s
    case Some(i) => assert Split(s, sep)[0] == s[..i]; s[..i]
  }

  // ---------------------------------------------------------------------------
  // ASCII case mapping (JavaScript toUpperCase/toLowerCase, Python upper())
  // ---------------------------------------------------------------------------

  function UpperChar(c: char): char {
    if 'a' <= c <= 'z' then (c as int - 32) as char else c
  }

  function LowerChar(c: char): char {
    if 'A' <= c <= 'Z' then (c as int + 32) as char else c
  }

  function ToUpper(s: string): (r: string)
    ensures |r| == |s|
    ensures forall i | 0 <= i < |s| :: r[i] == UpperChar(s[i])
  {
    seq(|s|, i requires 0 <= i < |s| => UpperChar(s[i]))
  }

  function ToLower(s: string): (r: string)
    ensures |r| == |s|
    ensures forall i | 0 <= i < |s| :: r[i] == LowerChar(s[i])
  {
    seq(|s|, i requires 0 <= i < |s| => LowerChar(s[i]))
  }

  predicate IsUpper(s: string) {
    forall i | 0 <= i < |s| :: UpperChar(s[i]) == s[i]
  }

  /** Upper-casing twice is upper-casing once. */
  lemma ToUpperIdempotent(s: string)
    ensures ToUpper(ToUpper(s)) == ToUpper(s)
    ensures IsUpper(ToUpper(s))
  {
  }

  /** Upper-casing commutes with concatenation. */
  lemma ToUpperConcat(a: string, b: string)
    ensures ToUpper(a + b) == ToUpper(a) + ToUpper(b)
  {
  }

  // ---------------------------------------------------------------------------
  // Decimal digits
  // ---------------------------------------------------------------------------

  predicate IsDigit(c: char) {
    '0' <= c <= '9'
  }

  predicate AllDigits(s: string) {
    forall i | 0 <= i < |s| :: IsDigit(s[i])
  }

  function DigitChar(d: nat): (c: char)
    requires d < 10
    ensures IsDigit(c)
  {
    ('0' as int + d) as char
  }

  function DigitValue(c: char): (d: nat)
    requires IsDigit(c)
    ensures d < 10
  {
    c as int - '0' as int
  }

  /** The decimal rendering of `n`, without leading zeros (JavaScript `String(n)`, Python `str(n)`). */
  function NatToString(n: nat): (s: string)
    ensures |s| >= 1 && AllDigits(s)
    decreases n
  {
    if n < 10 then [DigitChar(n)] else NatToString(n / 10) + [DigitChar(n % 10)]
  }

  /** The value of a string of decimal digits; the empty string reads as 0. */
  function ParseDigits(s: string): nat
    requires AllDigits(s)
    decreases |s|
  {
    if s == [] then 0 else ParseDigits(s[..|s| - 1]) * 10 + DigitValue(s[|s| - 1])
  }

  /** Parsing the rendering of a natural number gives the number back. */
  lemma {:induction false} ParseNatToString(n: nat)
    ensures ParseDigits(NatToString(n)) == n
    decreases n
  {
    var s := NatToString(n);
    if n >= 10 {
      ParseNatToString(n / 10);
      assert s[..|s| - 1] == NatToString(n / 10);
    }
  }

  /** A leading zero does not change the value of a digit string. */
  lemma {:induction false} ParseDigitsLeadingZero(s: string)
    requires AllDigits(s)
    ensures AllDigits("0" + s) && ParseDigits("0" + s) == ParseDigits(s)
    decreases |s|
  {
    if s != [] {
      var t := "0" + s;
      assert t[..|t| - 1] == "0" + s[..|s| - 1];
      ParseDigitsLeadingZero(s[..|s| - 1]);
    }
  }

  // ---------------------------------------------------------------------------
  // Padding and stripping
  // ---------------------------------------------------------------------------

  /** JavaScript `s.padStart(width, [c])`, Python `s.zfill(width)` when `c` is '0'. */
  function PadStart(s: string, width: nat, c: char): (r: string)
    ensures |r| == if |s| >= width then |s| else width
    ensures r == seq(|r| - |s|, _ => c) + s
  {
    if |s| >= width then s else seq(width - |s|, _ => c) + s
  }

  /** Python `s.lstrip(chars)`: drop leading characters that belong to `chars`. */
  function LStripChars(s: string, chars: set<char>): (r: string)
    ensures |r| <= |s| && r == s[|s| - |r|..]
    ensures r == [] || r[0] !in chars
    ensures forall i | 0 <= i < |s| - |r| :: s[i] in chars
    decreases |s|
  {
    if s != [] && s[0] in chars then LStripChars(s[1..], chars) else s
  }

  /** Python `s.rstrip(chars)`: drop trailing characters that belong to `chars`. */
  function RStripChars(s: string, chars: set<char>): (r: string)
    ensures |r| <= |s| && r == s[..|r|]
    ensures r == [] || r[|r| - 1] !in chars
    ensures forall i | |r| <= i < |s| :: s[i] in chars
    decreases |s|
  {
    if s != [] && s[|s| - 1] in chars then RStripChars(s[..|s| - 1], chars) else s
  }

  /** The ASCII whitespace Python's `str.strip()` removes. */
  predicate IsSpace(c: char) {
    c == ' ' || c == '\t' || c == '\n' || c == '\r' || c == '\U{B}' || c == '\U{C}'
  }

  /** Python `s.strip()`. */
  function Strip(s: string): (r: string)
    ensures r == [] || (!IsSpace(r[0]) && !IsSpace(r[|r| - 1]))
    decreases |s|
  {
    if s != [] && IsSpace(s[0]) then Strip(s[1..])
    else if s != [] && IsSpace(s[|s| - 1]) then Strip(s[..|s| - 1])
    else s
  }

  /** Python/Hail `s.replace("^p", "")`: remove `p` only when the string starts with it. */
  function RemovePrefix(s: string, p: string): (r: string)
    ensures p <= s ==> s == p + r
    ensures !(p <= s) ==> r == s
  {
    if p <= s then s[|p|..] else s
  }

  /** Replace the first occurrence of `pat` (JavaScript `s.replace(pat, rep)` with a string pattern). */
  function ReplaceFirst(s: string, pat: string, rep: string): (r: string)
    requires pat != []
  {
    match IndexOf(s, pat, 0)
    case None => s
    case Some(i) => s[..i] + rep + s[i + |pat|..]
  }

  /** Replace every occurrence of `pat`, scanning left to right (JavaScript `replaceAll`). */
  function ReplaceAll(s: string, pat: string, rep: string): (r: string)
    requires pat != []
  {
    Join(Split(s, pat), rep)
  }

  /** Lexicographic order on code units (the order of `<` on JavaScript strings). */
  predicate LexLe(a: string, b: string)
    decreases |a|
  {
    if a == [] then true
    else if b == [] then false
    else if a[0] != b[0] then a[0] < b[0]
    else LexLe(a[1..], b[1..])
  }

  lemma {:induction false} LexLeTotal(a: string, b: string)
    ensures LexLe(a, b) || LexLe(b, a)
    decreases |a|
  {
    if a != [] && b != [] && a[0] == b[0] {
      LexLeTotal(a[1..], b[1..]);
    }
  }

  lemma {:induction false} LexLeTransitive(a: string, b: string, c: string)
    requires LexLe(a, b) && LexLe(b, c)
    ensures LexLe(a, c)
    decreases |a|
  {
    if a != [] && b != [] && c != [] && a[0] == b[0] && b[0] == c[0] {
      LexLeTransitive(a[1..], b[1..], c[1..]);
    }
  }

  lemma {:induction false} LexLeAntisymmetric(a: string, b: string)
    requires LexLe(a, b) && LexLe(b, a)
    ensures a == b
    decreases |a|
  {
    if a != [] && b != [] {
      LexLeAntisymmetric(a[1..], b[1..]);
    }
  }
}
