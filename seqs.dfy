/** Order-preserving filtering (JavaScript `Array.prototype.filter`, Hail `array.filter`). */
module Seqs {
  import opened Wrappers

  /** The elements of `s` that satisfy `p`, in their original order. */
  function Filter<T(==)>(s: seq<T>, p: T -> bool): (r: seq<T>)
    ensures |r| <= |s|
    ensures forall x | x in r :: p(x) && x in s
    decreases |s|
  {
    if s == [] then []
    else if p(s[|s| - 1]) then Filter(s[..|s| - 1], p) + [s[|s| - 1]]
    else Filter(s[..|s| - 1], p)
  }

  /** An element is kept exactly when it was present and satisfies the predicate. */
  lemma {:induction false} FilterMembership<T>(s: seq<T>, p: T -> bool, x: T)
    ensures x in Filter(s, p) <==> x in s && p(x)
    decreases |s|
  {
    if s != [] {
      FilterMembership(s[..|s| - 1], p, x);
      assert s == s[..|s| - 1] + [s[|s| - 1]];
    }
  }

  /** Filtering distributes over concatenation, so the relative order of kept elements is the input order. */
  lemma {:induction false} FilterConcat<T>(a: seq<T>, b: seq<T>, p: T -> bool)
    ensures Filter(a + b, p) == Filter(a, p) + Filter(b, p)
    decreases |b|
  {
    if b == [] {
      assert a + b == a;
    } else {
      var b' := b[..|b| - 1];
      assert (a + b)[..|a + b| - 1] == a + b';
      FilterConcat(a, b', p);
    }
  }

  /** Filtering with a predicate every element satisfies changes nothing. */
  lemma {:induction false} FilterAll<T>(s: seq<T>, p: T -> bool)
    requires forall x | x in s :: p(x)
    ensures Filter(s, p) == s
    decreases |s|
  {
    if s != [] {
      FilterAll(s[..|s| - 1], p);
      assert s == s[..|s| - 1] + [s[|s| - 1]];
    }
  }

  /** Filtering twice is filtering once by the conjunction `both`. */
  lemma {:induction false} FilterFilter<T>(s: seq<T>, p: T -> bool, q: T -> bool, both: T -> bool)
    requires forall x :: both(x) == (p(x) && q(x))
    ensures Filter(Filter(s, p), q) == Filter(s, both)
    decreases |s|
  {
    if s != [] {
      FilterFilter(s[..|s| - 1], p, q, both);
      var last := s[|s| - 1];
      if p(last) {
        var f := Filter(s[..|s| - 1], p);
        assert (f + [last])[..|f + [last]| - 1] == f;
      }
    }
  }

  /** Two predicates that agree on every element of `s` filter it alike. */
  lemma {:induction false} FilterCongruent<T>(s: seq<T>, p: T -> bool, q: T -> bool)
    requires forall x | x in s :: p(x) == q(x)
    ensures Filter(s, p) == Filter(s, q)
    decreases |s|
  {
    if s != [] {
      FilterCongruent(s[..|s| - 1], p, q);
    }
  }

  /** The multiset of kept elements is contained in the input's multiset. */
  lemma {:induction false} FilterSubMultiset<T>(s: seq<T>, p: T -> bool)
    ensures multiset(Filter(s, p)) <= multiset(s)
    decreases |s|
  {
    if s != [] {
      FilterSubMultiset(s[..|s| - 1], p);
      assert s == s[..|s| - 1] + [s[|s| - 1]];
    }
  }

  /** Applying `f` to every element (JavaScript `Array.prototype.map`). */
  function Map<T, U>(s: seq<T>, f: T -> U): (r: seq<U>)
    ensures |r| == |s|
    ensures forall i | 0 <= i < |s| :: r[i] == f(s[i])
  {
    seq(|s|, i requires 0 <= i < |s| => f(s[i]))
  }

  /** A non-empty sequence is its prefix followed by its last element. */
  lemma SplitLast<T>(s: seq<T>)
    requires s != []
    ensures s[..|s| - 1] + [s[|s| - 1]] == s
  {
  }

  /** A sequence is what precedes position `k`, the element there, and what follows. */
  lemma SplitAround<T>(s: seq<T>, k: nat)
    requires k < |s|
    ensures s == s[..k] + ([s[k]] + s[k + 1..])
  {
  }

  /** Taking every element gives the sequence back. */
  lemma TakeAll<T>(s: seq<T>)
    ensures s[..|s|] == s
  {
  }

  /** Past the end of `a`, `a + b` reads `b`. */
  lemma AppendRight<T>(a: seq<T>, b: seq<T>, k: nat)
    requires |a| <= k < |a| + |b|
    ensures (a + b)[k] == b[k - |a|]
  {
  }

  /** The first `|a|` elements of `a + b` are `a`. */
  lemma TakeAppend<T>(a: seq<T>, b: seq<T>)
    ensures (a + b)[..|a|] == a
  {
  }

  /** Concatenation is associative. */
  lemma AppendAssoc<T>(a: seq<T>, b: seq<T>, c: seq<T>)
    ensures (a + b) + c == a + (b + c)
  {
  }

  /** Mapping a concatenation maps each part. */
  lemma MapConcat<T, U>(a: seq<T>, b: seq<T>, f: T -> U)
    ensures Map(a + b, f) == Map(a, f) + Map(b, f)
  {
    assert forall i | 0 <= i < |a + b| :: Map(a + b, f)[i] == (Map(a, f) + Map(b, f))[i];
  }

  /** Filtering a sequence with a first element: the element is kept or dropped, then the rest is filtered. */
  lemma FilterCons<T>(x: T, s: seq<T>, p: T -> bool)
    ensures Filter([x] + s, p) == (if p(x) then [x] else []) + Filter(s, p)
  {
    FilterConcat([x], s, p);
    assert [x][..0] == [];
    if p(x) {
      assert Filter([x], p) == [x];
    } else {
      assert Filter([x], p) == [];
    }
  }

  /**
   * `s.filter(p)` with a predicate that may throw: the elements are tested
   * from the first, and the first exception ends the filter.
   */
  function FilterChecked<T(==)>(s: seq<T>, p: T -> Result<bool, string>): (r: Result<seq<T>, string>)
    ensures r.Ok? <==> forall x | x in s :: p(x).Ok?
    ensures r.Err? ==> exists i | 0 <= i < |s| :: p(s[i]) == Err(r.error) && forall j | 0 <= j < i :: p(s[j]).Ok?
    ensures r.Ok? ==> forall x | x in r.value :: x in s && p(x) == Ok(true)
    decreases |s|
  {
    if s == [] then Ok([])
    else
      match p(s[0])
      case Err(e) => Err(e)
      case Ok(keep) =>
        match FilterChecked(s[1..], p)
        case Err(e) =>
          ghost var i :| 0 <= i < |s[1..]| && p(s[1..][i]) == Err(e) && forall j | 0 <= j < i :: p(s[1..][j]).Ok?;
          assert p(s[i + 1]) == Err(e);
          assert forall j | 0 <= j < i + 1 :: p(s[j]).Ok? by {
            forall j | 0 <= j < i + 1 ensures p(s[j]).Ok? {
              if j > 0 {
                assert s[j] == s[1..][j - 1];
              }
            }
          }
          Err(e)
        case Ok(rest) =>
          assert forall x | x in s[1..] :: x in s;
          Ok((if keep then [s[0]] else []) + rest)
  }

  /** When no test throws, the checked filter keeps exactly the elements whose test answered true. */
  lemma {:induction false} FilterCheckedKeeps<T>(s: seq<T>, p: T -> Result<bool, string>, q: T -> bool)
    requires forall i | 0 <= i < |s| :: p(s[i]) == Ok(q(s[i]))
    ensures FilterChecked(s, p) == Ok(Filter(s, q))
    decreases |s|
  {
    if s != [] {
      assert forall x | x in s[1..] :: x in s;
      FilterCheckedKeeps(s[1..], p, q);
      FilterCons(s[0], s[1..], q);
      assert [s[0]] + s[1..] == s;
    }
  }

  /**
   * `s.map(f)` with a callback that may throw: the elements are mapped from
   * the first, and the first exception ends the map.
   */
  function MapChecked<T, U>(s: seq<T>, f: T -> Result<U, string>): (r: Result<seq<U>, string>)
    ensures r.Ok? <==> forall i | 0 <= i < |s| :: f(s[i]).Ok?
    ensures r.Ok? ==> |r.value| == |s| && forall i | 0 <= i < |s| :: f(s[i]) == Ok(r.value[i])
    ensures r.Err? ==> exists i | 0 <= i < |s| :: f(s[i]) == Err(r.error)
    decreases |s|
  {
    if s == [] then Ok([])
    else
      match f(s[0])
      case Err(e) => Err(e)
      case Ok(y) =>
        match MapChecked(s[1..], f)
        case Err(e) =>
          ghost var i :| 0 <= i < |s[1..]| && f(s[1..][i]) == Err(e);
          assert s[i + 1] == s[1..][i];
          Err(e)
        case Ok(rest) =>
          assert forall i | 1 <= i < |s| :: s[i] == s[1..][i - 1];
          Ok([y] + rest)
  }
}
