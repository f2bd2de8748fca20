/**
 * `Array.prototype.sort` with a comparator, modelled as the stable insertion
 * sort that the ECMAScript engines use on short runs: each element is inserted
 * into the sorted prefix by moving it left while the comparator says it goes
 * strictly before its left neighbour.
 */
module Sorting {
  import opened Seqs

  /** A JavaScript comparator: negative means "a goes first". */
  type Comparator<!T> = (T, T) -> int

  /** No later element goes strictly before an earlier one. */
  predicate SortedBy<T(==)>(s: seq<T>, cmp: Comparator<T>) {
    forall i, j | 0 <= i < j < |s| :: cmp(s[j], s[i]) >= 0
  }

  /**
   * On the elements of `s`, "goes strictly before" is a strict weak order:
   * asymmetric and negatively transitive.
   */
  predicate StrictWeakOn<T(==)>(s: seq<T>, cmp: Comparator<T>) {
    (forall i, j | 0 <= i < |s| && 0 <= j < |s| :: cmp(s[i], s[j]) < 0 ==> cmp(s[j], s[i]) >= 0) &&
    (forall i, j, k | 0 <= i < |s| && 0 <= j < |s| && 0 <= k < |s| ::
       cmp(s[i], s[j]) >= 0 && cmp(s[j], s[k]) >= 0 ==> cmp(s[i], s[k]) >= 0)
  }

  /** `cmp` is asymmetric on `a`, `b` and negatively transitive through `b` to `c`. */
  predicate OrderedTriple<T>(cmp: Comparator<T>, a: T, b: T, c: T) {
    (cmp(a, b) < 0 ==> cmp(b, a) >= 0) &&
    (cmp(a, b) >= 0 && cmp(b, c) >= 0 ==> cmp(a, c) >= 0)
  }

  /** A comparator ordered on every triple of elements is a strict weak order on them. */
  lemma StrictWeakByTriples<T>(s: seq<T>, cmp: Comparator<T>)
    requires forall i, j, k | 0 <= i < |s| && 0 <= j < |s| && 0 <= k < |s| :: OrderedTriple(cmp, s[i], s[j], s[k])
    ensures StrictWeakOn(s, cmp)
  {
    forall i, j | 0 <= i < |s| && 0 <= j < |s| ensures cmp(s[i], s[j]) < 0 ==> cmp(s[j], s[i]) >= 0 {
      assert OrderedTriple(cmp, s[i], s[j], s[i]);
    }
  }

  /** Insert `x` into `s`, moving it left past every element it goes strictly before. */
  function Insert<T(==)>(s: seq<T>, x: T, cmp: Comparator<T>): (r: seq<T>)
    ensures |r| == |s| + 1
    decreases |s|
  {
    if s == [] || cmp(x, s[|s| - 1]) >= 0 then s + [x]
    else Insert(s[..|s| - 1], x, cmp) + [s[|s| - 1]]
  }

  /** The order `sort(cmp)` leaves an array in. */
  function InsertionSort<T(==)>(s: seq<T>, cmp: Comparator<T>): (r: seq<T>)
    ensures |r| == |s|
    decreases |s|
  {
    if s == [] then [] else Insert(InsertionSort(s[..|s| - 1], cmp), s[|s| - 1], cmp)
  }

  lemma {:induction false} InsertPermutation<T>(s: seq<T>, x: T, cmp: Comparator<T>)
    ensures multiset(Insert(s, x, cmp)) == multiset(s) + multiset{x}
    decreases |s|
  {
    if s != [] && cmp(x, s[|s| - 1]) < 0 {
      InsertPermutation(s[..|s| - 1], x, cmp);
      assert s == s[..|s| - 1] + [s[|s| - 1]];
    }
  }

  /** Sorting rearranges the elements and neither loses nor duplicates any. */
  lemma {:induction false} SortPermutation<T>(s: seq<T>, cmp: Comparator<T>)
    ensures multiset(InsertionSort(s, cmp)) == multiset(s)
    decreases |s|
  {
    if s != [] {
      SortPermutation(s[..|s| - 1], cmp);
      InsertPermutation(InsertionSort(s[..|s| - 1], cmp), s[|s| - 1], cmp);
      assert s == s[..|s| - 1] + [s[|s| - 1]];
    }
  }

  lemma Asymmetric<T>(all: seq<T>, cmp: Comparator<T>, a: T, b: T)
    requires StrictWeakOn(all, cmp) && a in all && b in all
    ensures cmp(a, b) < 0 ==> cmp(b, a) >= 0
  {
    var i :| 0 <= i < |all| && all[i] == a;
    var j :| 0 <= j < |all| && all[j] == b;
  }

  lemma Transitive<T>(all: seq<T>, cmp: Comparator<T>, a: T, b: T, c: T)
    requires StrictWeakOn(all, cmp) && a in all && b in all && c in all
    ensures cmp(a, b) >= 0 && cmp(b, c) >= 0 ==> cmp(a, c) >= 0
  {
    var i :| 0 <= i < |all| && all[i] == a;
    var j :| 0 <= j < |all| && all[j] == b;
    var k :| 0 <= k < |all| && all[k] == c;
  }

  lemma {:induction false} InsertSorted<T>(s: seq<T>, x: T, cmp: Comparator<T>, all: seq<T>)
    requires StrictWeakOn(all, cmp)
    requires x in all && forall y | y in s :: y in all
    requires SortedBy(s, cmp)
    ensures SortedBy(Insert(s, x, cmp), cmp)
    decreases |s|
  {
    if s == [] {
    } else if cmp(x, s[|s| - 1]) >= 0 {
      var r := s + [x];
      forall i, j | 0 <= i < j < |r| ensures cmp(r[j], r[i]) >= 0 {
        if j == |s| && i < |s| - 1 {
          assert cmp(s[|s| - 1], s[i]) >= 0;
          Transitive(all, cmp, x, s[|s| - 1], s[i]);
        }
      }
    } else {
      var init := s[..|s| - 1];
      var last := s[|s| - 1];
      InsertSorted(init, x, cmp, all);
      InsertPermutation(init, x, cmp);
      var ins := Insert(init, x, cmp);
      var r := ins + [last];
      forall i | 0 <= i < |ins| ensures cmp(last, ins[i]) >= 0 {
        assert ins[i] in multiset(init) + multiset{x} by {
          assert ins[i] in multiset(ins);
        }
        if ins[i] == x {
          Asymmetric(all, cmp, x, last);
        } else {
          assert ins[i] in init;
          var k :| 0 <= k < |init| && init[k] == ins[i];
          assert s[k] == ins[i];
        }
      }
      forall i, j | 0 <= i < j < |r| ensures cmp(r[j], r[i]) >= 0 {
        if j < |ins| {
          assert r[j] == ins[j] && r[i] == ins[i];
        }
      }
    }
  }

  /** When the comparator orders the elements consistently, the result is sorted. */
  lemma {:induction false} SortSorted<T>(s: seq<T>, cmp: Comparator<T>)
    requires StrictWeakOn(s, cmp)
    ensures SortedBy(InsertionSort(s, cmp), cmp)
    decreases |s|
  {
    if s != [] {
      var init := s[..|s| - 1];
      assert StrictWeakOn(init, cmp);
      SortSorted(init, cmp);
      SortPermutation(init, cmp);
      var sorted := InsertionSort(init, cmp);
      forall y | y in sorted ensures y in s {
        assert y in multiset(init);
      }
      InsertSorted(sorted, s[|s| - 1], cmp, s);
    }
  }

  lemma {:induction false} InsertKeepsFiltered<T>(s: seq<T>, x: T, cmp: Comparator<T>, p: T -> bool)
    requires !p(x) || forall y | y in s :: cmp(x, y) >= 0
    ensures Filter(Insert(s, x, cmp), p) == Filter(s + [x], p)
    decreases |s|
  {
    if s != [] && cmp(x, s[|s| - 1]) < 0 {
      var init := s[..|s| - 1];
      var last := s[|s| - 1];
      InsertKeepsFiltered(init, x, cmp, p);
      calc {
        Filter(Insert(init, x, cmp) + [last], p);
        { FilterConcat(Insert(init, x, cmp), [last], p); }
        Filter(Insert(init, x, cmp), p) + Filter([last], p);
        Filter(init + [x], p) + Filter([last], p);
        { FilterConcat(init, [x], p); }
        Filter(init, p) + Filter([x], p) + Filter([last], p);
        Filter(init, p) + Filter([last], p) + Filter([x], p);
        { FilterConcat(init, [last], p); SplitLast(s); }
        Filter(s, p) + Filter([x], p);
        { FilterConcat(s, [x], p); }
        Filter(s + [x], p);
      }
    }
  }

  /**
   * Elements of a class `p` that never go before anything keep their input
   * order: sorting is stable for them.
   */
  lemma {:induction false} SortKeepsOrderOf<T>(s: seq<T>, cmp: Comparator<T>, p: T -> bool)
    requires forall i, j | 0 <= i < |s| && 0 <= j < |s| && p(s[i]) :: cmp(s[i], s[j]) >= 0
    ensures Filter(InsertionSort(s, cmp), p) == Filter(s, p)
    decreases |s|
  {
    if s != [] {
      var init := s[..|s| - 1];
      var last := s[|s| - 1];
      NeverBeforeOnPrefix(s, cmp, p);
      SortKeepsOrderOf(init, cmp, p);
      var sorted := InsertionSort(init, cmp);
      if p(last) {
        LastGoesLast(s, init, cmp, p);
      }
      InsertKeepsFiltered(sorted, last, cmp, p);
      SortStepKeepsFiltered(s, cmp, p);
    }
  }

  /** The inductive step of `SortKeepsOrderOf`, once both facts about the prefix are known. */
  lemma SortStepKeepsFiltered<T>(s: seq<T>, cmp: Comparator<T>, p: T -> bool)
    requires s != []
    requires Filter(InsertionSort(s[..|s| - 1], cmp), p) == Filter(s[..|s| - 1], p)
    requires Filter(Insert(InsertionSort(s[..|s| - 1], cmp), s[|s| - 1], cmp), p) ==
             Filter(InsertionSort(s[..|s| - 1], cmp) + [s[|s| - 1]], p)
    ensures Filter(InsertionSort(s, cmp), p) == Filter(s, p)
  {
    var init := s[..|s| - 1];
    var last := s[|s| - 1];
    var sorted := InsertionSort(init, cmp);
    SplitLast(s);
    FilterConcat(sorted, [last], p);
    FilterConcat(init, [last], p);
  }

  /** The hypothesis of `SortKeepsOrderOf` holds of every prefix. */
  lemma NeverBeforeOnPrefix<T>(s: seq<T>, cmp: Comparator<T>, p: T -> bool)
    requires s != []
    requires forall i, j | 0 <= i < |s| && 0 <= j < |s| && p(s[i]) :: cmp(s[i], s[j]) >= 0
    ensures var init := s[..|s| - 1];
            forall i, j | 0 <= i < |init| && 0 <= j < |init| && p(init[i]) :: cmp(init[i], init[j]) >= 0
  {
    var init := s[..|s| - 1];
    forall i, j | 0 <= i < |init| && 0 <= j < |init| && p(init[i]) ensures cmp(init[i], init[j]) >= 0 {
      assert init[i] == s[i] && init[j] == s[j];
    }
  }

  lemma LastGoesLast<T>(s: seq<T>, init: seq<T>, cmp: Comparator<T>, p: T -> bool)
    requires s != [] && init == s[..|s| - 1] && p(s[|s| - 1])
    requires forall i, j | 0 <= i < |s| && 0 <= j < |s| && p(s[i]) :: cmp(s[i], s[j]) >= 0
    ensures forall y | y in InsertionSort(init, cmp) :: cmp(s[|s| - 1], y) >= 0
  {
    SortPermutation(init, cmp);
    forall y | y in InsertionSort(init, cmp) ensures cmp(s[|s| - 1], y) >= 0 {
      assert y in multiset(init);
      var k :| 0 <= k < |init| && init[k] == y;
      assert s[k] == y;
    }
  }

  /** No element of class `e` comes before an element outside it. */
  predicate PartitionedBy<T>(s: seq<T>, e: T -> bool) {
    forall i, j | 0 <= i < j < |s| :: !(e(s[i]) && !e(s[j]))
  }

  /**
   * A comparator that puts the class `e` last: an element of the class never
   * goes before anything, and any other element goes before one of the class.
   */
  predicate PutsLast<T>(all: seq<T>, cmp: Comparator<T>, e: T -> bool) {
    forall i, j | 0 <= i < |all| && 0 <= j < |all| ::
      (e(all[i]) ==> cmp(all[i], all[j]) >= 0) && (!e(all[i]) && e(all[j]) ==> cmp(all[i], all[j]) < 0)
  }

  lemma PutsLastOn<T>(all: seq<T>, cmp: Comparator<T>, e: T -> bool, x: T, y: T)
    requires PutsLast(all, cmp, e) && x in all && y in all
    ensures (e(x) ==> cmp(x, y) >= 0) && (!e(x) && e(y) ==> cmp(x, y) < 0)
  {
    var i :| 0 <= i < |all| && all[i] == x;
    var j :| 0 <= j < |all| && all[j] == y;
  }

  lemma {:induction false} InsertPartitioned<T>(s: seq<T>, x: T, cmp: Comparator<T>, e: T -> bool, all: seq<T>)
    requires PutsLast(all, cmp, e) && x in all && forall y | y in s :: y in all
    requires PartitionedBy(s, e)
    ensures PartitionedBy(Insert(s, x, cmp), e)
    decreases |s|
  {
    if s == [] {
    } else if cmp(x, s[|s| - 1]) >= 0 {
      var r := s + [x];
      assert s[|s| - 1] in s;
      PutsLastOn(all, cmp, e, x, s[|s| - 1]);
      forall i, j | 0 <= i < j < |r| ensures !(e(r[i]) && !e(r[j])) {
        if j == |s| && i < |s| - 1 && e(s[i]) {
          assert e(s[|s| - 1]);
        }
      }
    } else {
      var init := s[..|s| - 1];
      var last := s[|s| - 1];
      assert last in s;
      InsertPartitioned(init, x, cmp, e, all);
      InsertPermutation(init, x, cmp);
      var ins := Insert(init, x, cmp);
      PutsLastOn(all, cmp, e, x, last);
      if !e(last) {
        forall y | y in ins ensures !e(y) {
          assert y in multiset(init) + multiset{x} by {
            assert y in multiset(ins);
          }
          if y != x {
            assert y in init;
            var k :| 0 <= k < |init| && init[k] == y;
            assert s[k] == y;
          }
        }
      }
      var r := ins + [last];
      forall i, j | 0 <= i < j < |r| ensures !(e(r[i]) && !e(r[j])) {
        if j < |ins| {
          assert r[i] == ins[i] && r[j] == ins[j];
        } else {
          assert r[i] in ins;
        }
      }
    }
  }

  /** With a comparator that puts the class `e` last, the sorted sequence has the class at its end. */
  lemma {:induction false} SortPartitioned<T>(s: seq<T>, cmp: Comparator<T>, e: T -> bool)
    requires PutsLast(s, cmp, e)
    ensures PartitionedBy(InsertionSort(s, cmp), e)
    decreases |s|
  {
    if s != [] {
      var init := s[..|s| - 1];
      assert forall y | y in init :: y in s;
      SortPartitioned(init, cmp, e);
      SortPermutation(init, cmp);
      var sorted := InsertionSort(init, cmp);
      forall y | y in sorted ensures y in s {
        assert y in multiset(init);
      }
      InsertPartitioned(sorted, s[|s| - 1], cmp, e, s);
    }
  }

  /** An element that goes strictly before everything already sorted ends up first. */
  lemma {:induction false} InsertFront<T>(s: seq<T>, x: T, cmp: Comparator<T>)
    requires forall y | y in s :: cmp(x, y) < 0
    ensures Insert(s, x, cmp) == [x] + s
    decreases |s|
  {
    if s != [] {
      assert s[|s| - 1] in s;
      assert forall y | y in s[..|s| - 1] :: y in s;
      InsertFront(s[..|s| - 1], x, cmp);
      SplitLast(s);
      AppendAssoc([x], s[..|s| - 1], [s[|s| - 1]]);
    }
  }

  /** An element that does not go before the head never moves past it. */
  lemma {:induction false} InsertAfterHead<T>(h: T, t: seq<T>, x: T, cmp: Comparator<T>)
    requires cmp(x, h) >= 0
    ensures Insert([h] + t, x, cmp) == [h] + Insert(t, x, cmp)
    decreases |t|
  {
    var s := [h] + t;
    if t != [] && cmp(x, t[|t| - 1]) < 0 {
      assert s[..|s| - 1] == [h] + t[..|t| - 1];
      InsertAfterHead(h, t[..|t| - 1], x, cmp);
    }
  }

  /** `d` goes before every element, and no other element goes before `d`. */
  ghost predicate GoesFirst<T(!new)>(cmp: Comparator<T>, d: T) {
    forall y :: cmp(d, y) < 0 && (y != d ==> cmp(y, d) >= 0)
  }

  /** `[d]` when `d` occurs in `s`, else nothing. */
  function Present<T(==)>(s: seq<T>, d: T): (r: seq<T>)
    ensures |r| <= 1 && (d in s <==> r == [d])
  {
    if d in s then [d] else []
  }

  /**
   * With an element that goes first, the sorted sequence is that element (if
   * present once) followed by the other elements sorted among themselves.
   */
  lemma {:induction false} SortFirstSplit<T(!new)>(s: seq<T>, cmp: Comparator<T>, d: T, others: T -> bool)
    requires GoesFirst(cmp, d) && forall x :: others(x) <==> x != d
    requires forall i, j | 0 <= i < j < |s| :: s[i] != s[j]
    ensures InsertionSort(s, cmp) == Present(s, d) + InsertionSort(Filter(s, others), cmp)
    decreases |s|
  {
    if s != [] {
      var init := s[..|s| - 1];
      var x := s[|s| - 1];
      assert forall i, j | 0 <= i < j < |init| :: init[i] != init[j];
      SortFirstSplit(init, cmp, d, others);
      var rest := InsertionSort(Filter(init, others), cmp);
      if x == d {
        assert d !in init by {
          forall i | 0 <= i < |init| ensures init[i] != d {
            assert init[i] == s[i];
          }
        }
        assert forall y | y in InsertionSort(init, cmp) :: cmp(d, y) < 0;
        FirstLast(s, init, cmp, d, rest);
        assert Filter(s, others) == Filter(init, others);
      } else {
        InsertBehind(s, init, x, cmp, Present(init, d), rest);
        SortFilterSnoc(s, init, x, cmp, others);
        PresentSnoc(s, init, x, d);
      }
    }
  }

  lemma PresentSnoc<T>(s: seq<T>, init: seq<T>, x: T, d: T)
    requires s != [] && init == s[..|s| - 1] && s[|s| - 1] == x && x != d
    ensures Present(s, d) == Present(init, d)
  {
    assert s == init + [x];
  }

  /** The element that goes first, inserted last, moves to the front. */
  lemma FirstLast<T>(s: seq<T>, init: seq<T>, cmp: Comparator<T>, d: T, rest: seq<T>)
    requires s != [] && init == s[..|s| - 1] && s[|s| - 1] == d
    requires forall y | y in InsertionSort(init, cmp) :: cmp(d, y) < 0
    requires d !in init && InsertionSort(init, cmp) == Present(init, d) + rest
    ensures InsertionSort(s, cmp) == Present(s, d) + rest
  {
    InsertFront(InsertionSort(init, cmp), d, cmp);
    assert Present(init, d) + rest == rest;
    assert d in s;
  }

  lemma SortFilterSnoc<T>(s: seq<T>, init: seq<T>, x: T, cmp: Comparator<T>, others: T -> bool)
    requires others(x) && s != [] && init == s[..|s| - 1] && s[|s| - 1] == x
    ensures InsertionSort(Filter(s, others), cmp) == Insert(InsertionSort(Filter(init, others), cmp), x, cmp)
  {
    var f := Filter(s, others);
    assert f == Filter(init, others) + [x];
    assert f[..|f| - 1] == Filter(init, others);
  }

  /** Any other element, inserted last, stays behind the element that goes first. */
  lemma InsertBehind<T>(s: seq<T>, init: seq<T>, x: T, cmp: Comparator<T>, head: seq<T>, rest: seq<T>)
    requires s != [] && init == s[..|s| - 1] && s[|s| - 1] == x
    requires InsertionSort(init, cmp) == head + rest
    requires head == [] || (|head| == 1 && cmp(x, head[0]) >= 0)
    ensures InsertionSort(s, cmp) == head + Insert(rest, x, cmp)
  {
    if head == [] {
      assert head + rest == rest;
    } else {
      assert head == [head[0]];
      InsertAfterHead(head[0], rest, x, cmp);
    }
  }
}
