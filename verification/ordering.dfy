/** The list orderings the aggregator relies on: Python's stable `sorted(…, key=…,
    reverse=True)`, slicing to the first `n`, and the removal of repeated entries. */
module Ordering {

  import opened Wrappers

  /** Every element's key is at least the key of every element after it. */
  predicate SortedDesc<T>(xs: seq<T>, key: T -> int) {
    forall i, j :: 0 <= i < j < |xs| ==> key(xs[i]) >= key(xs[j])
  }

  /** Puts `x` into the descending `ys` after every element whose key is at least its own. */
  function InsertDesc<T>(ys: seq<T>, x: T, key: T -> int): (r: seq<T>)
    ensures multiset(r) == multiset(ys) + multiset{x}
    ensures |r| == |ys| + 1
  {
    if ys == [] || key(x) > key(ys[0]) then [x] + ys
    else
      assert ys == [ys[0]] + ys[1..];
      [ys[0]] + InsertDesc(ys[1..], x, key)
  }

  /** `sorted(xs, key=key, reverse=True)`: the elements are taken in order and each one is
      placed after every earlier element with a key at least as large. */
  function SortDesc<T>(xs: seq<T>, key: T -> int): (r: seq<T>)
    ensures multiset(r) == multiset(xs)
    ensures |r| == |xs|
  {
    if xs == [] then []
    else
      assert xs == xs[..|xs| - 1] + [xs[|xs| - 1]];
      InsertDesc(SortDesc(xs[..|xs| - 1], key), xs[|xs| - 1], key)
  }

  lemma {:induction false} InsertDescSorted<T>(ys: seq<T>, x: T, key: T -> int)
    requires SortedDesc(ys, key)
    ensures SortedDesc(InsertDesc(ys, x, key), key)
  {
    if ys != [] && key(x) <= key(ys[0]) {
      var rest := InsertDesc(ys[1..], x, key);
      InsertDescSorted(ys[1..], x, key);
      forall j | 0 <= j < |rest| ensures key(rest[j]) <= key(ys[0]) {
        assert rest[j] in multiset(rest);
        if rest[j] != x {
          assert rest[j] in multiset(ys[1..]);
          var k :| 0 <= k < |ys[1..]| && ys[1..][k] == rest[j];
          assert ys[k + 1] == rest[j];
        }
      }
      assert InsertDesc(ys, x, key) == [ys[0]] + rest;
    }
  }

  /** The result of `SortDesc` is in descending key order. */
  lemma {:induction false} SortDescSorted<T>(xs: seq<T>, key: T -> int)
    ensures SortedDesc(SortDesc(xs, key), key)
  {
    if xs != [] {
      SortDescSorted(xs[..|xs| - 1], key);
      InsertDescSorted(SortDesc(xs[..|xs| - 1], key), xs[|xs| - 1], key);
    }
  }

  /** The elements of `xs` whose key is `k`, in their order in `xs`. */
  function WithKey<T>(xs: seq<T>, key: T -> int, k: int): (r: seq<T>)
    ensures |r| <= |xs|
  {
    if xs == [] then []
    else (if key(xs[0]) == k then [xs[0]] else []) + WithKey(xs[1..], key, k)
  }

  lemma {:induction false} WithKeyAppend<T>(a: seq<T>, b: seq<T>, key: T -> int, k: int)
    ensures WithKey(a + b, key, k) == WithKey(a, key, k) + WithKey(b, key, k)
  {
    if a != [] {
      assert (a + b)[1..] == a[1..] + b;
      WithKeyAppend(a[1..], b, key, k);
    } else {
      assert a + b == b;
    }
  }

  lemma {:induction false} WithKeyNone<T>(xs: seq<T>, key: T -> int, k: int)
    requires forall i :: 0 <= i < |xs| ==> key(xs[i]) < k
    ensures WithKey(xs, key, k) == []
  {
    if xs != [] {
      WithKeyNone(xs[1..], key, k);
    }
  }

  /** Inserting `x` keeps the elements of every key in order, `x` last among its own key. */
  lemma {:induction false} InsertDescStable<T>(ys: seq<T>, x: T, key: T -> int, k: int)
    requires SortedDesc(ys, key)
    ensures WithKey(InsertDesc(ys, x, key), key, k) ==
            WithKey(ys, key, k) + (if key(x) == k then [x] else [])
  {
    if ys == [] {
    } else if key(x) > key(ys[0]) {
      assert InsertDesc(ys, x, key) == [x] + ys;
      assert ([x] + ys)[1..] == ys;
      if key(x) == k {
        WithKeyNone(ys, key, k);
      }
    } else {
      InsertDescStable(ys[1..], x, key, k);
      var rest := InsertDesc(ys[1..], x, key);
      assert InsertDesc(ys, x, key) == [ys[0]] + rest;
      assert ([ys[0]] + rest)[1..] == rest;
    }
  }

  /** The sort is stable: the elements sharing a key keep their relative order. */
  lemma {:induction false} SortDescStable<T>(xs: seq<T>, key: T -> int, k: int)
    ensures WithKey(SortDesc(xs, key), key, k) == WithKey(xs, key, k)
  {
    if xs != [] {
      var init, last := xs[..|xs| - 1], xs[|xs| - 1];
      var sorted := SortDesc(init, key);
      assert SortDesc(xs, key) == InsertDesc(sorted, last, key);
      SortDescStable(init, key, k);
      SortDescSorted(init, key);
      InsertDescStable(sorted, last, key, k);
      assert xs == init + [last];
      WithKeyAppend(init, [last], key, k);
      assert [last][1..] == [];
      assert WithKey([last], key, k) == (if key(last) == k then [last] else []);
    }
  }

  /** `xs[:n]`. */
  function TopN<T>(xs: seq<T>, n: nat): (r: seq<T>)
    ensures |r| == if |xs| < n then |xs| else n
    ensures forall i :: 0 <= i < |r| ==> r[i] == xs[i]
  {
    if |xs| <= n then xs else xs[..n]
  }

  /** No element occurs twice. */
  predicate Distinct<T(==)>(xs: seq<T>) {
    forall i, j :: 0 <= i < j < |xs| ==> xs[i] != xs[j]
  }

  /** The first occurrence of every element, in order: the order in which a Python `set`
      filled from `xs` is taken here. */
  function Dedup<T(==,!new)>(xs: seq<T>): (r: seq<T>)
    ensures Distinct(r)
    ensures forall x :: x in r <==> x in xs
    ensures |r| <= |xs|
  {
    if xs == [] then []
    else
      var d := Dedup(xs[..|xs| - 1]);
      assert xs == xs[..|xs| - 1] + [xs[|xs| - 1]];
      if xs[|xs| - 1] in d then d else d + [xs[|xs| - 1]]
  }

  /** `sum(f(x) for x in xs)`. */
  function SumBy<T>(xs: seq<T>, f: T -> int): int {
    if xs == [] then 0 else f(xs[0]) + SumBy(xs[1..], f)
  }

  lemma {:induction false} SumByAppend<T>(a: seq<T>, b: seq<T>, f: T -> int)
    ensures SumBy(a + b, f) == SumBy(a, f) + SumBy(b, f)
  {
    if a != [] {
      assert (a + b)[1..] == a[1..] + b;
      SumByAppend(a[1..], b, f);
    } else {
      assert a + b == b;
    }
  }

  lemma {:induction false} InsertDescSum<T>(ys: seq<T>, x: T, key: T -> int, f: T -> int)
    ensures SumBy(InsertDesc(ys, x, key), f) == SumBy(ys, f) + f(x)
  {
    if ys == [] || key(x) > key(ys[0]) {
      assert ([x] + ys)[1..] == ys;
    } else {
      InsertDescSum(ys[1..], x, key, f);
      var rest := InsertDesc(ys[1..], x, key);
      assert ([ys[0]] + rest)[1..] == rest;
    }
  }

  /** Sorting does not change a sum over the elements. */
  lemma {:induction false} SortDescSum<T>(xs: seq<T>, key: T -> int, f: T -> int)
    ensures SumBy(SortDesc(xs, key), f) == SumBy(xs, f)
  {
    if xs != [] {
      var init, last := xs[..|xs| - 1], xs[|xs| - 1];
      SortDescSum(init, key, f);
      InsertDescSum(SortDesc(init, key), last, key, f);
      assert xs == init + [last];
      SumByAppend(init, [last], f);
      assert [last][1..] == [];
    }
  }

  /** The values `f` yields for the elements of `xs`, in order: a loop that appends
      `f(x)` whenever there is one. */
  function FilterMap<T, U>(xs: seq<T>, f: T -> Option<U>): seq<U> {
    if xs == [] then []
    else
      FilterMap(xs[..|xs| - 1], f) +
      (match f(xs[|xs| - 1]) case Some(y) => [y] case None => [])
  }

  /** One more step of a loop that appends `f(x)` when there is one: element `i` yields
      `y`, which goes at the end. */
  lemma FilterMapStepSome<T, U>(xs: seq<T>, i: nat, f: T -> Option<U>, y: U)
    requires i < |xs| && f(xs[i]) == Some(y)
    ensures FilterMap(xs[..i + 1], f) == FilterMap(xs[..i], f) + [y]
  {
    assert xs[..i + 1][..i] == xs[..i];
  }

  /** One more step of the same loop where element `i` yields nothing. */
  lemma FilterMapStepNone<T, U>(xs: seq<T>, i: nat, f: T -> Option<U>)
    requires i < |xs| && f(xs[i]).None?
    ensures FilterMap(xs[..i + 1], f) == FilterMap(xs[..i], f)
  {
    assert xs[..i + 1][..i] == xs[..i];
  }

  /** Every value `f` yields for an element is kept, and nothing else is. */
  lemma {:induction false} FilterMapSpec<T, U>(xs: seq<T>, f: T -> Option<U>)
    ensures forall i :: 0 <= i < |xs| && f(xs[i]).Some? ==> f(xs[i]).value in FilterMap(xs, f)
    ensures forall y :: y in FilterMap(xs, f) ==> exists i :: 0 <= i < |xs| && f(xs[i]) == Some(y)
    ensures |FilterMap(xs, f)| <= |xs|
  {
    if xs != [] {
      var init := xs[..|xs| - 1];
      FilterMapSpec(init, f);
      forall y | y in FilterMap(xs, f) ensures exists i :: 0 <= i < |xs| && f(xs[i]) == Some(y) {
        if y in FilterMap(init, f) {
          var i :| 0 <= i < |init| && f(init[i]) == Some(y);
          assert xs[i] == init[i];
        } else {
          assert f(xs[|xs| - 1]) == Some(y);
        }
      }
      forall i | 0 <= i < |xs| && f(xs[i]).Some? ensures f(xs[i]).value in FilterMap(xs, f) {
        if i < |xs| - 1 {
          assert xs[i] == init[i];
        }
      }
    }
  }

  /** The values keep the order of the elements they come from. */
  lemma {:induction false} FilterMapOrder<T, U>(xs: seq<T>, f: T -> Option<U>)
    ensures forall i, j :: 0 <= i < j < |FilterMap(xs, f)| ==>
              exists a, b :: 0 <= a < b < |xs| &&
                f(xs[a]) == Some(FilterMap(xs, f)[i]) && f(xs[b]) == Some(FilterMap(xs, f)[j])
  {
    if xs != [] {
      var init := xs[..|xs| - 1];
      var before := FilterMap(init, f);
      var r := FilterMap(xs, f);
      FilterMapOrder(init, f);
      FilterMapSpec(init, f);
      forall i, j | 0 <= i < j < |FilterMap(xs, f)|
        ensures exists a, b :: 0 <= a < b < |xs| &&
                  f(xs[a]) == Some(FilterMap(xs, f)[i]) && f(xs[b]) == Some(FilterMap(xs, f)[j])
      {
        assert r[i] == before[i];
        if j < |before| {
          assert r[j] == before[j];
          var a, b :| 0 <= a < b < |init| && f(init[a]) == Some(before[i]) && f(init[b]) == Some(before[j]);
          assert xs[a] == init[a] && xs[b] == init[b];
        } else {
          assert before[i] in before;
          var a :| 0 <= a < |init| && f(init[a]) == Some(before[i]);
          assert xs[a] == init[a];
          assert f(xs[|xs| - 1]) == Some(r[j]);
          assert 0 <= a < |xs| - 1 < |xs| && f(xs[a]) == Some(r[i]) && f(xs[|xs| - 1]) == Some(r[j]);
        }
      }
    } else {
      assert FilterMap(xs, f) == [];
    }
  }

  lemma RepeatCountsTwice<T>(ys: seq<T>, i: nat, j: nat)
    requires i < j < |ys| && ys[i] == ys[j]
    ensures multiset(ys)[ys[i]] >= 2
  {
    assert ys == ys[..j] + [ys[j]] + ys[j + 1..];
    assert ys[i] in ys[..j];
  }

  lemma DistinctCountsOnce<T>(xs: seq<T>, a: nat)
    requires Distinct(xs) && a < |xs|
    ensures multiset(xs)[xs[a]] == 1
  {
    assert xs == xs[..a] + [xs[a]] + xs[a + 1..];
    forall k | 0 <= k < a ensures xs[..a][k] != xs[a] { }
    var after := xs[a + 1..];
    forall k | 0 <= k < |after| ensures after[k] != xs[a] {
      assert after[k] == xs[a + 1 + k];
    }
  }

  /** A rearrangement of a list without repeats has no repeats. */
  lemma PermutationDistinct<T>(xs: seq<T>, ys: seq<T>)
    requires multiset(xs) == multiset(ys) && Distinct(xs)
    ensures Distinct(ys)
  {
    forall i, j | 0 <= i < j < |ys| ensures ys[i] != ys[j] {
      if ys[i] == ys[j] {
        assert ys[i] in multiset(xs);
        var a :| 0 <= a < |xs| && xs[a] == ys[i];
        RepeatCountsTwice(ys, i, j);
        DistinctCountsOnce(xs, a);
      }
    }
  }
}
