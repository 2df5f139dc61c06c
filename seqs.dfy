/**
 * The list operations the page components build their new state from:
 * `filter` by position or by a test, `map` replacing one position or every
 * match, and the first-occurrence de-duplication of `[...new Set(xs)]`.
 */
module Seqs {

  /** `xs.filter((_, i) => i !== index)`: the list without position `index`; any other index removes nothing. */
  function RemoveAt<T>(xs: seq<T>, index: int): (ys: seq<T>)
    ensures |ys| == if 0 <= index < |xs| then |xs| - 1 else |xs|
    ensures forall m :: 0 <= m < |ys| && m < index ==> ys[m] == xs[m]
    ensures 0 <= index ==> forall m :: index <= m < |ys| ==> ys[m] == xs[m + 1]
    ensures !(0 <= index < |xs|) ==> ys == xs
  {
    if 0 <= index < |xs| then xs[..index] + xs[index + 1..] else xs
  }

  /** Removing a position undoes inserting there. */
  lemma RemoveInserted<T>(xs: seq<T>, index: nat, x: T)
    requires index <= |xs|
    ensures RemoveAt(xs[..index] + [x] + xs[index..], index) == xs
  {
    var ys := RemoveAt(xs[..index] + [x] + xs[index..], index);
    assert |ys| == |xs|;
    forall m | 0 <= m < |xs| ensures ys[m] == xs[m] {
      if m >= index {
        assert ys[m] == (xs[..index] + [x] + xs[index..])[m + 1];
      }
    }
  }

  /** `xs.map((y, i) => i === index ? x : y)`: same length, only position `index` changes. */
  function ReplaceAt<T>(xs: seq<T>, index: int, x: T): (ys: seq<T>)
    ensures |ys| == |xs|
    ensures forall m :: 0 <= m < |xs| ==> ys[m] == if m == index then x else xs[m]
  {
    if 0 <= index < |xs| then xs[index := x] else xs
  }

  /** `xs.map(y => test(y) ? x : y)`: every element that passes the test is replaced. */
  function ReplaceWhere<T>(xs: seq<T>, test: T -> bool, x: T): (ys: seq<T>)
    ensures |ys| == |xs|
    ensures forall m :: 0 <= m < |xs| ==> ys[m] == if test(xs[m]) then x else xs[m]
  {
    seq(|xs|, m requires 0 <= m < |xs| => if test(xs[m]) then x else xs[m])
  }

  /** `xs.filter(keep)`. */
  function Filter<T>(xs: seq<T>, keep: T -> bool): seq<T>
    decreases |xs|
  {
    if xs == [] then []
    else if keep(xs[0]) then [xs[0]] + Filter(xs[1..], keep)
    else Filter(xs[1..], keep)
  }

  /** When `keep` holds exactly on the first `n` elements, filtering keeps exactly those. */
  lemma {:induction false} FilterPrefix<T>(xs: seq<T>, keep: T -> bool, n: nat)
    requires n <= |xs|
    requires forall i :: 0 <= i < |xs| ==> (keep(xs[i]) <==> i < n)
    ensures Filter(xs, keep) == xs[..n]
    decreases |xs|
  {
    if xs != [] {
      var m := if n > 0 then n - 1 else 0;
      forall i | 0 <= i < |xs[1..]| ensures keep(xs[1..][i]) <==> i < m {
        assert xs[1..][i] == xs[i + 1];
      }
      FilterPrefix(xs[1..], keep, m);
      if n > 0 {
        assert xs[..n] == [xs[0]] + xs[1..][..m];
      }
    }
  }

  /** `ys` is `xs` with some elements left out, the rest kept in their order. */
  predicate Subsequence<T(==)>(ys: seq<T>, xs: seq<T>)
    decreases |xs|
  {
    ys == [] || (xs != [] && ((ys[0] == xs[0] && Subsequence(ys[1..], xs[1..])) || Subsequence(ys, xs[1..])))
  }

  /**
   * What `filter` keeps: an in-order selection of the list, holding every
   * element that passes as often as the list does, and no element that fails.
   */
  lemma {:induction false} FilterSpec<T>(xs: seq<T>, keep: T -> bool)
    ensures Subsequence(Filter(xs, keep), xs)
    ensures forall x :: multiset(Filter(xs, keep))[x] == if keep(x) then multiset(xs)[x] else 0
    ensures forall x :: x in Filter(xs, keep) <==> x in xs && keep(x)
    decreases |xs|
  {
    var ys := Filter(xs, keep);
    if xs != [] {
      FilterSpec(xs[1..], keep);
      assert xs == [xs[0]] + xs[1..];
      assert multiset(xs) == multiset{xs[0]} + multiset(xs[1..]);
      if keep(xs[0]) {
        assert ys[0] == xs[0] && ys[1..] == Filter(xs[1..], keep);
        assert multiset(ys) == multiset{xs[0]} + multiset(Filter(xs[1..], keep));
      }
      forall x ensures x in ys <==> x in xs && keep(x) {
        assert x in ys <==> multiset(ys)[x] > 0;
        assert x in xs <==> multiset(xs)[x] > 0;
      }
    }
  }

  /** A list whose every element passes is kept whole. */
  lemma {:induction false} FilterAll<T>(xs: seq<T>, keep: T -> bool)
    requires forall x :: x in xs ==> keep(x)
    ensures Filter(xs, keep) == xs
    decreases |xs|
  {
    if xs != [] {
      FilterAll(xs[1..], keep);
      assert [xs[0]] + xs[1..] == xs;
    }
  }

  /** No element occurs twice. */
  predicate NoDuplicates<T(==)>(xs: seq<T>) {
    forall i, j :: 0 <= i < j < |xs| ==> xs[i] != xs[j]
  }

  /** The position where `x` first occurs in `xs`. */
  function FirstIndex<T(==)>(xs: seq<T>, x: T): (i: nat)
    requires x in xs
    ensures i < |xs| && xs[i] == x && x !in xs[..i]
    decreases |xs|
  {
    if xs[0] == x then 0
    else
      var i := FirstIndex(xs[1..], x);
      assert xs[1..][..i] == xs[1..i + 1];
      1 + i
  }

  /** Only one position is the first occurrence. */
  lemma FirstIndexUnique<T>(xs: seq<T>, x: T, i: nat)
    requires i < |xs| && xs[i] == x && x !in xs[..i]
    ensures FirstIndex(xs, x) == i
  {
    var f := FirstIndex(xs, x);
    assert forall m :: 0 <= m < i ==> xs[..i][m] == xs[m];
    assert forall m :: 0 <= m < f ==> xs[..f][m] == xs[m];
  }

  /**
   * `[...new Set(xs)]`: a `Set` iterates in insertion order and ignores
   * repeated insertions, so each element is kept where it first occurs.
   */
  function Distinct<T(==)>(xs: seq<T>): seq<T>
    decreases |xs|
  {
    if xs == [] then []
    else
      var d := Distinct(xs[..|xs| - 1]);
      if xs[|xs| - 1] in d then d else d + [xs[|xs| - 1]]
  }

  /** Every element of the list, once each, in the order of first occurrence. */
  lemma {:induction false} DistinctSpec<T>(xs: seq<T>)
    ensures forall x :: x in Distinct(xs) <==> x in xs
    ensures NoDuplicates(Distinct(xs))
    ensures forall i, j :: 0 <= i < j < |Distinct(xs)| ==>
      FirstIndex(xs, Distinct(xs)[i]) < FirstIndex(xs, Distinct(xs)[j])
    decreases |xs|
  {
    if xs != [] {
      var n := |xs| - 1;
      var init, last := xs[..n], xs[n];
      assert xs == init + [last];
      DistinctSpec(init);
      var d := Distinct(xs);
      var e := Distinct(init);
      forall x | x in init ensures FirstIndex(xs, x) == FirstIndex(init, x) {
        var f := FirstIndex(init, x);
        assert init[..f] == xs[..f];
        FirstIndexUnique(xs, x, f);
      }
      if last !in e {
        assert last !in xs[..n];
        FirstIndexUnique(xs, last, n);
        forall i, j | 0 <= i < j < |d| ensures FirstIndex(xs, d[i]) < FirstIndex(xs, d[j]) {
          if j < |e| {
            assert d[i] == e[i] && d[j] == e[j];
          } else {
            assert d[j] == last && d[i] == e[i];
          }
        }
      }
    }
  }
}
