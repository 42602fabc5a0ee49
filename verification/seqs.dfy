/** Sequence vocabulary shared by the model: subsequences, selection by a
    mask, the page ranges `1..n` that `Array.from({length: n}, (_, i) => i + 1)`
    builds, and the sorted de-duplication `Array.from(new Set(xs)).sort()`. */
module Seqs {
  import opened Wrappers

  /** `xs` is `ys` with some elements left out, order kept. */
  predicate IsSubsequence<T(==)>(xs: seq<T>, ys: seq<T>)
    decreases |ys|
  {
    if xs == [] then true
    else if ys == [] then false
    else if xs[0] == ys[0] then IsSubsequence(xs[1..], ys[1..])
    else IsSubsequence(xs, ys[1..])
  }

  /** The elements of `xs` at the positions where `mask` is true, in order. */
  function Keep<T>(xs: seq<T>, mask: seq<bool>): (r: seq<T>)
    requires |mask| == |xs|
    ensures |r| <= |xs|
  {
    if xs == [] then []
    else (if mask[0] then [xs[0]] else []) + Keep(xs[1..], mask[1..])
  }

  /** An all-true mask keeps everything. */
  lemma {:induction false} KeepAll<T>(xs: seq<T>, mask: seq<bool>)
    requires |mask| == |xs|
    requires forall i :: 0 <= i < |mask| ==> mask[i]
    ensures Keep(xs, mask) == xs
  {
    if xs != [] {
      KeepAll(xs[1..], mask[1..]);
      assert [xs[0]] + xs[1..] == xs;
    }
  }

  lemma {:induction false} KeepIsSubsequence<T>(xs: seq<T>, mask: seq<bool>)
    requires |mask| == |xs|
    ensures IsSubsequence(Keep(xs, mask), xs)
  {
    if xs != [] {
      var rest := Keep(xs[1..], mask[1..]);
      KeepIsSubsequence(xs[1..], mask[1..]);
      if mask[0] {
        assert Keep(xs, mask) == [xs[0]] + rest;
        assert ([xs[0]] + rest)[1..] == rest;
      } else {
        assert Keep(xs, mask) == rest;
        SubsequenceDropHead(rest, xs);
      }
    }
  }

  lemma {:induction false} SubsequenceDropHead<T>(xs: seq<T>, ys: seq<T>)
    requires ys != [] && IsSubsequence(xs, ys[1..])
    ensures IsSubsequence(xs, ys)
    decreases |ys|, 0
  {
    if xs != [] && xs[0] == ys[0] {
      // xs[1..] is a subsequence of ys[1..] because xs is.
      SubsequenceTail(xs, ys[1..]);
    }
  }

  lemma {:induction false} SubsequenceTail<T>(xs: seq<T>, ys: seq<T>)
    requires xs != [] && IsSubsequence(xs, ys)
    ensures IsSubsequence(xs[1..], ys)
    decreases |ys|, 1
  {
    assert ys != [];
    if xs[0] == ys[0] {
      SubsequenceDropHead(xs[1..], ys);
    } else {
      SubsequenceTail(xs, ys[1..]);
      SubsequenceDropHead(xs[1..], ys);
    }
  }

  /** Every element of a subsequence occurs in the whole. */
  lemma {:induction false} SubsequenceElements<T>(xs: seq<T>, ys: seq<T>)
    requires IsSubsequence(xs, ys)
    ensures forall x :: x in xs ==> x in ys
    decreases |ys|
  {
    if xs != [] {
      if xs[0] == ys[0] {
        SubsequenceElements(xs[1..], ys[1..]);
        assert forall x :: x in xs ==> x == xs[0] || x in xs[1..];
      } else {
        SubsequenceElements(xs, ys[1..]);
      }
    }
  }

  /** `[1, 2, ..., n]`, empty when `n < 1`. */
  function RangeFrom1(n: int): (r: seq<int>)
    ensures |r| == if n < 0 then 0 else n
    ensures forall i :: 0 <= i < |r| ==> r[i] == i + 1
  {
    if n <= 0 then [] else seq(n, i => i + 1)
  }

  predicate StrictlyIncreasing(xs: seq<int>) {
    forall i, j :: 0 <= i < j < |xs| ==> xs[i] < xs[j]
  }

  lemma RangeFrom1Properties(n: int)
    ensures StrictlyIncreasing(RangeFrom1(n))
    ensures forall v :: v in RangeFrom1(n) <==> 1 <= v <= n
  {
    var r := RangeFrom1(n);
    forall v | 1 <= v <= n ensures v in r {
      assert r[v - 1] == v;
    }
  }

  /** Inserts `x` into a strictly increasing sequence unless it is already
      there. */
  function InsertUnique(x: int, ys: seq<int>): (r: seq<int>)
    requires StrictlyIncreasing(ys)
    ensures StrictlyIncreasing(r)
    ensures forall v :: v in r <==> v == x || v in ys
  {
    if ys == [] then [x]
    else if x < ys[0] then [x] + ys
    else if x == ys[0] then ys
    else
      var rest := InsertUnique(x, ys[1..]);
      assert forall v :: v in ys <==> v == ys[0] || v in ys[1..];
      assert forall v :: v in rest ==> ys[0] < v;
      assert forall j :: 0 <= j < |rest| ==> rest[j] in rest;
      [ys[0]] + rest
  }

  /** `Array.from(new Set(xs)).sort((a, b) => a - b)`: the distinct values of
      `xs` in ascending order. */
  function SortDedup(xs: seq<int>): (r: seq<int>)
    ensures StrictlyIncreasing(r)
    ensures forall v :: v in r <==> v in xs
  {
    if xs == [] then []
    else
      assert forall v :: v in xs <==> v == xs[0] || v in xs[1..];
      InsertUnique(xs[0], SortDedup(xs[1..]))
  }

  /** A strictly increasing sequence is determined by its elements. */
  lemma {:induction false} StrictlyIncreasingUnique(xs: seq<int>, ys: seq<int>)
    requires StrictlyIncreasing(xs) && StrictlyIncreasing(ys)
    requires forall v :: v in xs <==> v in ys
    ensures xs == ys
    decreases |xs|
  {
    if xs != [] {
      assert xs[0] in xs;
      assert ys != [] by { assert xs[0] in ys; }
      assert ys[0] in ys;
      // The heads are the least elements of the same set.
      var k :| 0 <= k < |ys| && ys[k] == xs[0];
      assert ys[0] <= xs[0];
      var m :| 0 <= m < |xs| && xs[m] == ys[0];
      assert xs[0] <= ys[0];
      forall v ensures v in xs[1..] <==> v in ys[1..] {
        if v in xs[1..] {
          var k :| 0 <= k < |xs| - 1 && xs[1..][k] == v;
          assert xs[k + 1] == v && v != ys[0] && v in xs;
          assert v in ys;
          var m :| 0 <= m < |ys| && ys[m] == v;
          assert ys[1..][m - 1] == v;
        }
        if v in ys[1..] {
          var k :| 0 <= k < |ys| - 1 && ys[1..][k] == v;
          assert ys[k + 1] == v && v != xs[0] && v in ys;
          assert v in xs;
          var m :| 0 <= m < |xs| && xs[m] == v;
          assert xs[1..][m - 1] == v;
        }
      }
      StrictlyIncreasingUnique(xs[1..], ys[1..]);
    } else {
      if ys != [] {
        HeadIsElement(ys);
        assert false;
      }
    }
  }

  lemma HeadIsElement<T>(ys: seq<T>)
    requires ys != []
    ensures ys[0] in ys
  {
  }

  /** Position of the first element satisfying `p`. */
  function FirstIndex<T>(xs: seq<T>, p: T -> bool): (r: Option<nat>)
    ensures r.Some? ==> r.value < |xs| && p(xs[r.value])
    ensures r.Some? ==> forall j :: 0 <= j < r.value ==> !p(xs[j])
    ensures r.None? ==> forall j :: 0 <= j < |xs| ==> !p(xs[j])
  {
    if xs == [] then None
    else if p(xs[0]) then Some(0)
    else
      match FirstIndex(xs[1..], p)
      case None => None
      case Some(i) => Some(i + 1)
  }

  /** `f` applied to every element, the absent results dropped, order kept. */
  function FilterMap<A, B>(xs: seq<A>, f: A -> Option<B>): (r: seq<B>)
    ensures |r| <= |xs|
  {
    if xs == [] then []
    else (match f(xs[0]) case Some(y) => [y] case None => []) + FilterMap(xs[1..], f)
  }

  /** Where `f` has a result. */
  function DefinedMask<A, B>(xs: seq<A>, f: A -> Option<B>): (r: seq<bool>)
    ensures |r| == |xs|
    ensures forall i :: 0 <= i < |xs| ==> r[i] == f(xs[i]).Some?
  {
    seq(|xs|, i requires 0 <= i < |xs| => f(xs[i]).Some?)
  }

  lemma {:induction false} FilterMapAppend<A, B>(a: seq<A>, b: seq<A>, f: A -> Option<B>)
    ensures FilterMap(a + b, f) == FilterMap(a, f) + FilterMap(b, f)
  {
    if a != [] {
      assert (a + b)[1..] == a[1..] + b;
      assert (a + b)[0] == a[0];
      FilterMapAppend(a[1..], b, f);
      var head: seq<B> := match f(a[0]) case Some(y) => [y] case None => [];
      assert FilterMap(a + b, f) == head + FilterMap(a[1..] + b, f);
      assert FilterMap(a, f) == head + FilterMap(a[1..], f);
      assert head + (FilterMap(a[1..], f) + FilterMap(b, f)) == (head + FilterMap(a[1..], f)) + FilterMap(b, f);
    } else {
      assert a + b == b;
    }
  }

  /** The results are those of the kept elements, one for one and in order. */
  lemma {:induction false} FilterMapIsKeep<A, B>(xs: seq<A>, f: A -> Option<B>)
    ensures var kept := Keep(xs, DefinedMask(xs, f));
      && |FilterMap(xs, f)| == |kept|
      && forall i :: 0 <= i < |kept| ==> f(kept[i]) == Some(FilterMap(xs, f)[i])
  {
    if xs != [] {
      assert DefinedMask(xs, f)[1..] == DefinedMask(xs[1..], f);
      FilterMapIsKeep(xs[1..], f);
      var kept := Keep(xs, DefinedMask(xs, f));
      var rest := Keep(xs[1..], DefinedMask(xs[1..], f));
      var out := FilterMap(xs, f);
      var tail := FilterMap(xs[1..], f);
      if f(xs[0]).Some? {
        assert kept == [xs[0]] + rest && out == [f(xs[0]).value] + tail;
        forall i | 1 <= i < |kept| ensures f(kept[i]) == Some(out[i]) {
          assert kept[i] == rest[i - 1] && out[i] == tail[i - 1];
        }
      } else {
        assert kept == rest && out == tail;
      }
    }
  }

  /** A value is a result iff some element maps to it. */
  lemma {:induction false} FilterMapMembership<A, B>(xs: seq<A>, f: A -> Option<B>, y: B)
    ensures y in FilterMap(xs, f) <==> exists i :: 0 <= i < |xs| && f(xs[i]) == Some(y)
  {
    if xs != [] {
      FilterMapMembership(xs[1..], f, y);
      if exists i :: 0 <= i < |xs| && f(xs[i]) == Some(y) {
        var i :| 0 <= i < |xs| && f(xs[i]) == Some(y);
        if i > 0 { assert xs[1..][i - 1] == xs[i]; }
      }
      if exists i :: 0 <= i < |xs[1..]| && f(xs[1..][i]) == Some(y) {
        var i :| 0 <= i < |xs[1..]| && f(xs[1..][i]) == Some(y);
        assert xs[i + 1] == xs[1..][i];
      }
    }
  }
}
