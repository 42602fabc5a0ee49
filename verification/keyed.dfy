/** Collections keyed by a derived string, with the key function left
    abstract: the set of keys of a list, the last-wins index `new Map()` builds
    when keys collide, and the sequential check-then-insert filter that
    reports each key at most once. */
module Keyed {
  import opened Seqs

  /** The keys of the elements of `xs`. */
  function KeysOf<T>(xs: seq<T>, key: T -> string): (r: set<string>)
    ensures |r| <= |xs|
  {
    if xs == [] then {} else KeysOf(xs[..|xs| - 1], key) + {key(xs[|xs| - 1])}
  }

  lemma {:induction false} KeysOfMembership<T>(xs: seq<T>, key: T -> string, k: string)
    ensures k in KeysOf(xs, key) <==> exists i :: 0 <= i < |xs| && key(xs[i]) == k
  {
    if xs != [] {
      var init := xs[..|xs| - 1];
      KeysOfMembership(init, key, k);
      if k in KeysOf(init, key) {
        var i :| 0 <= i < |init| && key(init[i]) == k;
        assert xs[i] == init[i];
      }
      if exists i :: 0 <= i < |xs| && key(xs[i]) == k {
        var i :| 0 <= i < |xs| && key(xs[i]) == k;
        if i < |xs| - 1 {
          assert init[i] == xs[i];
        }
      }
    }
  }

  lemma {:induction false} KeysOfAppend<T>(xs: seq<T>, ys: seq<T>, key: T -> string)
    ensures KeysOf(xs + ys, key) == KeysOf(xs, key) + KeysOf(ys, key)
    decreases |ys|
  {
    if ys != [] {
      var ys' := ys[..|ys| - 1];
      assert (xs + ys)[..|xs + ys| - 1] == xs + ys';
      assert (xs + ys)[|xs + ys| - 1] == ys[|ys| - 1];
      KeysOfAppend(xs, ys', key);
    } else {
      assert xs + ys == xs;
    }
  }

  lemma KeysOfCons<T>(x: T, xs: seq<T>, key: T -> string)
    ensures KeysOf([x] + xs, key) == {key(x)} + KeysOf(xs, key)
  {
    KeysOfAppend([x], xs, key);
    assert [x][..0] == [];
  }

  /** Inserting every element in order into a map keyed by `key`: the result
      holds exactly the keys of `xs`. */
  function IndexBy<T>(xs: seq<T>, key: T -> string): (m: map<string, T>)
    ensures m.Keys == KeysOf(xs, key)
  {
    if xs == [] then map[]
    else IndexBy(xs[..|xs| - 1], key)[key(xs[|xs| - 1]) := xs[|xs| - 1]]
  }

  /** On a key collision the element inserted last is the one kept. */
  lemma {:induction false} IndexByLastWins<T>(xs: seq<T>, key: T -> string, i: int)
    requires 0 <= i < |xs|
    requires forall j :: i < j < |xs| ==> key(xs[j]) != key(xs[i])
    ensures key(xs[i]) in IndexBy(xs, key)
    ensures IndexBy(xs, key)[key(xs[i])] == xs[i]
  {
    if i < |xs| - 1 {
      var init := xs[..|xs| - 1];
      assert init[i] == xs[i];
      IndexByLastWins(init, key, i);
    }
  }

  /** `seen` extended, in order, with the keys of `xs`; the elements whose
      key was absent at the moment they were checked are returned. This is
      the check-then-insert loop, in which the first occurrence of a key wins. */
  function SelectNew<T>(seen: set<string>, xs: seq<T>, key: T -> string): (r: (seq<T>, set<string>))
    ensures r.1 == seen + KeysOf(xs, key)
    ensures |r.0| <= |xs|
    decreases |xs|
  {
    if xs == [] then ([], seen)
    else
      var k := key(xs[0]);
      KeysOfCons(xs[0], xs[1..], key);
      assert [xs[0]] + xs[1..] == xs;
      if k in seen then SelectNew(seen, xs[1..], key)
      else
        var rest := SelectNew(seen + {k}, xs[1..], key);
        ([xs[0]] + rest.0, rest.1)
  }

  /** Position `i` of `xs` holds the first occurrence of a key not in `seen`. */
  predicate IsFirstNew<T>(seen: set<string>, xs: seq<T>, key: T -> string, i: int)
    requires 0 <= i < |xs|
  {
    && key(xs[i]) !in seen
    && forall j :: 0 <= j < i ==> key(xs[j]) != key(xs[i])
  }

  /** The positions that hold first occurrences of keys not in `seen`. */
  function FirstNewMask<T>(seen: set<string>, xs: seq<T>, key: T -> string): (mask: seq<bool>)
    ensures |mask| == |xs|
    ensures forall i :: 0 <= i < |xs| ==> (mask[i] <==> IsFirstNew(seen, xs, key, i))
  {
    seq(|xs|, i requires 0 <= i < |xs| => IsFirstNew(seen, xs, key, i))
  }

  /** Dropping the head shifts the mask once the head's key counts as seen. */
  lemma FirstNewMaskTail<T>(seen: set<string>, xs: seq<T>, key: T -> string)
    requires xs != []
    ensures FirstNewMask(seen, xs, key)[1..]
         == FirstNewMask(seen + {key(xs[0])}, xs[1..], key)
  {
    var m := FirstNewMask(seen, xs, key);
    var m' := FirstNewMask(seen + {key(xs[0])}, xs[1..], key);
    forall i | 0 <= i < |m'| ensures m[1..][i] == m'[i] {
      var ys := xs[1..];
      assert ys[i] == xs[i + 1];
      if m'[i] {
        forall j | 0 <= j < i + 1 ensures key(xs[j]) != key(xs[i + 1]) {
          if j > 0 { assert xs[j] == ys[j - 1]; }
        }
      }
      if m[i + 1] {
        assert key(xs[0]) != key(xs[i + 1]);
        forall j | 0 <= j < i ensures key(ys[j]) != key(ys[i]) {
          assert ys[j] == xs[j + 1];
        }
      }
    }
  }

  /** The check-then-insert loop returns exactly the first occurrences of the
      keys not already seen, in input order. */
  lemma {:induction false} SelectNewIsFirstOccurrences<T>(seen: set<string>, xs: seq<T>, key: T -> string)
    ensures SelectNew(seen, xs, key).0 == Keep(xs, FirstNewMask(seen, xs, key))
    decreases |xs|
  {
    if xs != [] {
      var k := key(xs[0]);
      var mask := FirstNewMask(seen, xs, key);
      FirstNewMaskTail(seen, xs, key);
      if k in seen {
        assert seen + {k} == seen;
        SelectNewIsFirstOccurrences(seen, xs[1..], key);
      } else {
        SelectNewIsFirstOccurrences(seen + {k}, xs[1..], key);
      }
    }
  }

  /** No element of `xs` has a key in `seen`. */
  predicate NoneIn<T>(xs: seq<T>, seen: set<string>, key: T -> string) {
    forall i :: 0 <= i < |xs| ==> key(xs[i]) !in seen
  }

  /** No two elements of `xs` share a key. */
  predicate DistinctKeys<T>(xs: seq<T>, key: T -> string) {
    forall i, j :: 0 <= i < j < |xs| ==> key(xs[i]) != key(xs[j])
  }

  /** No returned element had its key seen before, and no two returned
      elements share a key. */
  lemma {:induction false} SelectNewFresh<T>(seen: set<string>, xs: seq<T>, key: T -> string)
    ensures NoneIn(SelectNew(seen, xs, key).0, seen, key)
    ensures DistinctKeys(SelectNew(seen, xs, key).0, key)
    decreases |xs|
  {
    if xs != [] {
      var k := key(xs[0]);
      if k in seen {
        assert SelectNew(seen, xs, key).0 == SelectNew(seen, xs[1..], key).0;
        SelectNewFresh(seen, xs[1..], key);
      } else {
        SelectNewFresh(seen + {k}, xs[1..], key);
        var rest := SelectNew(seen + {k}, xs[1..], key).0;
        var out := SelectNew(seen, xs, key).0;
        assert out == [xs[0]] + rest;
        forall i | 0 <= i < |out| ensures key(out[i]) !in seen {
          if i > 0 {
            assert out[i] == rest[i - 1];
            assert key(rest[i - 1]) !in seen + {k};
          } else {
            assert out[0] == xs[0];
          }
        }
        forall i, j | 0 <= i < j < |out| ensures key(out[i]) != key(out[j]) {
          assert out[j] == rest[j - 1];
          assert key(rest[j - 1]) !in seen + {k};
          if i > 0 { assert out[i] == rest[i - 1]; }
        }
      }
    }
  }

  /** The returned elements form a subsequence of the input. */
  lemma SelectNewSubsequence<T>(seen: set<string>, xs: seq<T>, key: T -> string)
    ensures IsSubsequence(SelectNew(seen, xs, key).0, xs)
  {
    SelectNewIsFirstOccurrences(seen, xs, key);
    KeepIsSubsequence(xs, FirstNewMask(seen, xs, key));
  }

  /** Once every key of `xs` is in `seen`, nothing is new. */
  lemma {:induction false} SelectNewAllSeen<T>(seen: set<string>, xs: seq<T>, key: T -> string)
    requires KeysOf(xs, key) <= seen
    ensures SelectNew(seen, xs, key).0 == []
    decreases |xs|
  {
    if xs != [] {
      KeysOfCons(xs[0], xs[1..], key);
      assert [xs[0]] + xs[1..] == xs;
      SelectNewAllSeen(seen, xs[1..], key);
    }
  }

  /** The keys added to `seen` are exactly the keys of the returned elements. */
  lemma {:induction false} SelectNewAddsReturnedKeys<T>(seen: set<string>, xs: seq<T>, key: T -> string)
    ensures SelectNew(seen, xs, key).1 == seen + KeysOf(SelectNew(seen, xs, key).0, key)
    decreases |xs|
  {
    if xs != [] {
      var k := key(xs[0]);
      if k in seen {
        SelectNewAddsReturnedKeys(seen, xs[1..], key);
      } else {
        SelectNewAddsReturnedKeys(seen + {k}, xs[1..], key);
        KeysOfCons(xs[0], SelectNew(seen + {k}, xs[1..], key).0, key);
      }
    }
  }

  /** Elements with pairwise distinct keys have as many keys as elements. */
  lemma {:induction false} DistinctKeysCount<T>(xs: seq<T>, key: T -> string)
    requires DistinctKeys(xs, key)
    ensures |KeysOf(xs, key)| == |xs|
  {
    if xs != [] {
      var init := xs[..|xs| - 1];
      assert DistinctKeys(init, key) by {
        forall i, j | 0 <= i < j < |init| ensures key(init[i]) != key(init[j]) {
          assert init[i] == xs[i] && init[j] == xs[j];
        }
      }
      DistinctKeysCount(init, key);
      KeysOfMembership(init, key, key(xs[|xs| - 1]));
      forall i | 0 <= i < |init| ensures key(init[i]) != key(xs[|xs| - 1]) {
        assert init[i] == xs[i];
      }
    }
  }

  /** The set grows by one key per returned element. */
  lemma SelectNewCount<T>(seen: set<string>, xs: seq<T>, key: T -> string)
    ensures |SelectNew(seen, xs, key).1| == |seen| + |SelectNew(seen, xs, key).0|
  {
    var out := SelectNew(seen, xs, key).0;
    SelectNewAddsReturnedKeys(seen, xs, key);
    SelectNewFresh(seen, xs, key);
    DistinctKeysCount(out, key);
    forall k | k in KeysOf(out, key) ensures k !in seen {
      KeysOfMembership(out, key, k);
    }
    assert seen * KeysOf(out, key) == {};
  }

  /** Elements with distinct keys none of which is in `seen` all come back. */
  lemma {:induction false} SelectNewKeepsDistinct<T>(seen: set<string>, xs: seq<T>, key: T -> string)
    requires DistinctKeys(xs, key) && NoneIn(xs, seen, key)
    ensures SelectNew(seen, xs, key).0 == xs
    decreases |xs|
  {
    if xs != [] {
      var k := key(xs[0]);
      var tl := xs[1..];
      assert DistinctKeys(tl, key) by {
        forall i, j | 0 <= i < j < |tl| ensures key(tl[i]) != key(tl[j]) {
          assert tl[i] == xs[i + 1] && tl[j] == xs[j + 1];
        }
      }
      assert NoneIn(tl, seen + {k}, key) by {
        forall i | 0 <= i < |tl| ensures key(tl[i]) !in seen + {k} {
          assert tl[i] == xs[i + 1];
        }
      }
      SelectNewKeepsDistinct(seen + {k}, tl, key);
      assert [xs[0]] + tl == xs;
    }
  }
}
