/** Keep-first deduplication by a key: the harvester's "seen identifier" set
    and pandas' `drop_duplicates(subset=..., keep='first')` both keep the
    first element of each key, in their original order. */
module Dedup {

  function Keys<T, K>(xs: seq<T>, key: T -> K): set<K> {
    set i | 0 <= i < |xs| :: key(xs[i])
  }

  predicate DistinctKeys<T, K(==)>(xs: seq<T>, key: T -> K) {
    forall i, j :: 0 <= i < j < |xs| ==> key(xs[i]) != key(xs[j])
  }

  /** `xs[i]` is the first element with its key. */
  predicate IsFirst<T, K(==)>(xs: seq<T>, key: T -> K, i: int)
    requires 0 <= i < |xs|
  {
    forall j :: 0 <= j < i ==> key(xs[j]) != key(xs[i])
  }

  /** Scanning left to right, an element is kept when no kept element has
      its key yet. */
  function KeepFirst<T, K(==)>(xs: seq<T>, key: T -> K): (r: seq<T>)
    ensures |r| <= |xs|
    decreases |xs|
  {
    if |xs| == 0 then []
    else
      var kept := KeepFirst(xs[..|xs| - 1], key);
      if key(xs[|xs| - 1]) in Keys(kept, key) then kept else kept + [xs[|xs| - 1]]
  }

  /** Reference definition: the elements of `xs[..n]` that are the first of
      their key, in order. */
  function Firsts<T, K(==)>(xs: seq<T>, key: T -> K, n: nat): seq<T>
    requires n <= |xs|
  {
    if n == 0 then []
    else Firsts(xs, key, n - 1) + (if IsFirst(xs, key, n - 1) then [xs[n - 1]] else [])
  }

  lemma KeysAppend<T, K>(xs: seq<T>, x: T, key: T -> K)
    ensures Keys(xs + [x], key) == Keys(xs, key) + {key(x)}
  {
    var ys := xs + [x];
    forall k | k in Keys(ys, key)
      ensures k in Keys(xs, key) + {key(x)}
    {
      var i :| 0 <= i < |ys| && key(ys[i]) == k;
      if i < |xs| {
        assert ys[i] == xs[i];
      }
    }
    forall k | k in Keys(xs, key)
      ensures k in Keys(ys, key)
    {
      var i :| 0 <= i < |xs| && key(xs[i]) == k;
      assert ys[i] == xs[i];
    }
    assert ys[|xs|] == x;
  }

  /** Every key of the input survives, and no other. */
  lemma {:induction false} KeepFirstKeys<T, K>(xs: seq<T>, key: T -> K)
    ensures Keys(KeepFirst(xs, key), key) == Keys(xs, key)
    decreases |xs|
  {
    if |xs| > 0 {
      var init := xs[..|xs| - 1];
      var x := xs[|xs| - 1];
      KeepFirstKeys(init, key);
      var kept := KeepFirst(init, key);
      assert xs == init + [x];
      KeysAppend(init, x, key);
      if key(x) !in Keys(kept, key) {
        KeysAppend(kept, x, key);
      }
    }
  }

  /** No two kept elements share a key. */
  lemma {:induction false} KeepFirstDistinct<T, K>(xs: seq<T>, key: T -> K)
    ensures DistinctKeys(KeepFirst(xs, key), key)
    decreases |xs|
  {
    if |xs| > 0 {
      var init := xs[..|xs| - 1];
      var x := xs[|xs| - 1];
      KeepFirstDistinct(init, key);
      var kept := KeepFirst(init, key);
      if key(x) !in Keys(kept, key) {
        var r := kept + [x];
        forall i, j | 0 <= i < j < |r|
          ensures key(r[i]) != key(r[j])
        {
          if j == |kept| {
            assert r[i] == kept[i];
            assert key(kept[i]) in Keys(kept, key);
          } else {
            assert r[i] == kept[i] && r[j] == kept[j];
          }
        }
      }
    }
  }

  /** The scan keeps exactly the first element of each key: it agrees with
      the reference definition. */
  lemma {:induction false} KeepFirstIsFirsts<T, K>(xs: seq<T>, key: T -> K)
    ensures KeepFirst(xs, key) == Firsts(xs, key, |xs|)
    decreases |xs|
  {
    if |xs| > 0 {
      var n := |xs|;
      var init := xs[..n - 1];
      KeepFirstIsFirsts(init, key);
      FirstsPrefix(xs, key, n - 1);
      KeepFirstKeys(init, key);
      var x := xs[n - 1];
      assert key(x) in Keys(init, key) <==> !IsFirst(xs, key, n - 1) by {
        if key(x) in Keys(init, key) {
          var j :| 0 <= j < |init| && key(init[j]) == key(x);
          assert xs[j] == init[j];
        }
        if !IsFirst(xs, key, n - 1) {
          var j :| 0 <= j < n - 1 && key(xs[j]) == key(x);
          assert init[j] == xs[j];
        }
      }
    }
  }

  /** The reference definition on a prefix depends only on that prefix. */
  lemma {:induction false} FirstsPrefix<T, K>(xs: seq<T>, key: T -> K, n: nat)
    requires n <= |xs|
    ensures Firsts(xs[..n], key, n) == Firsts(xs, key, n)
    decreases n
  {
    if n > 0 {
      FirstsPrefix(xs, key, n - 1);
      assert xs[..n][..n - 1] == xs[..n - 1];
      FirstsPrefix(xs[..n], key, n - 1);
      assert IsFirst(xs[..n], key, n - 1) <==> IsFirst(xs, key, n - 1) by {
        assert forall j :: 0 <= j < n ==> xs[..n][j] == xs[j];
      }
    }
  }

  /** Every kept element comes from the input, and the first element of each
      key is kept. */
  lemma KeepFirstMembers<T, K>(xs: seq<T>, key: T -> K)
    ensures forall x :: x in KeepFirst(xs, key) ==> x in xs
    ensures forall i :: 0 <= i < |xs| && IsFirst(xs, key, i) ==> xs[i] in KeepFirst(xs, key)
  {
    KeepFirstIsFirsts(xs, key);
    FirstsMembers(xs, key, |xs|);
  }

  lemma {:induction false} FirstsMembers<T, K>(xs: seq<T>, key: T -> K, n: nat)
    requires n <= |xs|
    ensures forall x :: x in Firsts(xs, key, n) ==> x in xs[..n]
    ensures forall i :: 0 <= i < n && IsFirst(xs, key, i) ==> xs[i] in Firsts(xs, key, n)
    decreases n
  {
    if n > 0 {
      FirstsMembers(xs, key, n - 1);
      assert xs[..n] == xs[..n - 1] + [xs[n - 1]];
    }
  }

  /** An input that already has distinct keys is kept whole. */
  lemma {:induction false} KeepFirstOfDistinct<T, K>(xs: seq<T>, key: T -> K)
    requires DistinctKeys(xs, key)
    ensures KeepFirst(xs, key) == xs
    decreases |xs|
  {
    if |xs| > 0 {
      var init := xs[..|xs| - 1];
      KeepFirstOfDistinct(init, key);
      assert key(xs[|xs| - 1]) !in Keys(init, key);
      assert init + [xs[|xs| - 1]] == xs;
    }
  }

  /** `g` applied to every element. */
  function MapSeq<T, U>(xs: seq<T>, g: T -> U): (r: seq<U>)
    ensures |r| == |xs| && forall i :: 0 <= i < |xs| ==> r[i] == g(xs[i])
  {
    seq(|xs|, i requires 0 <= i < |xs| => g(xs[i]))
  }

  /** Every element of the mapped deduplication is the image of an input
      element, and the image of the first element of each key is among them. */
  lemma MapKeepFirstMembers<T, U, K>(xs: seq<T>, key: T -> K, g: T -> U)
    ensures forall i :: 0 <= i < |MapSeq(KeepFirst(xs, key), g)| ==>
      exists j :: 0 <= j < |xs| && MapSeq(KeepFirst(xs, key), g)[i] == g(xs[j])
    ensures forall j :: 0 <= j < |xs| && IsFirst(xs, key, j) ==> g(xs[j]) in MapSeq(KeepFirst(xs, key), g)
  {
    var kept := KeepFirst(xs, key);
    var out := MapSeq(kept, g);
    KeepFirstMembers(xs, key);
    forall i | 0 <= i < |out|
      ensures exists j :: 0 <= j < |xs| && out[i] == g(xs[j])
    {
      assert kept[i] in xs;
      var j :| 0 <= j < |xs| && xs[j] == kept[i];
      assert out[i] == g(xs[j]);
    }
    forall j | 0 <= j < |xs| && IsFirst(xs, key, j)
      ensures g(xs[j]) in out
    {
      var i :| 0 <= i < |kept| && kept[i] == xs[j];
      assert out[i] == g(kept[i]);
    }
  }

  lemma KeysMap<T, U, K>(xs: seq<T>, g: T -> U, key: T -> K, mappedKey: U -> K)
    requires forall x :: mappedKey(g(x)) == key(x)
    ensures Keys(MapSeq(xs, g), mappedKey) == Keys(xs, key)
  {
    var ys := MapSeq(xs, g);
    forall k | k in Keys(xs, key)
      ensures k in Keys(ys, mappedKey)
    {
      var i :| 0 <= i < |xs| && key(xs[i]) == k;
      assert mappedKey(ys[i]) == k;
    }
  }

  /** Deduplicating after a map that keeps every key is mapping after
      deduplicating. */
  lemma {:induction false} KeepFirstMap<T, U, K>(xs: seq<T>, g: T -> U, key: T -> K, mappedKey: U -> K)
    requires forall x :: mappedKey(g(x)) == key(x)
    ensures KeepFirst(MapSeq(xs, g), mappedKey) == MapSeq(KeepFirst(xs, key), g)
    decreases |xs|
  {
    if |xs| > 0 {
      var n := |xs|;
      var init := xs[..n - 1];
      var ys := MapSeq(xs, g);
      assert ys[..n - 1] == MapSeq(init, g);
      KeepFirstMap(init, g, key, mappedKey);
      var kept := KeepFirst(init, key);
      KeysMap(kept, g, key, mappedKey);
      assert mappedKey(ys[n - 1]) == key(xs[n - 1]);
      if key(xs[n - 1]) !in Keys(kept, key) {
        assert MapSeq(kept + [xs[n - 1]], g) == MapSeq(kept, g) + [g(xs[n - 1])];
      }
    }
  }

  /** Distinct keys stay distinct under a map that keeps every key. */
  lemma DistinctMap<T, U, K>(xs: seq<T>, g: T -> U, key: T -> K, mappedKey: U -> K)
    requires forall x :: mappedKey(g(x)) == key(x)
    requires DistinctKeys(xs, key)
    ensures DistinctKeys(MapSeq(xs, g), mappedKey)
  {
    var ys := MapSeq(xs, g);
    forall i, j | 0 <= i < j < |ys|
      ensures mappedKey(ys[i]) != mappedKey(ys[j])
    {
      assert mappedKey(ys[i]) == key(xs[i]) && mappedKey(ys[j]) == key(xs[j]);
    }
  }

  /** Mapping twice is mapping by the composition. */
  lemma MapSeqCompose<T, U, V>(xs: seq<T>, g: T -> U, h: U -> V, k: T -> V)
    requires forall x :: h(g(x)) == k(x)
    ensures MapSeq(MapSeq(xs, g), h) == MapSeq(xs, k)
  {
  }
}
