/**
 Building a map from a list, the way a Python dict comprehension
 `{key(x): x for x in xs}` does: the elements are inserted in list order,
 so an element whose key was already seen silently replaces the earlier
 one. Nothing fails on a duplicate key.
 */
module Index {

  /** The set of keys the elements of `xs` carry. */
  function KeysOf<K, V>(xs: seq<V>, key: V -> K): set<K>
  {
    set i | 0 <= i < |xs| :: key(xs[i])
  }

  /** `xs[i]` is the last element of `xs` that carries its key. */
  predicate LastWithKey<K(==), V>(xs: seq<V>, key: V -> K, i: int)
  {
    && 0 <= i < |xs|
    && forall j :: i < j < |xs| ==> key(xs[j]) != key(xs[i])
  }

  /** No two elements of `xs` carry the same key. */
  predicate DistinctKeys<K(==), V>(xs: seq<V>, key: V -> K)
  {
    forall i, j :: 0 <= i < j < |xs| ==> key(xs[i]) != key(xs[j])
  }

  /** The dict comprehension: insert every element under its key, in order. */
  function IndexBy<K(==), V>(xs: seq<V>, key: V -> K): (m: map<K, V>)
    ensures m.Keys == KeysOf(xs, key)
    ensures forall i {:trigger LastWithKey(xs, key, i)} :: LastWithKey(xs, key, i) ==> m[key(xs[i])] == xs[i]
    ensures forall k :: k in m ==> key(m[k]) == k
    ensures forall k :: k in m ==> m[k] in xs
  {
    if |xs| == 0 then map[]
    else
      var init := xs[..|xs| - 1];
      var last := xs[|xs| - 1];
      var m0 := IndexBy(init, key);
      assert forall i :: LastWithKey(xs, key, i) && i < |xs| - 1 ==> LastWithKey(init, key, i);
      assert KeysOf(xs, key) == KeysOf(init, key) + {key(last)} by {
        forall k | k in KeysOf(xs, key) ensures k in KeysOf(init, key) + {key(last)} {
          var i :| 0 <= i < |xs| && key(xs[i]) == k;
          if i < |xs| - 1 {
            assert init[i] == xs[i];
          }
        }
      }
      m0[key(last) := last]
  }

  /** The map never has more entries than the list has elements. */
  lemma {:induction false} IndexBySize<K, V>(xs: seq<V>, key: V -> K)
    ensures |IndexBy(xs, key)| <= |xs|
  {
    if |xs| > 0 {
      IndexBySize(xs[..|xs| - 1], key);
    }
  }

  /** With distinct keys nothing is overwritten: every element is found
      under its own key and the map is as large as the list. */
  lemma {:induction false} DistinctKeysKeepAll<K, V>(xs: seq<V>, key: V -> K)
    requires DistinctKeys(xs, key)
    ensures |IndexBy(xs, key)| == |xs|
    ensures forall i :: 0 <= i < |xs| ==> IndexBy(xs, key)[key(xs[i])] == xs[i]
  {
    if |xs| > 0 {
      var init := xs[..|xs| - 1];
      assert DistinctKeys(init, key);
      DistinctKeysKeepAll(init, key);
      assert key(xs[|xs| - 1]) !in IndexBy(init, key);
      forall i | 0 <= i < |xs|
        ensures IndexBy(xs, key)[key(xs[i])] == xs[i]
      {
        assert LastWithKey(xs, key, i);
      }
    }
  }

  /** A repeated key is not an error: the last element carrying it, which
      comes at or after the repetition, wins and the earlier one is dropped,
      so the map is strictly smaller than the list. */
  lemma {:induction false} DuplicateKeyOverwrites<K, V>(xs: seq<V>, key: V -> K, i: int, j: int)
    requires 0 <= i < j < |xs| && key(xs[i]) == key(xs[j])
    ensures key(xs[i]) in IndexBy(xs, key)
    ensures exists k ::
      && j <= k
      && LastWithKey(xs, key, k)
      && key(xs[k]) == key(xs[i])
      && IndexBy(xs, key)[key(xs[i])] == xs[k]
    ensures |IndexBy(xs, key)| < |xs|
  {
    var init := xs[..|xs| - 1];
    var last := xs[|xs| - 1];
    if j == |xs| - 1 {
      assert LastWithKey(xs, key, |xs| - 1);
      assert IndexBy(xs, key)[key(xs[i])] == xs[|xs| - 1];
      assert init[i] == xs[i];
      assert key(last) in IndexBy(init, key);
      assert IndexBy(xs, key).Keys == IndexBy(init, key).Keys;
      IndexBySize(init, key);
    } else {
      assert init[i] == xs[i] && init[j] == xs[j];
      DuplicateKeyOverwrites(init, key, i, j);
      if key(last) == key(xs[i]) {
        assert LastWithKey(xs, key, |xs| - 1);
        assert IndexBy(xs, key)[key(xs[i])] == xs[|xs| - 1];
      } else {
        var k :| && j <= k && LastWithKey(init, key, k) && key(init[k]) == key(xs[i])
                 && IndexBy(init, key)[key(xs[i])] == init[k];
        LastWithKeyExtends(xs, key, k);
        assert IndexBy(xs, key)[key(xs[i])] == xs[k];
      }
    }
  }

  /** Appending an element with a different key keeps an element last for
      its key. */
  lemma LastWithKeyExtends<K, V>(xs: seq<V>, key: V -> K, k: int)
    requires |xs| > 0 && LastWithKey(xs[..|xs| - 1], key, k)
    requires key(xs[|xs| - 1]) != key(xs[k])
    ensures LastWithKey(xs, key, k)
  {
  }


  /** A subset is no larger than the set containing it. */
  lemma {:induction false} SubsetSize<T>(a: set<T>, b: set<T>)
    requires a <= b
    ensures |a| <= |b|
  {
    if a != {} {
      var x :| x in a;
      SubsetSize(a - {x}, b - {x});
    }
  }
}
