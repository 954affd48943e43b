/**
 * `new Map(...)` filled by `set` in list order: when two elements share a
 * key, the later one overwrites the earlier. Both the forest's id lookup and
 * the calendar's date lookup are built this way.
 */
module Lookup {

  /** `j` is the last position whose key is `k`. */
  predicate IsLastIndex<K(==), V>(xs: seq<V>, key: V -> K, k: K, j: int) {
    && 0 <= j < |xs|
    && key(xs[j]) == k
    && forall m :: j < m < |xs| ==> key(xs[m]) != k
  }

  /** The map after setting every element of `xs` under its key, in order. */
  function LastBy<K(==), V>(xs: seq<V>, key: V -> K): map<K, V>
  {
    if |xs| == 0 then map[]
    else LastBy(xs[..|xs| - 1], key)[key(xs[|xs| - 1]) := xs[|xs| - 1]]
  }

  /**
   * A key is present exactly when some element carries it, and then it maps
   * to the element at its last position.
   */
  lemma {:induction false} LastBySpec<K, V>(xs: seq<V>, key: V -> K, k: K)
    ensures k in LastBy(xs, key) <==> exists j :: 0 <= j < |xs| && key(xs[j]) == k
    ensures k in LastBy(xs, key) ==> exists j :: IsLastIndex(xs, key, k, j) && LastBy(xs, key)[k] == xs[j]
  {
    if |xs| > 0 {
      var init := xs[..|xs| - 1];
      var last := xs[|xs| - 1];
      LastBySpec(init, key, k);
      if k == key(last) {
        assert IsLastIndex(xs, key, k, |xs| - 1);
      } else {
        if k in LastBy(init, key) {
          var j :| IsLastIndex(init, key, k, j) && LastBy(init, key)[k] == init[j];
          assert IsLastIndex(xs, key, k, j);
        }
        if exists j :: 0 <= j < |xs| && key(xs[j]) == k {
          var j :| 0 <= j < |xs| && key(xs[j]) == k;
          assert init[j] == xs[j];
        }
      }
    }
  }

  /** The last position of a key is unique. */
  lemma LastIndexUnique<K, V>(xs: seq<V>, key: V -> K, k: K, i: int, j: int)
    requires IsLastIndex(xs, key, k, i) && IsLastIndex(xs, key, k, j)
    ensures i == j
  {
  }
}
