/** `collections.OrderedDict` built from a sequence of (key, value) pairs,
    represented by its items in insertion order. */
module OrderedDicts {

  predicate HasKey<K(==), V>(od: seq<(K, V)>, k: K) {
    exists i :: 0 <= i < |od| && od[i].0 == k
  }

  predicate DistinctKeys<K(==), V>(od: seq<(K, V)>) {
    forall i, j :: 0 <= i < j < |od| ==> od[i].0 != od[j].0
  }

  /** `od[k] = v`: a present key keeps its position and takes the new value,
      an absent key is appended. */
  function Insert<K(==), V>(od: seq<(K, V)>, k: K, v: V): (r: seq<(K, V)>)
    ensures HasKey(od, k) ==> |r| == |od|
    ensures !HasKey(od, k) ==> r == od + [(k, v)]
  {
    if od == [] then [(k, v)]
    else if od[0].0 == k then [(k, v)] + od[1..]
    else
      assert HasKey(od, k) <==> HasKey(od[1..], k) by {
        if HasKey(od, k) {
          var i :| 0 <= i < |od| && od[i].0 == k;
          assert od[1..][i - 1].0 == k;
        }
        if HasKey(od[1..], k) {
          var i :| 0 <= i < |od[1..]| && od[1..][i].0 == k;
          assert od[i + 1].0 == k;
        }
      }
      [od[0]] + Insert(od[1..], k, v)
  }

  /** `OrderedDict(pairs)`: the pairs inserted one after the other. */
  function FromPairs<K(==), V>(ps: seq<(K, V)>): (r: seq<(K, V)>)
    ensures |r| <= |ps|
  {
    if ps == [] then []
    else Insert(FromPairs(ps[..|ps| - 1]), ps[|ps| - 1].0, ps[|ps| - 1].1)
  }

  /** The dictionary has as many items as there were pairs exactly when no key
      repeats, and then it holds the pairs in their original order. */
  lemma {:induction false} FromPairsDistinct<K, V>(ps: seq<(K, V)>)
    ensures |FromPairs(ps)| == |ps| <==> DistinctKeys(ps)
    ensures DistinctKeys(ps) ==> FromPairs(ps) == ps
  {
    if ps != [] {
      var init := ps[..|ps| - 1];
      var last := ps[|ps| - 1];
      FromPairsDistinct(init);
      assert ps == init + [last];
      if DistinctKeys(ps) {
        assert DistinctKeys(init);
        assert !HasKey(init, last.0);
      } else if DistinctKeys(init) {
        var i, j :| 0 <= i < j < |ps| && ps[i].0 == ps[j].0;
        assert j == |ps| - 1;
        assert HasKey(init, last.0) by {
          assert init[i].0 == last.0;
        }
      }
    }
  }
}
