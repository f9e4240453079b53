/**
 * A JavaScript `Map` whose keys are issue numbers, modelled as its list of
 * entries in insertion order. `Array.from(map.entries())` is this list, and
 * iterating the map visits it front to back.
 */
module JsMap {

  type PairList<V> = seq<(int, V)>

  /** The keys in iteration order. */
  function Keys<V>(m: PairList<V>): (ks: seq<int>)
    ensures |ks| == |m|
    ensures forall i :: 0 <= i < |m| ==> ks[i] == m[i].0
  {
    seq(|m|, i requires 0 <= i < |m| => m[i].0)
  }

  /** No key occurs twice, as in every list a real `Map` produces. */
  predicate Distinct(ks: seq<int>)
  {
    forall i, j :: 0 <= i < j < |ks| ==> ks[i] != ks[j]
  }

  /** `map.has(k)` */
  predicate Has<V>(m: PairList<V>, k: int)
  {
    k in Keys(m)
  }

  /** The position of the first occurrence of `k` in `ks`. */
  function FirstIndex(ks: seq<int>, k: int): (i: nat)
    requires k in ks
    ensures i < |ks| && ks[i] == k
    ensures forall j :: 0 <= j < i ==> ks[j] != k
  {
    if ks[0] == k then 0 else 1 + FirstIndex(ks[1..], k)
  }

  /** `map.get(k)` for a key the map holds. */
  function Get<V>(m: PairList<V>, k: int): V
    requires Has(m, k)
  {
    m[FirstIndex(Keys(m), k)].1
  }

  /**
   * `map.set(k, v)`: a key already present keeps its position and takes the
   * new value; a new key is appended.
   */
  function Set<V>(m: PairList<V>, k: int, v: V): (r: PairList<V>)
    ensures Has(m, k) ==> Keys(r) == Keys(m) && r == m[FirstIndex(Keys(m), k) := (k, v)]
    ensures !Has(m, k) ==> r == m + [(k, v)] && Keys(r) == Keys(m) + [k]
    ensures Has(r, k) && Get(r, k) == v
  {
    if Has(m, k) then
      var r := m[FirstIndex(Keys(m), k) := (k, v)];
      assert Keys(r) == Keys(m);
      r
    else
      var r := m + [(k, v)];
      assert Keys(r) == Keys(m) + [k];
      assert FirstIndex(Keys(r), k) == |m|;
      r
  }

  /** The position of the last occurrence of `k` in `ks`. */
  function LastIndex(ks: seq<int>, k: int): (i: nat)
    requires k in ks
    ensures i < |ks| && ks[i] == k
    ensures forall j :: i < j < |ks| ==> ks[j] != k
  {
    if ks[|ks| - 1] == k then |ks| - 1 else LastIndex(ks[..|ks| - 1], k)
  }

  /** `m` holds each key of `pairs` once, and no other key. */
  ghost predicate SameKeys<V>(m: PairList<V>, pairs: PairList<V>)
  {
    Distinct(Keys(m)) && forall k :: k in Keys(m) <==> k in Keys(pairs)
  }

  /** Every entry of `m` is the last pair of `pairs` with its key. */
  ghost predicate LastValues<V>(m: PairList<V>, pairs: PairList<V>)
  {
    forall j :: 0 <= j < |m| ==> m[j].0 in Keys(pairs) && m[j] == pairs[LastIndex(Keys(pairs), m[j].0)]
  }

  /** The keys of `m` are in the order of their first pair in `pairs`. */
  ghost predicate FirstOrder<V>(m: PairList<V>, pairs: PairList<V>)
  {
    forall i, j :: 0 <= i < j < |m| ==>
      m[i].0 in Keys(pairs) && m[j].0 in Keys(pairs) &&
      FirstIndex(Keys(pairs), m[i].0) < FirstIndex(Keys(pairs), m[j].0)
  }

  /**
   * `m` is what setting `pairs` one after another leaves: each key of the
   * pairs once, in the order of its first pair, with the value of its last.
   */
  ghost predicate LastWins<V>(m: PairList<V>, pairs: PairList<V>)
  {
    SameKeys(m, pairs) && LastValues(m, pairs) && FirstOrder(m, pairs)
  }

  /**
   * `new Map(pairs)`: the pairs are `set` one after another, so the keys are
   * distinct and exactly those of the pairs.
   */
  function FromEntries<V>(pairs: PairList<V>): (m: PairList<V>)
    ensures SameKeys(m, pairs)
  {
    if pairs == [] then []
    else
      var n := |pairs| - 1;
      var prefix := FromEntries(pairs[..n]);
      assert Keys(pairs) == Keys(pairs[..n]) + [pairs[n].0];
      Set(prefix, pairs[n].0, pairs[n].1)
  }

  /**
   * A key repeated in `pairs` keeps the position of its first pair and takes
   * the value of its last.
   */
  lemma {:induction false} FromEntriesLastWins<V>(pairs: PairList<V>)
    ensures LastWins(FromEntries(pairs), pairs)
  {
    if pairs != [] {
      var n := |pairs| - 1;
      FromEntriesLastWins(pairs[..n]);
      assert pairs == pairs[..n] + [pairs[n]];
      SetLastWins(FromEntries(pairs[..n]), pairs[..n], pairs[n].0, pairs[n].1);
    }
  }

  /** Setting one more pair keeps the map the result of setting all pairs so far. */
  lemma SetLastWins<V>(m: PairList<V>, pairs: PairList<V>, k: int, v: V)
    requires LastWins(m, pairs)
    ensures LastWins(Set(m, k, v), pairs + [(k, v)])
  {
    AppendPairIndices(pairs, k, v);
    if Has(m, k) {
      SetPresentValues(m, pairs, k, v);
      SetPresentOrder(m, pairs, k, v);
    } else {
      SetAbsentValues(m, pairs, k, v);
      SetAbsentOrder(m, pairs, k, v);
    }
  }

  /** One more pair moves neither the first nor, for other keys, the last occurrence of a key. */
  lemma AppendPairIndices<V>(pairs: PairList<V>, k: int, v: V)
    ensures Keys(pairs + [(k, v)]) == Keys(pairs) + [k]
    ensures k in Keys(pairs + [(k, v)]) && LastIndex(Keys(pairs + [(k, v)]), k) == |pairs|
    ensures forall key :: key in Keys(pairs) ==>
              FirstIndex(Keys(pairs + [(k, v)]), key) == FirstIndex(Keys(pairs), key)
    ensures forall key :: key in Keys(pairs) && key != k ==>
              LastIndex(Keys(pairs + [(k, v)]), key) == LastIndex(Keys(pairs), key)
  {
    var all := Keys(pairs + [(k, v)]);
    assert all == Keys(pairs) + [k];
    assert all[..|pairs|] == Keys(pairs);
    forall key | key in Keys(pairs)
      ensures FirstIndex(all, key) == FirstIndex(Keys(pairs), key)
    {
      FirstIndexAppend(Keys(pairs), [k], key);
    }
  }

  lemma SetPresentValues<V>(m: PairList<V>, pairs: PairList<V>, k: int, v: V)
    requires SameKeys(m, pairs) && LastValues(m, pairs) && Has(m, k)
    ensures LastValues(Set(m, k, v), pairs + [(k, v)])
  {
    var r := Set(m, k, v);
    var all := pairs + [(k, v)];
    AppendPairIndices(pairs, k, v);
    var p := FirstIndex(Keys(m), k);
    forall j | 0 <= j < |r|
      ensures r[j].0 in Keys(all) && r[j] == all[LastIndex(Keys(all), r[j].0)]
    {
      if j != p {
        assert Keys(m)[j] != Keys(m)[p];
        assert r[j] == m[j];
        assert all[LastIndex(Keys(pairs), m[j].0)] == pairs[LastIndex(Keys(pairs), m[j].0)];
      }
    }
  }

  lemma SetPresentOrder<V>(m: PairList<V>, pairs: PairList<V>, k: int, v: V)
    requires SameKeys(m, pairs) && FirstOrder(m, pairs) && Has(m, k)
    ensures FirstOrder(Set(m, k, v), pairs + [(k, v)])
  {
    var r := Set(m, k, v);
    AppendPairIndices(pairs, k, v);
    assert Keys(r) == Keys(m);
    forall i, j | 0 <= i < j < |r|
      ensures r[i].0 == m[i].0 && r[j].0 == m[j].0
    {
      assert Keys(r)[i] == Keys(m)[i] && Keys(r)[j] == Keys(m)[j];
    }
  }

  lemma SetAbsentValues<V>(m: PairList<V>, pairs: PairList<V>, k: int, v: V)
    requires SameKeys(m, pairs) && LastValues(m, pairs) && !Has(m, k)
    ensures LastValues(Set(m, k, v), pairs + [(k, v)])
  {
    var all := pairs + [(k, v)];
    AppendPairIndices(pairs, k, v);
    var r := m + [(k, v)];
    assert Set(m, k, v) == r;
    forall j | 0 <= j < |m|
      ensures m[j].0 in Keys(all) && m[j] == all[LastIndex(Keys(all), m[j].0)]
    {
      assert Keys(m)[j] == m[j].0;
      assert m[j].0 != k;
      assert all[LastIndex(Keys(pairs), m[j].0)] == pairs[LastIndex(Keys(pairs), m[j].0)];
    }
    assert r[|m|] == all[|pairs|];
  }

  lemma SetAbsentOrder<V>(m: PairList<V>, pairs: PairList<V>, k: int, v: V)
    requires SameKeys(m, pairs) && FirstOrder(m, pairs) && !Has(m, k)
    ensures FirstOrder(Set(m, k, v), pairs + [(k, v)])
  {
    var all := pairs + [(k, v)];
    var n := |pairs|;
    AppendPairIndices(pairs, k, v);
    FirstIndexUnique(Keys(all), k, n);
    forall i | 0 <= i < |m|
      ensures m[i].0 in Keys(all) && FirstIndex(Keys(all), m[i].0) == FirstIndex(Keys(pairs), m[i].0) < n
    {
      assert Keys(m)[i] == m[i].0;
    }
    var r := m + [(k, v)];
    assert Set(m, k, v) == r;
    forall i, j | 0 <= i < j < |r|
      ensures r[i].0 in Keys(all) && r[j].0 in Keys(all) &&
              FirstIndex(Keys(all), r[i].0) < FirstIndex(Keys(all), r[j].0)
    {
      if j < |m| {
        assert r[i] == m[i] && r[j] == m[j];
      }
    }
  }

  /** Only the first occurrence of a key has no equal key before it. */
  lemma {:induction false} FirstIndexUnique(ks: seq<int>, k: int, i: nat)
    requires i < |ks| && ks[i] == k
    requires forall j :: 0 <= j < i ==> ks[j] != k
    ensures FirstIndex(ks, k) == i
  {
    if i > 0 {
      FirstIndexUnique(ks[1..], k, i - 1);
    }
  }

  /** Appending to a list does not move the first occurrence of a key it already holds. */
  lemma FirstIndexAppend(ks: seq<int>, tail: seq<int>, k: int)
    requires k in ks
    ensures k in ks + tail && FirstIndex(ks + tail, k) == FirstIndex(ks, k)
  {
    var i := FirstIndex(ks, k);
    FirstIndexUnique(ks + tail, k, i);
  }

  /** Every prefix of a map with distinct keys has distinct keys. */
  lemma DistinctPrefix<V>(m: PairList<V>, n: nat)
    requires n <= |m| && Distinct(Keys(m))
    ensures Distinct(Keys(m[..n]))
  {
  }

  /**
   * Loading the entry list of a map (whose keys are distinct) gives back the
   * same map: same keys, same order, same values.
   */
  lemma {:induction false} FromEntriesOfMap<V>(m: PairList<V>)
    ensures Distinct(Keys(m)) ==> FromEntries(m) == m
  {
    if m != [] && Distinct(Keys(m)) {
      var n := |m| - 1;
      DistinctPrefix(m, n);
      FromEntriesOfMap(m[..n]);
      assert Keys(m)[n] == m[n].0;
      assert !Has(m[..n], m[n].0);
      assert m[..n] + [m[n]] == m;
    }
  }
}
