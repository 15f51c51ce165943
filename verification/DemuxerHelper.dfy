/**
 The container helpers of call/rtp_rtcp_demuxer_helper.h.

 A multimap is the sequence of its (key, value) entries; an iterator is an index into it. A map is
 a Dafny map, and the iterator is the set of keys not visited yet.
 */
module DemuxerHelper {

  predicate MultimapAssociationExists<K(==), V(==)>(multimap: seq<(K, V)>, key: K, value: V) {
    value in EqualRange(multimap, key)
  }

  predicate MultimapHasValue<K, V(==)>(multimap: seq<(K, V)>, value: V) {
    exists i :: 0 <= i < |multimap| && multimap[i].1 == value
  }

  predicate MapHasValue<K, V(==)>(m: map<K, V>, value: V) {
    exists k :: k in m && m[k] == value
  }

  /** The values stored under `key`, in the order they were added. */
  function EqualRange<K(==), V>(multimap: seq<(K, V)>, key: K): seq<V> {
    if multimap == [] then []
    else
      var last := multimap[|multimap| - 1];
      EqualRange(multimap[..|multimap| - 1], key) + if last.0 == key then [last.1] else []
  }

  /** The entries that do not hold `value`. */
  function WithoutValue<K, V(==)>(multimap: seq<(K, V)>, value: V): seq<(K, V)> {
    if multimap == [] then []
    else
      var last := multimap[|multimap| - 1];
      WithoutValue(multimap[..|multimap| - 1], value) + if last.1 == value then [] else [last]
  }

  function Without<V(==)>(values: seq<V>, value: V): seq<V> {
    if values == [] then []
    else
      var last := values[|values| - 1];
      Without(values[..|values| - 1], value) + if last == value then [] else [last]
  }

  function MapWithoutValue<K, V(==)>(m: map<K, V>, value: V): map<K, V> {
    map k | k in m && m[k] != value :: m[k]
  }

  method RemoveFromMultimapByValue<K, V(==)>(multimap: seq<(K, V)>, value: V)
    returns (result: seq<(K, V)>, count: nat)
    ensures result == WithoutValue(multimap, value)
    ensures count + |result| == |multimap|
    ensures count > 0 <==> MultimapHasValue(multimap, value)
    ensures !MultimapHasValue(result, value)
  {
    result, count := multimap, 0;
    var it := 0;
    while it < |result|
      invariant 0 <= it <= |result| && count + |result| == |multimap|
      invariant result[..it] == WithoutValue(multimap[..it + count], value)
      invariant result[it..] == multimap[it + count..]
    {
      var at := it + count;
      assert multimap[..at + 1][..at] == multimap[..at];
      assert result[it] == result[it..][0] == multimap[at];
      if result[it].1 == value {
        var erased := result[..it] + result[it + 1..];
        assert erased[..it] == result[..it];
        assert erased[it..] == result[it..][1..] == multimap[at + 1..];
        result, count := erased, count + 1;
      } else {
        assert result[..it + 1] == result[..it] + [result[it]];
        assert result[it + 1..] == result[it..][1..] == multimap[at + 1..];
        it := it + 1;
      }
    }
    assert result == result[..it] && multimap == multimap[..it + count];
    WithoutValueShrinks(multimap, value);
    WithoutValueHas(multimap, value, value);
  }

  method RemoveFromMapByValue<K(==), V(==)>(m: map<K, V>, value: V)
    returns (result: map<K, V>, count: nat)
    ensures result == MapWithoutValue(m, value)
    ensures count + |result| == |m|
    ensures count > 0 <==> MapHasValue(m, value)
    ensures !MapHasValue(result, value)
  {
    result, count := m, 0;
    var toVisit := m.Keys;
    while toVisit != {}
      invariant toVisit <= result.Keys <= m.Keys
      invariant forall k :: k in result ==> result[k] == m[k]
      invariant forall k :: k in m && k !in toVisit ==> (k in result <==> m[k] != value)
      invariant count + |result| == |m|
      invariant count > 0 <==> exists k :: k in m && k !in toVisit && m[k] == value
      decreases toVisit
    {
      var k :| k in toVisit;
      toVisit := toVisit - {k};
      if result[k] == value {
        assert (result - {k}).Keys == result.Keys - {k};
        result := result - {k};
        count := count + 1;
      }
    }
  }

  lemma {:induction false} WithoutValueShrinks<K, V>(multimap: seq<(K, V)>, value: V)
    ensures |WithoutValue(multimap, value)| <= |multimap|
    ensures |WithoutValue(multimap, value)| < |multimap| <==> MultimapHasValue(multimap, value)
  {
    if multimap != [] {
      var front, last := multimap[..|multimap| - 1], multimap[|multimap| - 1];
      assert multimap == front + [last];
      HasValueSnoc(front, last, value);
      WithoutValueShrinks(front, value);
    }
  }

  lemma {:induction false} WithoutValueHas<K, V>(multimap: seq<(K, V)>, erased: V, value: V)
    ensures MultimapHasValue(WithoutValue(multimap, erased), value)
       <==> MultimapHasValue(multimap, value) && value != erased
  {
    if multimap != [] {
      var front, last := multimap[..|multimap| - 1], multimap[|multimap| - 1];
      HasValueSnoc(front, last, value);
      HasValueSnoc(WithoutValue(front, erased), last, value);
      assert multimap == front + [last] && WithoutValue(front, erased) + [] == WithoutValue(front, erased);
      WithoutValueHas(front, erased, value);
    }
  }

  lemma {:induction false} HasValueSnoc<K, V>(multimap: seq<(K, V)>, e: (K, V), value: V)
    ensures MultimapHasValue(multimap + [e], value) <==> MultimapHasValue(multimap, value) || e.1 == value
  {
    assert forall i :: 0 <= i < |multimap| ==> (multimap + [e])[i] == multimap[i];
    assert (multimap + [e])[|multimap|] == e;
  }

  lemma {:induction false} WithoutValueMember<K, V>(multimap: seq<(K, V)>, value: V, e: (K, V))
    ensures e in WithoutValue(multimap, value) <==> e in multimap && e.1 != value
  {
    if multimap != [] {
      assert multimap == multimap[..|multimap| - 1] + [multimap[|multimap| - 1]];
      WithoutValueMember(multimap[..|multimap| - 1], value, e);
    }
  }

  /** Erasing keeps the survivors in order: it works on each part of the container alone. */
  lemma {:induction false} WithoutValueAppend<K, V>(a: seq<(K, V)>, b: seq<(K, V)>, value: V)
    ensures WithoutValue(a + b, value) == WithoutValue(a, value) + WithoutValue(b, value)
  {
    if b == [] {
      assert a + b == a;
    } else {
      var front := b[..|b| - 1];
      assert (a + b)[..|a + b| - 1] == a + front;
      WithoutValueAppend(a, front, value);
    }
  }

  /** Erasing by value erases it from each key's range and touches nothing else in that range. */
  lemma {:induction false} EqualRangeWithoutValue<K, V>(multimap: seq<(K, V)>, key: K, value: V)
    ensures EqualRange(WithoutValue(multimap, value), key) == Without(EqualRange(multimap, key), value)
  {
    if multimap != [] {
      var front := multimap[..|multimap| - 1];
      var last := multimap[|multimap| - 1];
      EqualRangeWithoutValue(front, key, value);
      var kept := WithoutValue(front, value);
      assert (kept + [last])[..|kept|] == kept && kept + [] == kept;
      var range := EqualRange(front, key);
      assert (range + [last.1])[..|range|] == range && range + [] == range;
    }
  }

  /** A key's range holds exactly the values of the entries under that key. */
  lemma {:induction false} InEqualRange<K, V>(multimap: seq<(K, V)>, key: K, value: V)
    ensures value in EqualRange(multimap, key) <==> (key, value) in multimap
  {
    if multimap != [] {
      var front := multimap[..|multimap| - 1];
      assert multimap == front + [multimap[|multimap| - 1]];
      InEqualRange(front, key, value);
    }
  }

  /** As often as the entry occurs. */
  lemma {:induction false} EqualRangeCount<K, V>(multimap: seq<(K, V)>, key: K, value: V)
    ensures multiset(EqualRange(multimap, key))[value] == multiset(multimap)[(key, value)]
  {
    if multimap != [] {
      var front := multimap[..|multimap| - 1];
      assert multimap == front + [multimap[|multimap| - 1]];
      EqualRangeCount(front, key, value);
    }
  }

  lemma {:induction false} WithoutValueCount<K, V>(multimap: seq<(K, V)>, value: V, e: (K, V))
    ensures multiset(WithoutValue(multimap, value))[e] == if e.1 == value then 0 else multiset(multimap)[e]
  {
    if multimap != [] {
      var front := multimap[..|multimap| - 1];
      assert multimap == front + [multimap[|multimap| - 1]];
      WithoutValueCount(front, value, e);
    }
  }

  lemma {:induction false} WithoutSnoc<V>(values: seq<V>, last: V, value: V)
    ensures Without(values + [last], value) == Without(values, value) + if last == value then [] else [last]
  {
  }
}
