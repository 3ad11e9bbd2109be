// lru11::Cache: a hash map from keys to nodes of a recency list, most recent first. An iterator into the list is
// modelled by the value its node holds.
module LruCache {
  import opened Bytes

  // The position of a key in a recency list, or the length when it is not there.
  function IndexOf<K(==), V>(s: seq<(K, V)>, k: K): (i: nat)
    ensures i <= |s| && (i < |s| ==> s[i].0 == k) && (forall j :: 0 <= j < i ==> s[j].0 != k)
  {
    if s == [] || s[0].0 == k then 0 else 1 + IndexOf(s[1..], k)
  }

  ghost predicate Distinct<K, V>(s: seq<(K, V)>) {
    forall i, j :: 0 <= i < j < |s| ==> s[i].0 != s[j].0
  }

  // splice to the front: the node of key k is taken out of its place and put first, holding v.
  function Touched<K(==), V>(s: seq<(K, V)>, k: K, v: V): (r: seq<(K, V)>)
    requires IndexOf(s, k) < |s|
    ensures |r| == |s| && r[0] == (k, v)
  {
    var i := IndexOf(s, k);
    [(k, v)] + s[..i] + s[i + 1..]
  }

  // What prune leaves: nothing is dropped until the hard limit is met, and then all beyond the soft limit.
  function Pruned<K, V>(s: seq<(K, V)>, maxSize: nat, elasticity: nat): seq<(K, V)> {
    if maxSize == 0 || |s| < maxSize + elasticity || |s| <= maxSize then s else s[..maxSize]
  }

  // The map and the list hold the same keys, each once, and reach the same values.
  ghost predicate Agree<K, V>(cache: map<K, V>, keys: seq<(K, V)>) {
    && Distinct(keys) && |cache| == |keys|
    && (forall i :: 0 <= i < |keys| ==> keys[i].0 in cache && cache[keys[i].0] == keys[i].1)
    && (forall k :: k in cache ==> IndexOf(keys, k) < |keys|)
  }

  lemma FoundAt<K, V>(cache: map<K, V>, keys: seq<(K, V)>, k: K)
    requires Agree(cache, keys)
    ensures k in cache <==> IndexOf(keys, k) < |keys|
    ensures k in cache ==> keys[IndexOf(keys, k)] == (k, cache[k])
  {
  }

  // Where the entries of the list are after the touch.
  lemma TouchedAt<K, V>(s: seq<(K, V)>, k: K, v: V, j: nat)
    requires IndexOf(s, k) < |s| && j < |s|
    ensures var i := IndexOf(s, k); Touched(s, k, v)[j] == if j == 0 then (k, v) else if j <= i then s[j - 1] else s[j]
  {
    hide IndexOf;
  }

  lemma TouchedDistinct<K, V>(keys: seq<(K, V)>, k: K, v: V)
    requires Distinct(keys) && IndexOf(keys, k) < |keys|
    ensures Distinct(Touched(keys, k, v))
  {
    hide Touched;
    var r := Touched(keys, k, v);
    forall i, j | 0 <= i < j < |r| ensures r[i].0 != r[j].0 {
      TouchedAt(keys, k, v, i);
      TouchedAt(keys, k, v, j);
    }
  }

  lemma TouchedAgrees<K, V>(cache: map<K, V>, keys: seq<(K, V)>, k: K, v: V)
    requires Agree(cache, keys) && k in cache && IndexOf(keys, k) < |keys|
    ensures Agree(cache[k := v], Touched(keys, k, v))
  {
    hide Touched, Distinct, IndexOf;
    var r := Touched(keys, k, v);
    assert cache[k := v].Keys == cache.Keys;
    TouchedDistinct(keys, k, v);
    TouchedElsewhere(keys, k);
    forall j | 0 <= j < |r| ensures r[j].0 in cache[k := v] && cache[k := v][r[j].0] == r[j].1 {
      TouchedAt(keys, k, v, j);
    }
    forall l | l in cache[k := v] ensures IndexOf(r, l) < |r| {
      TouchedFound(keys, k, v, l);
    }
  }

  lemma TouchedFound<K, V>(keys: seq<(K, V)>, k: K, v: V, l: K)
    requires IndexOf(keys, k) < |keys| && IndexOf(keys, l) < |keys|
    ensures IndexOf(Touched(keys, k, v), l) < |keys|
  {
    hide Touched, IndexOf;
    if l != k {
      var j := IndexOf(keys, l);
      TouchedAt(keys, k, v, if j < IndexOf(keys, k) then j + 1 else j);
    }
  }

  // In a list of distinct keys, no other entry has key k.
  lemma TouchedElsewhere<K, V>(keys: seq<(K, V)>, k: K)
    requires IndexOf(keys, k) < |keys|
    ensures Distinct(keys) ==> forall j :: 0 <= j < |keys| && j != IndexOf(keys, k) ==> keys[j].0 != k
  {
  }

  lemma AddedAgrees<K, V>(cache: map<K, V>, keys: seq<(K, V)>, k: K, v: V)
    requires Agree(cache, keys) && k !in cache
    ensures Agree(cache[k := v], [(k, v)] + keys)
  {
    var r := [(k, v)] + keys;
    assert forall j :: 0 < j < |r| ==> r[j] == keys[j - 1];
    forall l | l in cache[k := v] ensures IndexOf(r, l) < |r| {
      if l != k {
        assert r[IndexOf(keys, l) + 1].0 == l;
      }
    }
  }

  lemma DroppedAgrees<K, V>(cache: map<K, V>, keys: seq<(K, V)>)
    requires Agree(cache, keys) && keys != []
    ensures Agree(cache - {keys[|keys| - 1].0}, keys[..|keys| - 1])
  {
    hide IndexOf;
    var n := |keys| - 1;
    var k := keys[n].0;
    var r, s := cache - {k}, keys[..n];
    assert r[k := cache[k]] == cache;
    forall i | 0 <= i < n ensures s[i].0 in r && r[s[i].0] == s[i].1 {
      assert s[i] == keys[i];
    }
    forall l | l in r ensures IndexOf(s, l) < n {
      PrefixFound(keys, n, l);
    }
  }

  lemma PrefixFound<K, V>(keys: seq<(K, V)>, n: nat, l: K)
    requires n < |keys| && IndexOf(keys, l) < n
    ensures IndexOf(keys[..n], l) < n
  {
    hide IndexOf;
    assert keys[..n][IndexOf(keys, l)].0 == l;
  }

  lemma SameSize<K, V>(cache: map<K, V>, keys: seq<(K, V)>)
    requires Agree(cache, keys)
    ensures |cache| == |keys|
  {
  }

  class Cache<K(==), V(==)> {
    var cache: map<K, V>
    var keys: seq<(K, V)>
    const maxSize: nat
    const elasticity: nat

    ghost predicate Valid()
      reads this
    {
      Agree(cache, keys)
    }

    constructor (maxSize: nat, elasticity: nat)
      ensures Valid() && keys == [] && this.maxSize == maxSize && this.elasticity == elasticity
    {
      this.maxSize, this.elasticity := maxSize, elasticity;
      cache, keys := map[], [];
    }

    function Size(): nat
      reads this
    {
      |cache|
    }

    predicate Contains(k: K)
      reads this
    {
      k in cache
    }

    method Insert(k: K, v: V)
      requires Valid()
      modifies this
      ensures Valid()
      ensures keys == (if IndexOf(old(keys), k) < |old(keys)| then Touched(old(keys), k, v)
                       else Pruned([(k, v)] + old(keys), maxSize, elasticity))
    {
      FoundAt(cache, keys, k);
      if k in cache {
        TouchedAgrees(cache, keys, k, v);
        cache, keys := cache[k := v], Touched(keys, k, v);
        return;
      }
      AddedAgrees(cache, keys, k, v);
      keys := [(k, v)] + keys;
      cache := cache[k := v];
      var _ := Prune();
    }

    // None stands for the exception KeyNotFound.
    method Get(k: K) returns (r: Option<V>)
      requires Valid()
      modifies this
      ensures Valid()
      ensures r.None? <==> IndexOf(old(keys), k) == |old(keys)|
      ensures r.None? ==> keys == old(keys)
      ensures r.Some? ==> r.value == old(keys)[IndexOf(old(keys), k)].1 && keys == Touched(old(keys), k, r.value)
    {
      FoundAt(cache, keys, k);
      if k !in cache {
        return None;
      }
      r := Some(cache[k]);
      TouchedAgrees(cache, keys, k, r.value);
      keys := Touched(keys, k, r.value);
      assert cache[k := r.value] == cache;
    }

    // The value of the entry that prune would drop first, reached through the map.
    method PruneValue() returns (r: Option<V>)
      requires Valid() && keys != []
      ensures r == Some(keys[|keys| - 1].1)
    {
      var k := keys[|keys| - 1].0;
      if k !in cache {
        return None;
      }
      r := Some(cache[k]);
    }

    method Prune() returns (count: nat)
      requires Valid()
      modifies this
      ensures Valid() && keys == Pruned(old(keys), maxSize, elasticity) && count == |old(keys)| - |keys|
    {
      hide Agree, IndexOf;
      SameSize(cache, keys);
      count := 0;
      var maxAllowed := maxSize + elasticity;
      if maxSize == 0 || |cache| < maxAllowed {
        return;
      }
      ghost var was := keys;
      while |cache| > maxSize
        invariant (Valid() <==> true) && |cache| == |keys| <= |was| && count == |was| - |keys|
        invariant (|keys| >= maxSize || keys == was) && keys == was[..|keys|]
        decreases |cache|
      {
        DroppedAgrees(cache, keys);
        SameSize(cache - {keys[|keys| - 1].0}, keys[..|keys| - 1]);
        cache := cache - {keys[|keys| - 1].0};
        keys := keys[..|keys| - 1];
        count := count + 1;
      }
    }

    method Clear()
      modifies this
      ensures Valid() && keys == []
    {
      cache, keys := map[], [];
    }
  }
}
