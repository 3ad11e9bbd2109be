// ReadCache: a pool of container-sized buffers ("slots") handed out through the LRU cache. A container's name is its
// id.
module ContainerCache {
  import opened Bytes
  import opened LruCache

  const CONTAINER_CACHE_SIZE: nat := 64

  // memcpy to the front of a slot: what lies beyond the data stays.
  function Overwritten(slot: Buffer, data: Buffer): (r: Buffer)
    requires |data| <= |slot|
    ensures |r| == |slot| && r[..|data|] == data
  {
    data + slot[|data|..]
  }

  // Cached names own pairwise distinct slots among the first `used`.
  ghost predicate OwnSlots(keys: seq<(nat, nat)>, used: nat) {
    && (forall i :: 0 <= i < |keys| ==> keys[i].1 < used)
    && (forall i, j :: 0 <= i < j < |keys| ==> keys[i].1 != keys[j].1)
  }

  lemma TouchedOwnSlots(keys: seq<(nat, nat)>, k: nat, used: nat)
    requires OwnSlots(keys, used) && IndexOf(keys, k) < |keys|
    ensures OwnSlots(Touched(keys, k, keys[IndexOf(keys, k)].1), used)
  {
    var i := IndexOf(keys, k);
    var r := Touched(keys, k, keys[i].1);
    assert forall j :: 0 < j <= i ==> r[j] == keys[j - 1];
    assert forall j :: i < j < |r| ==> r[j] == keys[j];
  }

  // A new entry comes first with a slot no entry that stays has.
  lemma AddedOwnSlots(keys: seq<(nat, nat)>, kept: nat, name: nat, slot: nat, used: nat, used': nat)
    requires OwnSlots(keys, used) && kept <= |keys| && used <= used' && slot < used'
    requires forall i :: 0 <= i < kept ==> keys[i].1 != slot
    ensures OwnSlots([(name, slot)] + keys[..kept], used')
  {
    var r := [(name, slot)] + keys[..kept];
    assert forall j :: 0 < j < |r| ==> r[j] == keys[j - 1];
  }

  lemma SlotBounds(keys: seq<(nat, nat)>, used: nat)
    requires OwnSlots(keys, used)
    ensures forall i :: 0 <= i < |keys| ==> keys[i].1 < used
    ensures forall i :: 0 <= i < |keys| - 1 ==> keys[i].1 != keys[|keys| - 1].1
  {
  }

  // All slots are used, and the least recent entry's is given to the name.
  lemma SlotReplaced(cache: map<nat, nat>, was: seq<(nat, nat)>, name: nat, used: nat)
    requires OwnSlots(was, used) && Agree(cache, was) && |was| == CONTAINER_CACHE_SIZE
    ensures var last := was[CONTAINER_CACHE_SIZE - 1];
            if IndexOf(was, name) == |was| then
              && ([(name, last.1)] + was)[..CONTAINER_CACHE_SIZE] == [(name, last.1)] + was[..CONTAINER_CACHE_SIZE - 1]
              && OwnSlots([(name, last.1)] + was[..CONTAINER_CACHE_SIZE - 1], used)
            else OwnSlots(Touched(was, name, last.1), used) <==> last.0 == name
  {
    hide IndexOf;
    var n := CONTAINER_CACHE_SIZE - 1;
    if IndexOf(was, name) == |was| {
      AddedOwnSlots(was, n, name, was[n].1, used, used);
    } else if was[n].0 == name {
      TouchedOwnSlots(was, name, used);
    } else {
      TouchedAt(was, name, was[n].1, 0);
      TouchedAt(was, name, was[n].1, n);
    }
  }

  class ReadCache {
    const lru: Cache<nat, nat>
    const pool: array<Buffer>
    var currentIndex: nat

    ghost predicate Valid()
      reads this, lru, pool
    {
      && lru.Valid() && lru.maxSize == pool.Length == CONTAINER_CACHE_SIZE && lru.elasticity == 0
      && |lru.keys| == currentIndex <= CONTAINER_CACHE_SIZE && OwnSlots(lru.keys, currentIndex)
      && (forall i :: 0 <= i < pool.Length ==> |pool[i]| == CONTAINER_MAX_SIZE)
    }

    constructor ()
      ensures Valid() && fresh(lru) && fresh(pool) && lru.keys == []
    {
      lru := new Cache(CONTAINER_CACHE_SIZE, 0);
      pool := new Buffer[CONTAINER_CACHE_SIZE](_ => seq(CONTAINER_MAX_SIZE, _ => 0));
      currentIndex := 0;
    }

    predicate ExistsInCache(name: nat)
      reads this, lru
    {
      lru.Contains(name)
    }

    // The name gets the next unused slot, or, when all are used, the slot of the least recent entry. For a name that
    // is not cached that entry goes, and every name has a slot of its own; a name that is cached keeps its entry,
    // which now leads to the new slot, and the cache stays as it should be only if that was the name's own slot
    // before.
    method InsertToCache(name: nat, data: Buffer) returns (ghost slot: nat)
      requires Valid() && |data| <= CONTAINER_MAX_SIZE
      modifies this, lru, pool
      ensures var was := old(lru.keys);
              var full, known := |was| == CONTAINER_CACHE_SIZE, IndexOf(was, name) < |was|;
              && slot == (if full then was[CONTAINER_CACHE_SIZE - 1].1 else |was|) && slot < pool.Length
              && lru.keys == (if known then Touched(was, name, slot)
                              else [(name, slot)] + if full then was[..CONTAINER_CACHE_SIZE - 1] else was)
              && (Valid() <==> !known || (full && was[CONTAINER_CACHE_SIZE - 1].0 == name))
      ensures lru.Valid()
              && currentIndex == old(currentIndex) + if old(currentIndex) == CONTAINER_CACHE_SIZE then 0 else 1
      ensures pool[slot] == Overwritten(old(pool[slot]), data)
      ensures forall i :: 0 <= i < pool.Length && i != slot ==> pool[i] == old(pool[i])
    {
      hide Agree, Overwritten, IndexOf, OwnSlots;
      FoundAt(lru.cache, lru.keys, name);
      SameSize(lru.cache, lru.keys);
      SlotBounds(lru.keys, currentIndex);
      ghost var was, used := lru.keys, currentIndex;
      if lru.Size() + 1 > CONTAINER_CACHE_SIZE {
        var replaceIndex := lru.PruneValue();
        slot := replaceIndex.value;
        pool[replaceIndex.value] := Overwritten(pool[replaceIndex.value], data);
        SlotReplaced(lru.cache, was, name, used);
        lru.Insert(name, replaceIndex.value);
      } else {
        slot := currentIndex;
        AddedOwnSlots(was, |was|, name, slot, currentIndex, currentIndex + 1);
        assert was[..|was|] == was;
        pool[currentIndex] := Overwritten(pool[currentIndex], data);
        lru.Insert(name, currentIndex);
        currentIndex := currentIndex + 1;
      }
    }

    // None stands for the exception KeyNotFound; otherwise the slot, whose entry becomes the most recent.
    method ReadFromCache(name: nat) returns (r: Option<nat>)
      requires Valid()
      modifies lru
      ensures Valid()
      ensures r.None? <==> IndexOf(old(lru.keys), name) == |old(lru.keys)|
      ensures r.None? ==> lru.keys == old(lru.keys)
      ensures r.Some? ==> && r.value < pool.Length && r.value == old(lru.keys)[IndexOf(old(lru.keys), name)].1
                          && lru.keys == Touched(old(lru.keys), name, r.value)
    {
      if IndexOf(lru.keys, name) < |lru.keys| {
        TouchedOwnSlots(lru.keys, name, currentIndex);
      }
      r := lru.Get(name);
    }

    method ClearAllCache()
      requires Valid()
      modifies this, lru
      ensures Valid() && lru.keys == []
    {
      lru.Clear();
      currentIndex := 0;
    }
  }
}
