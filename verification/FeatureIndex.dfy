// FeatureIndexTable: for every super-feature, the chunks that were indexed under it, first come first.
module FeatureIndex {
  import opened Bytes

  const ODESS_SF_NUM: nat := 3

  function Listed(index: map<nat, seq<nat>>, sf: nat): seq<nat> {
    if sf in index then index[sf] else []
  }

  // The first chunk of the first super-feature that has one.
  function FirstHit(index: map<nat, seq<nat>>, superfeatures: seq<nat>): (r: Option<nat>)
    ensures r.Some? ==> exists sf :: sf in superfeatures && sf in index && index[sf] != [] && index[sf][0] == r.value
    ensures r.None? ==> forall sf :: sf in superfeatures && sf in index ==> index[sf] == []
  {
    if superfeatures == [] then None
    else
      var sf := superfeatures[0];
      if sf in index && index[sf] != [] then assert sf in superfeatures; Some(index[sf][0])
      else FirstHit(index, superfeatures[1..])
  }

  // Earlier super-features go first.
  lemma {:induction false} FirstHitIs(index: map<nat, seq<nat>>, superfeatures: seq<nat>, k: nat)
    requires k < |superfeatures| && Listed(index, superfeatures[k]) != []
    requires forall j :: 0 <= j < k ==> Listed(index, superfeatures[j]) == []
    ensures FirstHit(index, superfeatures) == Some(Listed(index, superfeatures[k])[0])
  {
    if k > 0 {
      assert Listed(index, superfeatures[0]) == [];
      FirstHitIs(index, superfeatures[1..], k - 1);
    }
  }

  // The index with the chunk added to the list of each super-feature, in turn.
  function Pushed(index: map<nat, seq<nat>>, superfeatures: seq<nat>, chunkid: nat): map<nat, seq<nat>> {
    if superfeatures == [] then index
    else
      var n := |superfeatures| - 1;
      var most := Pushed(index, superfeatures[..n], chunkid);
      most[superfeatures[n] := Listed(most, superfeatures[n]) + [chunkid]]
  }

  // A list grows at its end: who was first stays first.
  lemma {:induction false} PushedAtEnd(index: map<nat, seq<nat>>, superfeatures: seq<nat>, chunkid: nat, sf: nat)
    ensures Listed(index, sf) <= Listed(Pushed(index, superfeatures, chunkid), sf)
    ensures forall k :: |Listed(index, sf)| <= k < |Listed(Pushed(index, superfeatures, chunkid), sf)|
              ==> Listed(Pushed(index, superfeatures, chunkid), sf)[k] == chunkid
  {
    if superfeatures != [] {
      PushedAtEnd(index, superfeatures[..|superfeatures| - 1], chunkid, sf);
    }
  }

  ghost predicate AllIn(index: map<nat, seq<nat>>, ids: set<nat>) {
    forall sf, k :: sf in index && 0 <= k < |index[sf]| ==> index[sf][k] in ids
  }

  lemma {:induction false} PushedAllIn(index: map<nat, seq<nat>>, superfeatures: seq<nat>, chunkid: nat, ids: set<nat>)
    requires AllIn(index, ids) && chunkid in ids
    ensures AllIn(Pushed(index, superfeatures, chunkid), ids)
  {
    if superfeatures != [] {
      PushedAllIn(index, superfeatures[..|superfeatures| - 1], chunkid, ids);
    }
  }

  // A hit is a chunk that was indexed.
  lemma HitIsIndexed(index: map<nat, seq<nat>>, superfeatures: seq<nat>, ids: set<nat>)
    requires AllIn(index, ids)
    ensures FirstHit(index, superfeatures).Some? ==> FirstHit(index, superfeatures).value in ids
  {
  }

  // Once indexed, a chunk with a super-feature in common always finds a base.
  lemma {:induction false} PushedIsFound(index: map<nat, seq<nat>>, superfeatures: seq<nat>, chunkid: nat, sf: nat)
    requires sf in superfeatures
    ensures var index' := Pushed(index, superfeatures, chunkid); sf in index' && chunkid in index'[sf]
  {
    var n := |superfeatures| - 1;
    if sf != superfeatures[n] {
      PushedIsFound(index, superfeatures[..n], chunkid, sf);
    }
  }

  class FeatureIndexTable {
    var index: map<nat, seq<nat>>

    constructor ()
      ensures index == map[]
    {
      index := map[];
    }

    method Find(superfeatures: seq<nat>) returns (r: Option<nat>)
      ensures r == FirstHit(index, superfeatures)
    {
      var i := 0;
      while i < |superfeatures|
        invariant 0 <= i <= |superfeatures|
        invariant FirstHit(index, superfeatures) == FirstHit(index, superfeatures[i..])
      {
        var sf := superfeatures[i];
        assert superfeatures[i..][1..] == superfeatures[i + 1..];
        if sf in index && |index[sf]| > 0 {
          return Some(index[sf][0]);
        }
        i := i + 1;
      }
      return None;
    }

    method Insert(superfeatures: seq<nat>, chunkid: nat)
      requires |superfeatures| == ODESS_SF_NUM
      modifies this
      ensures index == Pushed(old(index), superfeatures, chunkid)
    {
      ghost var was := index;
      var i := 0;
      while i < ODESS_SF_NUM
        invariant 0 <= i <= ODESS_SF_NUM
        invariant index == Pushed(was, superfeatures[..i], chunkid)
      {
        assert superfeatures[..i + 1][..i] == superfeatures[..i];
        index := index[superfeatures[i] := Listed(index, superfeatures[i]) + [chunkid]];
        i := i + 1;
      }
      assert superfeatures[..i] == superfeatures;
    }
  }
}
