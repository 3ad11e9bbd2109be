// Where the pieces handed to a chunk store end up: containers filled one after another, each piece put at the end of
// the current container, or at the start of a new one when the current one has no room for it.
module Packing {
  import opened Bytes

  // The containers after the pieces; the last one is the current one.
  function Pack(pieces: seq<Buffer>): (cs: seq<Buffer>)
    ensures |cs| >= 1
  {
    if pieces == [] then [[]] else Add(Pack(pieces[..|pieces| - 1]), pieces[|pieces| - 1])
  }

  function Add(cs: seq<Buffer>, piece: Buffer): (r: seq<Buffer>)
    requires |cs| >= 1
    ensures |r| >= 1
  {
    var last := cs[|cs| - 1];
    if |last| + |piece| > CONTAINER_MAX_SIZE then cs + [piece] else cs[..|cs| - 1] + [last + piece]
  }

  // The container and the offset piece i was put at.
  function Place(pieces: seq<Buffer>, i: nat): (r: (nat, nat))
    requires i < |pieces|
  {
    var before := Pack(pieces[..i]);
    var last := before[|before| - 1];
    if |last| + |pieces[i]| > CONTAINER_MAX_SIZE then (|before|, 0) else (|before| - 1, |last|)
  }

  // Later containers only come after, and the current one only grows at its end.
  ghost predicate GrownFrom(was: seq<Buffer>, cs: seq<Buffer>)
    requires |was| >= 1
  {
    && |was| <= |cs| && was[|was| - 1] <= cs[|was| - 1]
    && (forall c :: 0 <= c < |was| - 1 ==> was[c] == cs[c])
  }

  lemma AddGrows(was: seq<Buffer>, cs: seq<Buffer>, piece: Buffer)
    requires |was| >= 1 && GrownFrom(was, cs)
    ensures GrownFrom(was, Add(cs, piece))
  {
  }

  lemma PackSnoc(pieces: seq<Buffer>, piece: Buffer)
    ensures Pack(pieces + [piece]) == Add(Pack(pieces), piece)
  {
    assert (pieces + [piece])[..|pieces|] == pieces;
  }

  lemma {:induction false} PackGrows(pieces: seq<Buffer>, i: nat)
    requires i <= |pieces|
    ensures GrownFrom(Pack(pieces[..i]), Pack(pieces))
  {
    if i == |pieces| {
      assert pieces[..i] == pieces;
    } else {
      var most := pieces[..|pieces| - 1];
      PackGrows(most, i);
      assert most[..i] == pieces[..i];
      AddGrows(Pack(pieces[..i]), Pack(most), pieces[|pieces| - 1]);
    }
  }

  // Right after it is added, a piece is what its container ends with.
  lemma JustPlaced(pieces: seq<Buffer>, i: nat)
    requires i < |pieces|
    ensures var (c, offset) := Place(pieces, i);
            var after := Pack(pieces[..i + 1]);
            |after| == c + 1 && |after[c]| == offset + |pieces[i]| && after[c][offset..] == pieces[i]
  {
    hide Pack;
    PackSnoc(pieces[..i], pieces[i]);
    assert pieces[..i] + [pieces[i]] == pieces[..i + 1];
  }

  // A piece stays where it was put, whatever is added later.
  lemma StaysInPlace(pieces: seq<Buffer>, i: nat)
    requires i < |pieces|
    ensures var (c, offset) := Place(pieces, i);
            && c < |Pack(pieces)| && offset + |pieces[i]| <= |Pack(pieces)[c]|
            && Pack(pieces)[c][offset..offset + |pieces[i]|] == pieces[i]
  {
    hide Pack, Place;
    var (c, offset) := Place(pieces, i);
    JustPlaced(pieces, i);
    PackGrows(pieces, i + 1);
    SliceOfPrefix(Pack(pieces[..i + 1])[c], Pack(pieces)[c], offset);
  }

  lemma SliceOfPrefix(a: Buffer, b: Buffer, from: nat)
    requires a <= b && from <= |a|
    ensures b[from..|a|] == a[from..]
  {
  }

  // Where a piece was put depends only on the pieces before it.
  lemma PlaceOfPrefix(pieces: seq<Buffer>, more: seq<Buffer>, i: nat)
    requires i < |pieces|
    ensures Place(pieces + more, i) == Place(pieces, i)
  {
    assert (pieces + more)[..i] == pieces[..i];
  }

  // No container passes the maximum, given that no piece does.
  lemma {:induction false} WithinMaximum(pieces: seq<Buffer>)
    requires forall i :: 0 <= i < |pieces| ==> |pieces[i]| <= CONTAINER_MAX_SIZE
    ensures forall c :: 0 <= c < |Pack(pieces)| ==> |Pack(pieces)[c]| <= CONTAINER_MAX_SIZE
  {
    if pieces != [] {
      WithinMaximum(pieces[..|pieces| - 1]);
    }
  }

  // A container is left for a new one only when the piece that the new one starts with had no room in it.
  lemma {:induction false} LeftWhenFull(pieces: seq<Buffer>, c: nat) returns (i: nat)
    requires 0 < c < |Pack(pieces)|
    ensures i < |pieces| && Place(pieces, i) == (c, 0)
    ensures |Pack(pieces)[c - 1]| + |pieces[i]| > CONTAINER_MAX_SIZE
  {
    var n := |pieces| - 1;
    var before, last := Pack(pieces[..n]), pieces[n];
    assert pieces == pieces[..n] + [last];
    if c < |before| {
      i := LeftWhenFull(pieces[..n], c);
      PlaceOfPrefix(pieces[..n], [last], i);
    } else {
      i := n;
    }
  }

  function Flat(pieces: seq<Buffer>): (r: Buffer) {
    if pieces == [] then [] else Flat(pieces[..|pieces| - 1]) + pieces[|pieces| - 1]
  }

  lemma FlatSnoc(pieces: seq<Buffer>, piece: Buffer)
    ensures Flat(pieces + [piece]) == Flat(pieces) + piece
  {
    assert (pieces + [piece])[..|pieces|] == pieces;
  }

  lemma FlatOne(piece: Buffer)
    ensures Flat([piece]) == piece
  {
    FlatSnoc([], piece);
    assert [piece] == [] + [piece];
  }

  lemma FlatLast(pieces: seq<Buffer>)
    requires pieces != []
    ensures Flat(pieces) == Flat(pieces[..|pieces| - 1]) + pieces[|pieces| - 1]
  {
  }

  lemma AddJoins(cs: seq<Buffer>, piece: Buffer)
    requires |cs| >= 1
    ensures Flat(Add(cs, piece)) == Flat(cs) + piece
  {
    hide Flat;
    var n := |cs| - 1;
    FlatLast(cs);
    if |cs[n]| + |piece| > CONTAINER_MAX_SIZE {
      FlatSnoc(cs, piece);
    } else {
      FlatSnoc(cs[..n], cs[n] + piece);
      Associative(Flat(cs[..n]), cs[n], piece);
    }
  }

  lemma Associative(a: Buffer, b: Buffer, c: Buffer)
    ensures a + (b + c) == a + b + c
  {
  }

  // The containers hold the pieces and nothing else, in order and without gaps.
  lemma {:induction false} TilesContainers(pieces: seq<Buffer>)
    ensures Flat(Pack(pieces)) == Flat(pieces)
  {
    hide Add;
    if pieces == [] {
      FlatOne([]);
    } else {
      var n := |pieces| - 1;
      TilesContainers(pieces[..n]);
      AddJoins(Pack(pieces[..n]), pieces[n]);
    }
  }

  // Two pieces of one container do not overlap.
  lemma NoOverlap(pieces: seq<Buffer>, i: nat, j: nat)
    requires i < j < |pieces|
    ensures Place(pieces, i).0 <= Place(pieces, j).0
    ensures Place(pieces, i).0 == Place(pieces, j).0 ==> Place(pieces, i).1 + |pieces[i]| <= Place(pieces, j).1
  {
    StaysInPlace(pieces[..j], i);
    assert pieces == pieces[..j] + pieces[j..];
    PlaceOfPrefix(pieces[..j], pieces[j..], i);
  }

  lemma {:induction false} FlatSplit(pieces: seq<Buffer>, i: nat)
    requires i <= |pieces|
    ensures Flat(pieces) == Flat(pieces[..i]) + Flat(pieces[i..])
  {
    if i == |pieces| {
      assert pieces[..i] == pieces;
    } else {
      var n := |pieces| - 1;
      FlatSplit(pieces[..n], i);
      assert pieces[..n][..i] == pieces[..i] && pieces[..n][i..] == pieces[i..][..n - i];
    }
  }

  lemma FlatCons(pieces: seq<Buffer>)
    requires pieces != []
    ensures Flat(pieces) == pieces[0] + Flat(pieces[1..])
  {
    FlatSplit(pieces, 1);
    FlatOne(pieces[0]);
    assert pieces[..1] == [pieces[0]];
  }
}
