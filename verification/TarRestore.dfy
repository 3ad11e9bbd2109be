// restoreHeaderFile: the header blocks of a backup are read again, and after each the chunks of its body are written.
module TarRestore {
  import opened Bytes
  import opened Memory
  import opened Packing
  import opened Tar
  import opened TarReads
  import opened TarSplit
  import opened ChunkStore
  import FastCdc

  const HEADER_BUFFER: nat := 16 * BLOCK

  // ---------------------------------------------------------------------------------------------
  // What the restorer makes of any header blocks and chunks
  // ---------------------------------------------------------------------------------------------

  // How many chunks it takes to use up a size; None if the chunks run out or one is larger than what is left.
  function Take(left: nat, data: seq<Buffer>): (n: Option<nat>)
    ensures n.Some? ==> n.value <= |data| && (n.value == 0 <==> left == 0)
  {
    if left == 0 then Some(0)
    else if data == [] || |data[0]| > left then None
    else match Take(left - |data[0]|, data[1..]) case None => None case Some(n) => Some(n + 1)
  }

  // How many chunks are written after a header block, of those that are left.
  function Taken(h: Buffer, data: seq<Buffer>): (n: Option<nat>)
    requires |h| == BLOCK
    ensures n.Some? ==> n.value <= |data|
  {
    var (kind, size) := MergeHeader(h);
    if size == 0 || kind.FileHeader? || data == [] then Some(0)
    else if kind.FileChunk? then Some(1)
    else Take(RoundUp(size), data)
  }

  // The chunks written after each header block; None if a big body has not the size its header says.
  function Merged(headers: Buffer, data: seq<Buffer>): Option<seq<seq<Buffer>>> {
    if |headers| < BLOCK then Some([])
    else
      match Taken(headers[..BLOCK], data)
      case None => None
      case Some(n) =>
        match Merged(headers[BLOCK..], data[n..])
        case None => None
        case Some(rest) => Some([data[..n]] + rest)
  }

  // The file: each header block with its chunks.
  function Written(headers: Buffer, cuts: seq<seq<Buffer>>): Buffer {
    if |headers| < BLOCK || cuts == [] then []
    else headers[..BLOCK] + Flat(cuts[0]) + Written(headers[BLOCK..], cuts[1..])
  }

  // ---------------------------------------------------------------------------------------------
  // What it makes of a split archive
  // ---------------------------------------------------------------------------------------------

  // A body that is not cut is larger than a container only after an extended header or a long name: their sizes have no
  // limit.
  lemma OnlyNamesOutgrow(m: Member, big: nat)
    requires MemberShape(m, big) && big <= CONTAINER_MAX_SIZE && !IsBig(m.header, big)
    ensures |m.body| > CONTAINER_MAX_SIZE ==> m.header[TYPE_AT] == XHDTYPE || m.header[TYPE_AT] == LONGNAME
  {
    hide OctalSize;
    if !CutHeader(m.header, big).0.FileHeader? {
      RoundUpHolds(CutHeader(m.header, big).1);
    }
  }

  ghost predicate NoBodies(members: seq<Member>) {
    forall i :: 0 <= i < |members| ==> members[i].body == []
  }

  // Whether the restorer expects after a header what the chunker found there. Two things do no harm when no data comes
  // after: a type flag NUL with a size, which the chunker takes for no body, and a body of which nothing was seen. The
  // rest is about a BigChunkSize other than the size of a container, the restorer's limit: what only one of them takes
  // for a big body has to be one chunk all the same.
  ghost predicate ReadAlike(m: Member, nothingAfter: bool, big: nat) {
    && |m.header| == BLOCK
    && var size := OctalSize(m.header, SIZE_DIGITS);
    && (m.header[TYPE_AT] == AREGTYPE && !NulSize(m.header) ==> nothingAfter)
    && (Missing(m, big) ==> nothingAfter)
    && (m.header[TYPE_AT] == REGTYPE && big < size <= CONTAINER_MAX_SIZE ==> |m.body| <= FastCdc.MAX_CHUNK_SIZE)
    && (m.header[TYPE_AT] == REGTYPE && CONTAINER_MAX_SIZE < size <= big ==> |m.body| in {0, RoundUp(size)})
  }

  ghost predicate AllReadAlike(members: seq<Member>, big: nat) {
    forall i :: 0 <= i < |members| ==> ReadAlike(members[i], NoBodies(members[i + 1..]), big)
  }

  lemma {:induction false} TakeAll(cuts: seq<Buffer>, rest: seq<Buffer>)
    requires forall i :: 0 <= i < |cuts| ==> cuts[i] != []
    ensures Take(|Flat(cuts)|, cuts + rest) == Some(|cuts|)
  {
    if cuts == [] {
      NothingFlat();
    } else {
      FlatCons(cuts);
      TakeAll(cuts[1..], rest);
      assert (cuts + rest)[1..] == cuts[1..] + rest;
    }
  }

  lemma TakenForNul(m: Member, c: Config, rest: seq<Buffer>)
    requires |m.header| == BLOCK && m.header[TYPE_AT] == AREGTYPE && m.body == []
    ensures Taken(m.header, rest) == Some(0) <==> (NulSize(m.header) || rest == [])
  {
    hide OctalSize, RawSize, Take;
    RawIsZero(m.header, SIZE_DIGITS);
    Pow8Small(SIZE_DIGITS);
    RoundUpHolds(RawSize(m.header, SIZE_DIGITS));
  }

  lemma TakenForFile(m: Member, c: Config, rest: seq<Buffer>)
    requires MemberShape(m, c.big) && m.header[TYPE_AT] == REGTYPE
    ensures Taken(m.header, BodyCuts(m, c) + rest) == Some(|BodyCuts(m, c)|) <==> ReadAlike(m, rest == [], c.big)
  {
    hide OctalSize, BodyCuts, Take, Flat, RoundUp;
    var size := OctalSize(m.header, SIZE_DIGITS);
    RoundUpHolds(size);
    CutsAre(m, c);
    TakeAll(BodyCuts(m, c), rest);
    if m.body == [] {
      assert BodyCuts(m, c) + rest == rest;
    } else if CONTAINER_MAX_SIZE < size <= c.big && |m.body| < RoundUp(size) {
      TakeMore(RoundUp(size), m.body, rest);
    }
  }

  lemma TakeMore(left: nat, body: Buffer, rest: seq<Buffer>)
    requires |body| < left
    ensures Take(left, [body] + rest) != Some(1)
  {
    assert ([body] + rest)[1..] == rest;
  }

  // The restorer takes the chunks of this member, no more and no fewer, exactly if it reads the header alike.
  lemma TakenIs(m: Member, c: Config, rest: seq<Buffer>)
    requires MemberShape(m, c.big)
    ensures Taken(m.header, BodyCuts(m, c) + rest) == Some(|BodyCuts(m, c)|) <==> ReadAlike(m, rest == [], c.big)
  {
    hide OctalSize, RawSize, BodyCuts, Take, Flat, RoundUp;
    CutsAre(m, c);
    RoundUpHolds(0);
    if m.header[TYPE_AT] == REGTYPE {
      TakenForFile(m, c, rest);
    } else if m.header[TYPE_AT] == AREGTYPE {
      TakenForNul(m, c, rest);
      assert BodyCuts(m, c) + rest == rest;
    } else {
      if !CutHeader(m.header, c.big).0.FileHeader? {
        RoundUpHolds(OctalSize(m.header, SIZE_DIGITS));
      }
      assert m.body == [] ==> BodyCuts(m, c) + rest == rest;
    }
  }

  lemma {:induction false} NothingToConcat(members: seq<Member>, c: Config)
    requires WholeHeaders(members)
    ensures Concat(AllCuts(members, c)) == [] <==> NoBodies(members)
  {
    hide BodyCuts;
    if members != [] {
      CutsAre(members[0], c);
      NothingToConcat(members[1..], c);
      assert AllCuts(members, c)[1..] == AllCuts(members[1..], c);
    }
  }

  // The chunks of a split go to the headers they came from, if and only if the restorer reads every header as the
  // chunker did.
  lemma {:induction false} MergedIsSplit(members: seq<Member>, c: Config)
    requires Shapes(members, c.big)
    ensures Merged(HeaderBytes(members), Concat(AllCuts(members, c))) == Some(AllCuts(members, c))
            <==> AllReadAlike(members, c.big)
    decreases |members|
  {
    hide Taken, BodyCuts, ReadAlike, MemberShape, NoBodies, Shapes;
    var cuts := AllCuts(members, c);
    if members == [] {
      assert cuts == [];
    } else {
      var m, rest := members[0], members[1..];
      ShapesCons(members, c.big);
      MergedIsSplit(rest, c);
      assert cuts[1..] == AllCuts(rest, c);
      TakenIs(m, c, Concat(AllCuts(rest, c)));
      NothingToConcat(rest, c);
      AlikeRest(members, c.big);
      MergedFirst(m.header, HeaderBytes(rest), cuts[0], Concat(cuts[1..]), cuts[1..]);
      assert [cuts[0]] + cuts[1..] == cuts;
    }
  }

  lemma ShapesCons(members: seq<Member>, big: nat)
    requires Shapes(members, big) && members != []
    ensures MemberShape(members[0], big) && |members[0].header| == BLOCK && Shapes(members[1..], big)
    ensures WholeHeaders(members)
  {
    hide CutHeader, RoundUp;
  }

  lemma AlikeRest(members: seq<Member>, big: nat)
    requires members != []
    ensures AllReadAlike(members, big)
            <==> ReadAlike(members[0], NoBodies(members[1..]), big) && AllReadAlike(members[1..], big)
  {
    hide ReadAlike, NoBodies;
    var rest := members[1..];
    if ReadAlike(members[0], NoBodies(rest), big) && AllReadAlike(rest, big) {
      forall i | 0 <= i < |members| ensures ReadAlike(members[i], NoBodies(members[i + 1..]), big) {
        if i > 0 {
          assert ReadAlike(rest[i - 1], NoBodies(rest[i..]), big);
          assert rest[i..] == members[i + 1..];
        }
      }
    }
    if AllReadAlike(members, big) {
      forall i | 0 <= i < |rest| ensures ReadAlike(rest[i], NoBodies(rest[i + 1..]), big) {
        assert ReadAlike(members[i + 1], NoBodies(members[i + 2..]), big);
        assert rest[i + 1..] == members[i + 2..];
      }
    }
  }

  // One header block of the merge: the first chunks are its own exactly if that many are taken.
  lemma MergedFirst(h: Buffer, headers: Buffer, first: seq<Buffer>, data: seq<Buffer>, cuts: seq<seq<Buffer>>)
    requires |h| == BLOCK
    ensures Merged(h + headers, first + data) == Some([first] + cuts)
            <==> Taken(h, first + data) == Some(|first|) && Merged(headers, data) == Some(cuts)
  {
    hide Taken;
    var all := h + headers;
    assert all[..BLOCK] == h && all[BLOCK..] == headers;
    var n := Taken(h, first + data);
    if n.Some? {
      var m := Merged(headers, (first + data)[n.value..]);
      assert n.value == |first| ==> (first + data)[..n.value] == first && (first + data)[n.value..] == data;
      if m.Some? {
        var got := [(first + data)[..n.value]] + m.value;
        assert got[0] == (first + data)[..n.value] && got[1..] == m.value;
        assert ([first] + cuts)[0] == first && ([first] + cuts)[1..] == cuts;
      }
    }
  }

  // With the chunks of their members, the headers give the archive.
  lemma {:induction false} WrittenIsJoined(members: seq<Member>, c: Config)
    requires WholeHeaders(members)
    ensures Written(HeaderBytes(members), AllCuts(members, c)) == Joined(members)
  {
    hide BodyCuts, Flat;
    if members != [] {
      WrittenIsJoined(members[1..], c);
      CutsAre(members[0], c);
      assert AllCuts(members, c)[1..] == AllCuts(members[1..], c);
      var all := HeaderBytes(members);
      assert all[..BLOCK] == members[0].header && all[BLOCK..] == HeaderBytes(members[1..]);
    }
  }

  // What the restorer makes of the split of an archive: the archive, exactly if it reads the headers alike.
  lemma SplitMerges(a: Buffer, c: Config)
    requires Legible(a, Start(a, c), c)
    ensures var seen := SeenMembers(a, c);
            var members, headers, data := Bare(seen), Flat(Pieces(Split(seen, c), true)), Pieces(Split(seen, c), false);
            && (Merged(headers, data) == Some(AllCuts(members, c)) <==> AllReadAlike(members, c.big))
            && Written(headers, AllCuts(members, c)) == a
  {
    hide Merged, Written, Split, AllCuts, SeenFrom, Legible, MemberShape, AllReadAlike, Flat, Start;
    var members := Bare(SeenMembers(a, c));
    SeenShapes(a, Start(a, c), c);
    ShapesAreWhole(members, c.big);
    SplitIs(SeenMembers(a, c), c);
    MergedIsSplit(members, c);
    WrittenIsJoined(members, c);
    StartsAtZero(a, c);
    SeenJoin(a, Start(a, c), c);
    assert a[0..] == a;
  }

  lemma ShapesAreWhole(members: seq<Member>, big: nat)
    requires Shapes(members, big)
    ensures WholeHeaders(members)
  {
    hide CutHeader, RoundUp;
  }

  lemma StartsAtZero(a: Buffer, c: Config)
    ensures Start(a, c).pos == 0
  {
  }

  // ---------------------------------------------------------------------------------------------
  // The restorer
  // ---------------------------------------------------------------------------------------------

  ghost predicate GroupOk(group: Buffer) {
    0 < |group| <= HEADER_BUFFER && |group| % BLOCK == 0
  }

  // The next header block and its chunks.
  lemma NextMerged(headers: Buffer, data: seq<Buffer>)
    requires |headers| >= BLOCK && Merged(headers, data).Some?
    ensures Taken(headers[..BLOCK], data).Some?
    ensures var n := Taken(headers[..BLOCK], data).value;
            && Merged(headers[BLOCK..], data[n..]).Some?
            && Written(headers, Merged(headers, data).value)
               == headers[..BLOCK] + Flat(data[..n])
                  + Written(headers[BLOCK..], Merged(headers[BLOCK..], data[n..]).value)
  {
    hide Taken, Flat;
    var n := Taken(headers[..BLOCK], data).value;
    assert ([data[..n]] + Merged(headers[BLOCK..], data[n..]).value)[1..] == Merged(headers[BLOCK..], data[n..]).value;
  }

  ghost function Chunks(store: DataWrite, codec: Codec, recipe: seq<nat>): seq<Buffer>
    reads store
  {
    Contents(store.Inserted(), codec, recipe)
  }

  ghost predicate CanRestore(store: DataWrite, codec: Codec, recipe: seq<nat>)
    reads store
  {
    forall k :: 0 <= k < |recipe| ==> Restorable(store.Inserted(), codec, recipe[k])
  }

  ghost predicate GroupsOk(l: Ledger, codec: Codec, headers: seq<nat>) {
    forall k :: 0 <= k < |headers| ==> GroupOk(ContentOf(l, codec, headers[k]))
  }

  lemma GroupsAreOk(l: Ledger, codec: Codec, headers: seq<nat>)
    requires forall g :: g in Contents(l, codec, headers) ==> GroupOk(g)
    ensures GroupsOk(l, codec, headers)
  {
    hide GroupOk, ContentOf;
    forall k | 0 <= k < |headers| ensures GroupOk(ContentOf(l, codec, headers[k])) {
      assert Contents(l, codec, headers)[k] in Contents(l, codec, headers);
    }
  }

  class Restorer {
    const store: DataWrite
    var nextChunkType: Kind
    var nextChunkSize: nat
    var bigSize: nat                       // Big_Chunk_Size
    const multiHeaderBuffer: array<byte>
    var multiHeaderChunkSize: nat
    var multiHeaderOffset: nat

    constructor (store: DataWrite)
      ensures this.store == store && fresh(multiHeaderBuffer) && Idle()
    {
      this.store := store;
      multiHeaderBuffer := new byte[HEADER_BUFFER](_ => 0);
      nextChunkType, nextChunkSize, bigSize, multiHeaderChunkSize, multiHeaderOffset := FileHeader, 0, 0, 0, 0;
    }

    // Between two restores.
    ghost predicate Idle()
      reads this
    {
      && multiHeaderBuffer.Length == HEADER_BUFFER && multiHeaderBuffer != store.data && multiHeaderBuffer != store.safe
      && multiHeaderChunkSize == multiHeaderOffset <= HEADER_BUFFER
    }

    ghost function Cached(): set<object> {
      {store.cache, store.cache.lru, store.cache.pool, store.safe}
    }

    // CutPointTarFast of dataWrite; it is called with FILE_HEADER to come only.
    method ParseHeader(h: Buffer)
      requires |h| == BLOCK && nextChunkType.FileHeader?
      modifies `nextChunkType, `nextChunkSize, `bigSize
      ensures (nextChunkType, nextChunkSize) == MergeHeader(h)
      ensures nextChunkType.BigChunk? ==> bigSize == RoundUp(nextChunkSize)
    {
      nextChunkSize := 0;
      var i := 0;
      while i < SIZE_DIGITS
        invariant 0 <= i <= SIZE_DIGITS && nextChunkSize == OctalSize(h, i) && nextChunkType.FileHeader?
      {
        nextChunkSize := (nextChunkSize * 8 + h[SIZE_AT + i] - 48) % U64;
        i := i + 1;
      }
      if h[TYPE_AT] == REGTYPE {
        Classify();
      }
      if h[TYPE_AT] == AREGTYPE {
        nextChunkSize, i := 0, 0;
        while i < SIZE_DIGITS
          invariant 0 <= i <= SIZE_DIGITS && nextChunkSize == RawSize(h, i)
        {
          nextChunkSize := (nextChunkSize * 8 + h[SIZE_AT + i]) % U64;
          i := i + 1;
        }
        Classify();
      }
      if h[TYPE_AT] == XHDTYPE || h[TYPE_AT] == LONGNAME {
        nextChunkType := FileChunk;
      }
    }

    method Classify()
      modifies `nextChunkType, `bigSize
      ensures nextChunkType == if nextChunkSize <= CONTAINER_MAX_SIZE then FileChunk else BigChunk
      ensures nextChunkType.BigChunk? ==> bigSize == RoundUp(nextChunkSize)
    {
      if nextChunkSize <= CONTAINER_MAX_SIZE {
        nextChunkType := FileChunk;
      } else {
        nextChunkType := BigChunk;
        bigSize := RoundUp(nextChunkSize);
      }
    }

    // The chunks of a big body, until its size is used up.
    method WriteBig(recipe: seq<nat>, from: nat, codec: Codec, ghost data: seq<Buffer>, ghost n: nat)
      returns (body: Buffer, dataP: nat)
      requires Take(bigSize, data) == Some(n)
      requires store.Valid() && from <= |recipe| && CanRestore(store, codec, recipe)
      requires data == Chunks(store, codec, recipe[from..])
      modifies Cached()
      ensures store.Valid() && dataP == from + n && body == Flat(data[..n])
    {
      hide DataWrite.Valid, ContentOf, Restorable, Flat;
      body, dataP := [], from;
      var left: nat := bigSize;
      NothingFlat();
      assert data[..0] == [] && data[0..] == data;
      while left != 0
        invariant from <= dataP <= |recipe| && (store.Valid() <==> true)
        invariant Take(left, data[dataP - from..]) == Some(n - (dataP - from)) && dataP - from <= n
        invariant body == Flat(data[..dataP - from])
        decreases left, |recipe| - dataP
      {
        ghost var k := dataP - from;
        var chunk := store.RestoreChunk(recipe[dataP], codec);
        assert chunk == data[k];
        FlatSnoc(data[..k], data[k]);
        assert data[..k + 1] == data[..k] + [data[k]] && data[k..][1..] == data[k + 1..];
        body := body + chunk;
        dataP := dataP + 1;
        left := left - |chunk|;
      }
    }

    // What follows a header block: nothing, one chunk, or the chunks of a big body.
    method WriteBody(ghost h: Buffer, recipe: seq<nat>, from: nat, codec: Codec, ghost data: seq<Buffer>, ghost n: nat)
      returns (body: Buffer, dataP: nat)
      requires |h| == BLOCK && Taken(h, data) == Some(n)
      requires (nextChunkType, nextChunkSize) == MergeHeader(h)
      requires nextChunkType.BigChunk? ==> bigSize == RoundUp(nextChunkSize)
      requires store.Valid() && from <= |recipe| && CanRestore(store, codec, recipe)
      requires data == Chunks(store, codec, recipe[from..])
      modifies Cached()
      ensures store.Valid() && dataP == from + n && body == Flat(data[..n])
    {
      hide DataWrite.Valid, ContentOf, Restorable, MergeHeader, Flat, RoundUp, Take;
      NothingFlat();
      assert data[..0] == [];
      body, dataP := [], from;
      if nextChunkSize == 0 {
        return;
      }
      if nextChunkType.FileChunk? && dataP != |recipe| {
        body := store.RestoreChunk(recipe[dataP], codec);
        dataP := dataP + 1;
        FlatOne(data[0]);
        assert data[..1] == [data[0]];
      }
      if nextChunkType.BigChunk? && dataP != |recipe| {
        body, dataP := WriteBig(recipe, from, codec, data, n);
      }
    }

    ghost function Buffered(): Buffer
      requires multiHeaderOffset <= multiHeaderChunkSize <= multiHeaderBuffer.Length
      reads this, multiHeaderBuffer
    {
      multiHeaderBuffer[multiHeaderOffset..multiHeaderChunkSize]
    }

    // The header blocks still to write: what is in the buffer, and the groups to come.
    ghost function HeadersLeft(headers: seq<nat>, headerP: nat, codec: Codec): Buffer
      requires multiHeaderOffset <= multiHeaderChunkSize <= multiHeaderBuffer.Length && headerP <= |headers|
      reads this, multiHeaderBuffer, store
    {
      Buffered() + Flat(Chunks(store, codec, headers[headerP..]))
    }

    // With `out` written, and the recipes read up to headerP and dataP, the rest gives the file.
    ghost predicate Reached(out: Buffer, headers: seq<nat>, headerP: nat, chunks: seq<nat>, dataP: nat, codec: Codec,
                            file: Buffer)
      reads this, multiHeaderBuffer, store, store.cache, store.cache.lru, store.cache.pool, store.data, store.safe
    {
      && multiHeaderBuffer.Length == HEADER_BUFFER && multiHeaderBuffer != store.data && multiHeaderBuffer != store.safe
      && multiHeaderOffset <= multiHeaderChunkSize <= HEADER_BUFFER
      && (multiHeaderChunkSize - multiHeaderOffset) % BLOCK == 0
      && store.Valid() && headerP <= |headers| && dataP <= |chunks|
      && var left, data := HeadersLeft(headers, headerP, codec), Chunks(store, codec, chunks[dataP..]);
      && Merged(left, data).Some? && out + Written(left, Merged(left, data).value) == file
    }

    // The next group of headers comes into the buffer.
    method LoadGroup(ghost out: Buffer, headers: seq<nat>, headerP: nat, ghost chunks: seq<nat>, ghost dataP: nat,
                     codec: Codec, ghost file: Buffer)
      requires Reached(out, headers, headerP, chunks, dataP, codec, file)
      requires headerP < |headers| && multiHeaderOffset == multiHeaderChunkSize
      requires Restorable(store.Inserted(), codec, headers[headerP])
      requires GroupsOk(store.Inserted(), codec, headers)
      modifies Cached(), multiHeaderBuffer, `multiHeaderChunkSize, `multiHeaderOffset
      ensures Reached(out, headers, headerP + 1, chunks, dataP, codec, file)
      ensures multiHeaderOffset == 0 < multiHeaderChunkSize
    {
      hide DataWrite.Valid, ContentOf, Restorable, Merged, Written, Flat;
      ghost var groups := Chunks(store, codec, headers[headerP..]);
      FlatCons(groups);
      assert Buffered() == [] && [] + Flat(groups) == Flat(groups);
      var group := store.RestoreChunk(headers[headerP], codec);
      assert group == groups[0] && groups[1..] == Chunks(store, codec, headers[headerP + 1..]);
      multiHeaderChunkSize, multiHeaderOffset := |group|, 0;
      Memcpy(multiHeaderBuffer, 0, group);
      assert multiHeaderBuffer[0..|group|] == group;
    }

    // One header block is written, and what follows it.
    method WriteMember(ghost out: Buffer, ghost headers: seq<nat>, ghost headerP: nat, chunks: seq<nat>, from: nat,
                       codec: Codec, ghost file: Buffer)
      returns (written: Buffer, dataP: nat)
      requires Reached(out, headers, headerP, chunks, from, codec, file)
      requires multiHeaderOffset < multiHeaderChunkSize && CanRestore(store, codec, chunks)
      modifies Cached(), `nextChunkType, `nextChunkSize, `bigSize, `multiHeaderOffset
      ensures Reached(out + written, headers, headerP, chunks, dataP, codec, file)
      ensures multiHeaderOffset == old(multiHeaderOffset) + BLOCK
    {
      hide DataWrite.Valid, ContentOf, Restorable, Merged, Written, Flat, MergeHeader, Taken, RoundUp;
      ghost var left, data := HeadersLeft(headers, headerP, codec), Chunks(store, codec, chunks[from..]);
      AtLeastABlock(multiHeaderChunkSize - multiHeaderOffset);
      nextChunkType := FileHeader;
      var h := multiHeaderBuffer[multiHeaderOffset..multiHeaderOffset + BLOCK];
      assert h == Buffered()[..BLOCK] == left[..BLOCK];
      NextMerged(left, data);
      ghost var n := Taken(h, data).value;
      ParseHeader(h);
      multiHeaderOffset := multiHeaderOffset + BLOCK;
      assert left[BLOCK..] == HeadersLeft(headers, headerP, codec);
      var body;
      body, dataP := WriteBody(h, chunks, from, codec, data, n);
      written := h + body;
      assert data[n..] == Chunks(store, codec, chunks[dataP..]);
      ghost var rest := Written(left[BLOCK..], Merged(left[BLOCK..], data[n..]).value);
      assert out + (h + body + rest) == out + written + rest;
    }

    // restoreHeaderFile: the header blocks and the chunks that the recipes stand for are merged.
    method RestoreHeaderFile(fileName: string, codec: Codec, ghost groups: seq<Buffer>, ghost data: seq<Buffer>,
                             ghost cuts: seq<seq<Buffer>>)
      returns (out: Buffer)
      requires Merged(Flat(groups), data) == Some(cuts) && forall g :: g in groups ==> GroupOk(g)
      requires Idle() && store.Valid()
      requires CanRestore(store, codec, RecipeOf(store.headerRecipes, fileName))
      requires CanRestore(store, codec, RecipeOf(store.recipes, fileName))
      requires groups == Chunks(store, codec, RecipeOf(store.headerRecipes, fileName))
      requires data == Chunks(store, codec, RecipeOf(store.recipes, fileName))
      modifies this, multiHeaderBuffer, Cached()
      ensures Idle() && store.Valid() && out == Written(Flat(groups), cuts)
    {
      hide DataWrite.Valid, ContentOf, Restorable, GroupOk, GroupsOk, Merged, Written, Flat, Reached;
      var headers, chunks := RecipeOf(store.headerRecipes, fileName), RecipeOf(store.recipes, fileName);
      ghost var file := Written(Flat(groups), cuts);
      Start(headers, chunks, codec, groups, data, cuts);
      out := [];
      GroupsAreOk(store.Inserted(), codec, headers);
      var headerP: nat, dataP: nat := 0, 0;
      while headerP != |headers| || dataP != |chunks| || multiHeaderChunkSize != multiHeaderOffset
        invariant Reached(out, headers, headerP, chunks, dataP, codec, file) <==> true
        invariant headerP <= |headers| && dataP <= |chunks| && (store.Valid() <==> true)
        invariant multiHeaderOffset <= multiHeaderChunkSize
        invariant CanRestore(store, codec, headers) && CanRestore(store, codec, chunks)
        invariant GroupsOk(store.Inserted(), codec, headers)
        decreases |headers| - headerP, multiHeaderChunkSize - multiHeaderOffset
      {
        if multiHeaderChunkSize == multiHeaderOffset && headerP != |headers| {
          LoadGroup(out, headers, headerP, chunks, dataP, codec, file);
          headerP := headerP + 1;
        }
        if multiHeaderOffset >= multiHeaderChunkSize {
          break;
        }
        var written;
        written, dataP := WriteMember(out, headers, headerP, chunks, dataP, codec, file);
        out := out + written;
        Within(out, headers, headerP, chunks, dataP, codec, file);
      }
      AllWritten(out, headers, headerP, chunks, dataP, codec, file);
      nextChunkType := FileHeader;
    }

    lemma Start(headers: seq<nat>, chunks: seq<nat>, codec: Codec, groups: seq<Buffer>, data: seq<Buffer>,
                cuts: seq<seq<Buffer>>)
      requires Idle() && store.Valid() && Merged(Flat(groups), data) == Some(cuts)
      requires groups == Chunks(store, codec, headers) && data == Chunks(store, codec, chunks)
      ensures Reached([], headers, 0, chunks, 0, codec, Written(Flat(groups), cuts))
    {
      hide DataWrite.Valid, ContentOf, Merged, Written, Flat;
      assert headers[0..] == headers && chunks[0..] == chunks && Buffered() == [];
      assert HeadersLeft(headers, 0, codec) == Flat(groups);
      assert [] + Written(Flat(groups), cuts) == Written(Flat(groups), cuts);
    }

    lemma Within(out: Buffer, headers: seq<nat>, headerP: nat, chunks: seq<nat>, dataP: nat, codec: Codec, file: Buffer)
      requires Reached(out, headers, headerP, chunks, dataP, codec, file)
      ensures dataP <= |chunks| && multiHeaderOffset <= multiHeaderChunkSize && (store.Valid() <==> true)
    {
      hide DataWrite.Valid, ContentOf, Merged, Written;
    }

    lemma AllWritten(out: Buffer, headers: seq<nat>, headerP: nat, chunks: seq<nat>, dataP: nat, codec: Codec,
                     file: Buffer)
      requires Reached(out, headers, headerP, chunks, dataP, codec, file)
      requires headerP == |headers| && multiHeaderOffset >= multiHeaderChunkSize
      ensures out == file && Idle()
    {
      hide DataWrite.Valid, ContentOf, Merged, Written;
      assert headers[headerP..] == [] && Buffered() == [];
      NothingLeft(Chunks(store, codec, chunks[dataP..]));
      assert HeadersLeft(headers, headerP, codec) == [] && out + [] == out;
    }
  }

  // Without header blocks nothing is written, whatever chunks are left.
  lemma NothingLeft(data: seq<Buffer>)
    ensures Merged([], data) == Some([]) && Written([], []) == []
  {
  }

  lemma AtLeastABlock(n: nat)
    requires n > 0 && n % BLOCK == 0
    ensures n >= BLOCK && (n - BLOCK) % BLOCK == 0
  {
  }
}
