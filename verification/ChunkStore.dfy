// dataWrite: the containers chunks are stored in, the chunk list, and reading chunks back through the container cache.
module ChunkStore {
  import opened Bytes
  import opened Memory
  import opened Packing
  import opened LruCache
  import opened ContainerCache
  import opened Lz4Format
  import Lz4

  datatype DeltaFlag = NoDelta | NoLz4 | FinesseDelta | LocalDelta

  datatype Chunk = Chunk(chunkSize: nat, saveSize: nat, containerID: nat, offset: nat, name: nat, basechunkID: int,
                         deltaFlag: DeltaFlag, headerFlag: bool, cdcFlag: bool)

  // Where a chunkPtr points: to memory of its own, into a slot of the container cache, or into the current container.
  datatype Pointer = Owned(bytes: Buffer) | InSlot(slot: nat, at: nat) | InCurrent(at: nat)

  // The delta encoder and decoder, as opaque functions of the target or the delta and the base.
  datatype Codec = Codec(encode: (Buffer, Buffer) -> Buffer, decode: (Buffer, Buffer) -> Buffer)

  ghost predicate Lossless(codec: Codec) {
    forall target: Buffer, base: Buffer ::
      codec.decode(codec.encode(target, base), base) == target && codec.encode(target, base) != []
  }

  // All that was ever inserted: the chunk list, the bytes put into containers, and the chunk or delta they stand for.
  datatype Ledger = Ledger(chunks: seq<Chunk>, pieces: seq<Buffer>, payloads: seq<Buffer>)

  predicate IsBase(c: Chunk) {
    c.deltaFlag.NoDelta? || c.deltaFlag.NoLz4?
  }

  // Every chunk's record says where its bytes are.
  ghost predicate Located(l: Ledger) {
    && |l.chunks| == |l.pieces| == |l.payloads|
    && (forall i :: 0 <= i < |l.pieces| ==> |l.pieces[i]| <= CONTAINER_MAX_SIZE)
    && (forall i :: 0 <= i < |l.chunks| ==> (l.chunks[i].containerID, l.chunks[i].offset) == Place(l.pieces, i))
  }

  // A chunk is stored as an LZ4 block, or as it is.
  ghost predicate Readable(l: Ledger, i: nat)
    requires |l.chunks| == |l.pieces| == |l.payloads|
  {
    && i < |l.chunks| && l.chunks[i].saveSize == |l.pieces[i]|
    && if l.chunks[i].deltaFlag.NoDelta?
       then IsBlockFor(l.pieces[i], l.payloads[i]) && |l.payloads[i]| == l.chunks[i].chunkSize <= CONTAINER_MAX_SIZE
       else l.payloads[i] == l.pieces[i]
  }

  // The containers: the sealed ones in their files, the current one in memory.
  ghost predicate Holding(pieces: seq<Buffer>, files: map<nat, Buffer>, current: Buffer, containerNum: nat) {
    var cs := Pack(pieces);
    && containerNum == |cs| - 1 && current == cs[containerNum]
    && (forall c: nat :: c in files <==> c < containerNum)
    && (forall c: nat :: c < containerNum ==> files[c] == cs[c])
  }

  // Every cached name's slot starts with the bytes of its container.
  ghost predicate CacheHolds(keys: seq<(nat, nat)>, pool: seq<Buffer>, files: map<nat, Buffer>) {
    forall i :: 0 <= i < |keys| ==> EntryHolds(keys[i], pool, files)
  }

  ghost predicate EntryHolds(entry: (nat, nat), pool: seq<Buffer>, files: map<nat, Buffer>) {
    entry.0 in files && entry.1 < |pool| && files[entry.0] <= pool[entry.1]
  }

  // The bytes of a container, wherever it is.
  ghost function ContainerBytes(files: map<nat, Buffer>, current: Buffer, c: nat): Buffer {
    if c in files then files[c] else current
  }

  lemma PieceIsThere(l: Ledger, files: map<nat, Buffer>, current: Buffer, containerNum: nat, i: nat)
    requires Located(l) && Holding(l.pieces, files, current, containerNum) && i < |l.chunks|
    ensures var c := l.chunks[i];
            var bytes := ContainerBytes(files, current, c.containerID);
            && |l.chunks| == |l.pieces| == |l.payloads| && c.containerID <= containerNum
               && (c.containerID in files <==> c.containerID != containerNum)
            && c.offset + |l.pieces[i]| <= |bytes| <= CONTAINER_MAX_SIZE
            && bytes[c.offset..c.offset + |l.pieces[i]|] == l.pieces[i]
  {
    hide Pack, Place;
    StaysInPlace(l.pieces, i);
    WithinMaximum(l.pieces);
  }

  lemma Appended(pieces: seq<Buffer>, files: map<nat, Buffer>, current: Buffer, containerNum: nat, piece: Buffer)
    requires Holding(pieces, files, current, containerNum)
    ensures var seal := |current| + |piece| > CONTAINER_MAX_SIZE;
            && Place(pieces + [piece], |pieces|) == (if seal then (containerNum + 1, 0) else (containerNum, |current|))
            && if seal then Holding(pieces + [piece], files[containerNum := current], piece, containerNum + 1)
               else Holding(pieces + [piece], files, current + piece, containerNum)
  {
    hide Pack;
    PackSnoc(pieces, piece);
    assert (pieces + [piece])[..|pieces|] == pieces;
  }

  lemma SealedHolds(keys: seq<(nat, nat)>, pool: seq<Buffer>, pieces: seq<Buffer>, files: map<nat, Buffer>,
                    current: Buffer, containerNum: nat)
    requires CacheHolds(keys, pool, files) && Holding(pieces, files, current, containerNum)
    ensures CacheHolds(keys, pool, files[containerNum := current])
  {
    hide Pack;
  }

  // One more chunk, with its piece put where it goes.
  ghost function Insert(l: Ledger, chunk: Chunk, piece: Buffer, payload: Buffer): Ledger {
    var (c, offset) := Place(l.pieces + [piece], |l.pieces|);
    Ledger(l.chunks + [chunk.(containerID := c, offset := offset)], l.pieces + [piece], l.payloads + [payload])
  }

  lemma InsertLocated(l: Ledger, chunk: Chunk, piece: Buffer, payload: Buffer)
    requires Located(l) && |piece| <= CONTAINER_MAX_SIZE
    ensures Located(Insert(l, chunk, piece, payload))
  {
    hide Place;
    forall i | 0 <= i < |l.pieces| ensures Place(l.pieces + [piece], i) == Place(l.pieces, i) {
      PlaceOfPrefix(l.pieces, [piece], i);
    }
  }

  // What a pointer points to starts with these bytes.
  ghost predicate PointsTo(ptr: Pointer, bytes: Buffer, pool: seq<Buffer>, current: Buffer) {
    match ptr
    case Owned(own) => own == bytes
    case InSlot(slot, at) => slot < |pool| && at + |bytes| <= |pool[slot]| && pool[slot][at..at + |bytes|] == bytes
    case InCurrent(at) => at + |bytes| <= |current| && current[at..at + |bytes|] == bytes
  }

  lemma SliceThrough(a: Buffer, b: Buffer, from: nat, end: nat)
    requires a <= b && from <= end <= |a|
    ensures b[from..end] == a[from..end]
  {
  }

  lemma TouchedHolds(keys: seq<(nat, nat)>, pool: seq<Buffer>, files: map<nat, Buffer>, name: nat)
    requires CacheHolds(keys, pool, files) && IndexOf(keys, name) < |keys|
    ensures name in files && keys[IndexOf(keys, name)].1 < |pool| && files[name] <= pool[keys[IndexOf(keys, name)].1]
    ensures CacheHolds(Touched(keys, name, keys[IndexOf(keys, name)].1), pool, files)
  {
    hide Touched, IndexOf, EntryHolds;
    var i := IndexOf(keys, name);
    EntryIsThere(keys[i], pool, files);
    var r := Touched(keys, name, keys[i].1);
    forall j | 0 <= j < |r| ensures EntryHolds(r[j], pool, files) {
      TouchedAt(keys, name, keys[i].1, j);
    }
  }

  lemma EntryIsThere(entry: (nat, nat), pool: seq<Buffer>, files: map<nat, Buffer>)
    requires EntryHolds(entry, pool, files)
    ensures entry.0 in files && entry.1 < |pool| && files[entry.0] <= pool[entry.1]
  {
  }

  // The container goes into a slot that none of the entries kept has.
  lemma InsertedHolds(keys: seq<(nat, nat)>, kept: nat, pool: seq<Buffer>, pool': seq<Buffer>, files: map<nat, Buffer>,
                      name: nat, slot: nat)
    requires CacheHolds(keys, pool, files) && name in files && kept <= |keys| && |pool| == |pool'| && slot < |pool|
    requires files[name] <= pool'[slot]
    requires forall i :: 0 <= i < |pool| && i != slot ==> pool'[i] == pool[i]
    requires forall i :: 0 <= i < kept ==> keys[i].1 != slot
    ensures CacheHolds([(name, slot)] + keys[..kept], pool', files)
  {
    var r := [(name, slot)] + keys[..kept];
    assert forall j :: 0 < j < |r| ==> r[j] == keys[j - 1];
  }

  // ---------------------------------------------------------------------------------------------
  // Restoring
  // ---------------------------------------------------------------------------------------------

  function RecipeOf(recipes: map<string, seq<nat>>, name: string): seq<nat> {
    if name in recipes then recipes[name] else []
  }

  // The chunk a record stands for: its payload, or what the payload, a delta, makes of the base chunk.
  ghost function ContentOf(l: Ledger, codec: Codec, i: nat): Buffer {
    if i < |l.chunks| == |l.payloads| then
      var c := l.chunks[i];
      if IsBase(c) then l.payloads[i]
      else if 0 <= c.basechunkID < |l.chunks| then codec.decode(l.payloads[i], l.payloads[c.basechunkID])
      else []
    else []
  }

  ghost function Contents(l: Ledger, codec: Codec, recipe: seq<nat>): seq<Buffer> {
    seq(|recipe|, i requires 0 <= i < |recipe| => ContentOf(l, codec, recipe[i]))
  }

  // A base chunk that reads back with the size recorded.
  ghost predicate WholeBase(l: Ledger, i: nat)
    requires |l.chunks| == |l.pieces| == |l.payloads|
  {
    Readable(l, i) && IsBase(l.chunks[i]) && |l.payloads[i]| == l.chunks[i].chunkSize
  }

  // A base chunk, or a delta against an earlier base chunk: one decode always suffices.
  ghost predicate Restorable(l: Ledger, codec: Codec, i: nat) {
    && |l.chunks| == |l.pieces| == |l.payloads|
    && Readable(l, i) && |ContentOf(l, codec, i)| == l.chunks[i].chunkSize
    && (!IsBase(l.chunks[i]) ==> 0 <= l.chunks[i].basechunkID < i && WholeBase(l, l.chunks[i].basechunkID))
  }

  lemma DeltaHasBase(l: Ledger, codec: Codec, i: nat)
    requires Restorable(l, codec, i) && !IsBase(l.chunks[i])
    ensures i < |l.chunks| && Readable(l, i) && l.chunks[i].saveSize == |l.payloads[i]|
    ensures var b := l.chunks[i].basechunkID;
            0 <= b < i && Readable(l, b) && |l.payloads[b]| == l.chunks[b].chunkSize
  {
  }

  lemma NothingWritten(l: Ledger, codec: Codec, recipe: seq<nat>)
    ensures Flat(Contents(l, codec, recipe[..0])) == []
  {
  }

  lemma OneMoreWritten(l: Ledger, codec: Codec, recipe: seq<nat>, i: nat)
    requires i < |recipe|
    ensures Flat(Contents(l, codec, recipe[..i + 1]))
            == Flat(Contents(l, codec, recipe[..i])) + ContentOf(l, codec, recipe[i])
  {
    hide ContentOf;
    FlatSnoc(Contents(l, codec, recipe[..i]), ContentOf(l, codec, recipe[i]));
    assert Contents(l, codec, recipe[..i + 1]) == Contents(l, codec, recipe[..i]) + [ContentOf(l, codec, recipe[i])];
  }

  class DataWrite {
    var chunklist: seq<Chunk>
    var files: map<nat, Buffer>
    const data: array<byte>        // curContainer.data
    var size: nat                  // curContainer.size
    var curOffset: nat
    var containerNum: nat
    const cache: ReadCache
    const safe: array<byte>        // lz4SafeChunkBuffer
    var filename: string
    var recipes: map<string, seq<nat>>
    var headerRecipes: map<string, seq<nat>>
    ghost var pieces: seq<Buffer>
    ghost var payloads: seq<Buffer>

    ghost function Inserted(): Ledger
      reads this
    {
      Ledger(chunklist, pieces, payloads)
    }

    ghost predicate Valid()
      reads this, cache, cache.lru, cache.pool, data, safe
    {
      && data != safe && data.Length == safe.Length == CONTAINER_MAX_SIZE
      && size == curOffset <= CONTAINER_MAX_SIZE
      && Located(Inserted())
      && Holding(pieces, files, data[..size], containerNum)
      && cache.Valid() && CacheHolds(cache.lru.keys, cache.pool[..], files)
    }

    constructor ()
      ensures Valid() && fresh(cache) && fresh(cache.lru) && fresh(cache.pool) && fresh(data) && fresh(safe)
      ensures Inserted() == Ledger([], [], []) && recipes == map[] && headerRecipes == map[]
    {
      chunklist, pieces, payloads := [], [], [];
      files, recipes, headerRecipes, filename := map[], map[], map[], "";
      size, curOffset, containerNum := 0, 0, 0;
      data := new byte[CONTAINER_MAX_SIZE](_ => 0);
      safe := new byte[CONTAINER_MAX_SIZE](_ => 0);
      cache := new ReadCache();
    }

    // The part the two forms of Chunk_Insert share: seal the current container when the piece does not fit, then put
    // the piece at its end.
    method AppendPiece(chunk: Chunk, piece: Buffer, ghost payload: Buffer)
      requires Valid() && |piece| <= CONTAINER_MAX_SIZE
      modifies `chunklist, `files, `size, `curOffset, `containerNum, `pieces, `payloads, data
      ensures Valid()
      ensures Inserted() == Insert(old(Inserted()), chunk, piece, payload)
    {
      hide Place, Pack, IsBlockFor, Holding, Located, CacheHolds, ReadCache.Valid;
      Appended(pieces, files, data[..size], containerNum, piece);
      SealedHolds(cache.lru.keys, cache.pool[..], pieces, files, data[..size], containerNum);
      ghost var was := Inserted();
      if size + |piece| > CONTAINER_MAX_SIZE {
        files := files[containerNum := data[..size]];
        containerNum, curOffset, size := containerNum + 1, 0, 0;
      }
      var placed := chunk.(containerID := containerNum, offset := curOffset);
      size := size + |piece|;
      Memcpy(data, curOffset, piece);
      curOffset := curOffset + |piece|;
      chunklist := chunklist + [placed];
      pieces, payloads := pieces + [piece], payloads + [payload];
      InsertLocated(was, chunk, piece, payload);
    }

    // Chunk_Insert of a chunk or delta as it is.
    method ChunkInsert(chunk: Chunk, ptr: Buffer)
      requires Valid()
      requires var tmpSize := if chunk.deltaFlag.NoDelta? then chunk.chunkSize else chunk.saveSize;
               tmpSize <= |ptr| && tmpSize <= CONTAINER_MAX_SIZE
      modifies `chunklist, `files, `size, `curOffset, `containerNum, `pieces, `payloads, data
      ensures Valid()
      ensures var tmpSize := if chunk.deltaFlag.NoDelta? then chunk.chunkSize else chunk.saveSize;
              Inserted() == Insert(old(Inserted()), chunk, ptr[..tmpSize], ptr[..tmpSize])
    {
      hide *;
      var tmpSize := if chunk.deltaFlag.NoDelta? then chunk.chunkSize else chunk.saveSize;
      AppendPiece(chunk, ptr[..tmpSize], ptr[..tmpSize]);
    }

    // Chunk_Insert of a chunk whose LZ4 block is in lz4Buffer.
    method ChunkInsertCompressed(chunk: Chunk, lz4Buffer: array<byte>, ghost content: Buffer)
      requires Valid() && lz4Buffer != data && chunk.saveSize <= lz4Buffer.Length
               && chunk.saveSize <= CONTAINER_MAX_SIZE
      modifies `chunklist, `files, `size, `curOffset, `containerNum, `pieces, `payloads, data
      ensures Valid()
      ensures Inserted() == Insert(old(Inserted()), chunk, lz4Buffer[..chunk.saveSize], content)
    {
      hide *;
      AppendPiece(chunk, lz4Buffer[..chunk.saveSize], content);
    }

    method Decompress(chunk: Chunk, block: Buffer, ghost payload: Buffer) returns (ptr: Pointer)
      requires safe.Length == CONTAINER_MAX_SIZE
      requires IsBlockFor(block, payload) && |payload| == chunk.chunkSize <= CONTAINER_MAX_SIZE
      modifies safe
      ensures ptr == Owned(payload)
    {
      hide IsBlockFor;
      var decompressedSize := Lz4.DecompressBlock(block, payload, safe);
      ptr := Owned(safe[..chunk.chunkSize]);
    }

    method FromCache(id: nat, chunk: Chunk) returns (ptr: Pointer)
      requires Valid() && Readable(Inserted(), id) && chunk == chunklist[id] && cache.ExistsInCache(chunk.containerID)
      modifies cache.lru, safe
      ensures Valid()
      ensures PointsTo(ptr, payloads[id], cache.pool[..], data[..size])
      ensures cache.lru.keys != [] && (ptr.InSlot? ==> cache.lru.keys[0].1 == ptr.slot)
    {
      hide Place, Pack, IsBlockFor, Holding, Located, CacheHolds, OwnSlots, Agree, Touched, IndexOf;
      var name := chunk.containerID;
      PieceIsThere(Inserted(), files, data[..size], containerNum, id);
      FoundAt(cache.lru.cache, cache.lru.keys, name);
      TouchedHolds(cache.lru.keys, cache.pool[..], files, name);
      var slot := cache.ReadFromCache(name);
      SliceThrough(files[name], cache.pool[slot.value], chunk.offset, chunk.offset + chunk.saveSize);
      if !chunk.deltaFlag.NoDelta? {
        ptr := InSlot(slot.value, chunk.offset);
      } else {
        ptr := Decompress(chunk, cache.pool[slot.value][chunk.offset..chunk.offset + chunk.saveSize], payloads[id]);
      }
    }

    method FromFile(id: nat, chunk: Chunk) returns (ptr: Pointer)
      requires Valid() && Readable(Inserted(), id) && chunk == chunklist[id]
      requires !cache.ExistsInCache(chunk.containerID) && chunk.containerID != containerNum
      modifies cache, cache.lru, cache.pool, safe
      ensures Valid()
      ensures ptr == Owned(payloads[id])
      ensures old(cache.lru.keys) != [] ==>
                var slot := old(cache.lru.keys)[0].1;
                slot < cache.pool.Length && cache.pool[slot] == old(cache.pool[slot])
    {
      hide Place, Pack, IsBlockFor, Holding, Located, CacheHolds, OwnSlots, Agree, Touched, IndexOf, Overwritten;
      var name := chunk.containerID;
      PieceIsThere(Inserted(), files, data[..size], containerNum, id);
      var container := files[name];
      var piece := container[chunk.offset..chunk.offset + chunk.saveSize];
      if !chunk.deltaFlag.NoDelta? {
        ptr := Owned(piece);
      } else {
        ptr := Decompress(chunk, piece, payloads[id]);
      }
      CacheContainer(name);
    }

    // A sealed container goes into the cache.
    method CacheContainer(name: nat)
      requires Valid() && !cache.ExistsInCache(name) && name in files && |files[name]| <= CONTAINER_MAX_SIZE
      modifies cache, cache.lru, cache.pool
      ensures Valid()
      ensures old(cache.lru.keys) != [] ==>
                var slot := old(cache.lru.keys)[0].1;
                slot < cache.pool.Length && cache.pool[slot] == old(cache.pool[slot])
    {
      hide Place, Pack, IsBlockFor, Holding, Located, CacheHolds, OwnSlots, Agree, Touched, IndexOf, Overwritten;
      ghost var keys, pool := cache.lru.keys, cache.pool[..];
      ghost var kept := if |keys| == CONTAINER_CACHE_SIZE then CONTAINER_CACHE_SIZE - 1 else |keys|;
      SlotBounds(keys, cache.currentIndex);
      FoundAt(cache.lru.cache, keys, name);
      ghost var slot := cache.InsertToCache(name, files[name]);
      assert keys[..|keys|] == keys;
      InsertedHolds(keys, kept, pool, cache.pool[..], files, name, slot);
    }

    // Get_Chunk_Info: the chunk's record, and a pointer to its bytes: the chunk itself, or the delta. They come from
    // the cache, from the file of a sealed container (which then goes into the cache), or from the current container.
    // The slot of the entry that was most recent before the call is left as it is.
    method GetChunkInfo(id: nat) returns (chunk: Chunk, ptr: Pointer)
      requires Valid() && Readable(Inserted(), id)
      modifies cache, cache.lru, cache.pool, safe
      ensures Valid() && chunk == chunklist[id]
      ensures PointsTo(ptr, payloads[id], cache.pool[..], data[..size])
      ensures ptr.InSlot? ==> cache.lru.keys != [] && cache.lru.keys[0].1 == ptr.slot
      ensures old(cache.lru.keys) != [] ==>
                var slot := old(cache.lru.keys)[0].1;
                slot < cache.pool.Length && cache.pool[slot] == old(cache.pool[slot])
    {
      hide Place, Pack, IsBlockFor, Holding, Located, CacheHolds, OwnSlots, Agree, Touched, IndexOf;
      chunk := chunklist[id];
      var name := chunk.containerID;
      PieceIsThere(Inserted(), files, data[..size], containerNum, id);
      FoundAt(cache.lru.cache, cache.lru.keys, name);
      SlotBounds(cache.lru.keys, cache.currentIndex);
      if cache.ExistsInCache(name) {
        ptr := FromCache(id, chunk);
      } else if name != containerNum {
        ptr := FromFile(id, chunk);
      } else if !chunk.deltaFlag.NoDelta? {
        ptr := InCurrent(chunk.offset);
      } else {
        var block := data[chunk.offset..chunk.offset + chunk.saveSize];
        assert block == data[..size][chunk.offset..chunk.offset + chunk.saveSize];
        ptr := Decompress(chunk, block, payloads[id]);
      }
    }

    // The n bytes a pointer points to.
    method Load(ptr: Pointer, n: nat, ghost bytes: Buffer) returns (r: Buffer)
      requires Valid() && PointsTo(ptr, bytes, cache.pool[..], data[..size]) && n == |bytes|
      ensures r == bytes
    {
      hide Located, Holding, CacheHolds, ReadCache.Valid;
      match ptr
      case Owned(own) => r := own[..n];
      case InSlot(slot, at) => r := cache.pool[slot][at..at + n];
      case InCurrent(at) =>
        r := data[at..at + n];
        assert r == data[..size][at..at + n];
    }

    method RecipeInsert(chunkID: nat)
      modifies `recipes
      ensures recipes == old(recipes)[filename := RecipeOf(old(recipes), filename) + [chunkID]]
    {
      recipes := recipes[filename := RecipeOf(recipes, filename) + [chunkID]];
    }

    method RecipeHeaderInsert(chunkID: nat)
      modifies `headerRecipes
      ensures headerRecipes == old(headerRecipes)[filename := RecipeOf(old(headerRecipes), filename) + [chunkID]]
    {
      headerRecipes := headerRecipes[filename := RecipeOf(headerRecipes, filename) + [chunkID]];
    }

    // A delta chunk: its delta, then its base, then the decoder. The pointer to the delta may go into a cache slot; the
    // fetch of the base may evict a container, but not that one.
    method RestoreDelta(id: nat, codec: Codec) returns (r: Buffer)
      requires Valid() && Restorable(Inserted(), codec, id) && !IsBase(chunklist[id])
      modifies cache, cache.lru, cache.pool, safe
      ensures Valid() && r == ContentOf(Inserted(), codec, id)
    {
      hide Located, Holding, CacheHolds, ReadCache.Valid, Readable;
      DeltaHasBase(Inserted(), codec, id);
      var chunk, deltaPtr := GetChunkInfo(id);
      var base, basePtr := GetChunkInfo(chunk.basechunkID);
      var delta := Load(deltaPtr, chunk.saveSize, payloads[id]);
      var ref := Load(basePtr, base.chunkSize, payloads[chunk.basechunkID]);
      var decoded := codec.decode(delta, ref);
      r := decoded[..chunk.chunkSize];
    }

    // restoreFile: what it writes is the chunks of the recipe, one after another.
    method RestoreFile(fileName: string, codec: Codec) returns (out: Buffer)
      requires Valid() && forall id :: id in RecipeOf(recipes, fileName) ==> Restorable(Inserted(), codec, id)
      modifies cache, cache.lru, cache.pool, safe
      ensures Valid() && out == Flat(Contents(Inserted(), codec, RecipeOf(recipes, fileName)))
    {
      hide Located, Holding, CacheHolds, ReadCache.Valid, Readable, Valid, Flat, ContentOf;
      var recipe := RecipeOf(recipes, fileName);
      out := [];
      NothingWritten(Inserted(), codec, recipe);
      var i := 0;
      while i < |recipe|
        invariant 0 <= i <= |recipe| && (Valid() <==> true)
        invariant out == Flat(Contents(Inserted(), codec, recipe[..i]))
      {
        ghost var l := Inserted();
        var written := RestoreChunk(recipe[i], codec);
        OneMoreWritten(l, codec, recipe, i);
        out := out + written;
        i := i + 1;
      }
      assert recipe[..i] == recipe;
    }

    method ClearAllCache()
      requires Valid()
      modifies cache, cache.lru
      ensures Valid() && cache.lru.keys == []
    {
      hide Located, Holding;
      cache.ClearAllCache();
    }

    method RestoreChunk(id: nat, codec: Codec) returns (r: Buffer)
      requires Valid() && Restorable(Inserted(), codec, id)
      modifies cache, cache.lru, cache.pool, safe
      ensures Valid() && r == ContentOf(Inserted(), codec, id)
    {
      hide Located, Holding, CacheHolds, ReadCache.Valid;
      if IsBase(chunklist[id]) {
        var chunk, ptr := GetChunkInfo(id);
        r := Load(ptr, chunk.chunkSize, payloads[id]);
      } else {
        r := RestoreDelta(id, codec);
      }
    }
  }
}
