// BiSearch: every chunk of a backup is a duplicate, a delta against the base chunk of the same name, a delta against
// the base chunk with a super-feature in common, or a base chunk itself.
module BiSearchMethod {
  import opened Bytes
  import opened Packing
  import opened Stats
  import opened FeatureIndex
  import opened ChunkStore
  import opened ContainerCache
  import opened Lz4Format
  import opened Lz4Greedy
  import Lz4Encoder

  type Fingerprint = Buffer

  // A chunk taken from the queue, with what is computed from it by code that is not modelled: its super-features, and
  // what the gain filter would answer for the chunk's size and a delta's.
  datatype Arrival = Arrival(content: Buffer, name: nat, headerFlag: bool, cdcFlag: bool,
                             superfeatures: seq<nat>, gain: (nat, nat) -> bool)

  ghost predicate ArrivalOk(a: Arrival) {
    |a.content| <= CONTAINER_MAX_SIZE && |a.superfeatures| == ODESS_SF_NUM
  }

  datatype Outcome = BaseChunk | FeatureDelta(base: nat) | NameDelta(base: nat)

  // What becomes of a chunk not seen before, given the base chunk of its name and that of its super-features, if any.
  // A delta larger than the chunk is never taken; the filter can be overruled by both searches finding the same base.
  ghost function Decide(contents: seq<Buffer>, codec: Codec, a: Arrival, named: Option<nat>, hit: Option<nat>): Outcome
    requires named.Some? ==> named.value < |contents|
    requires hit.Some? ==> hit.value < |contents|
  {
    var n := |a.content|;
    if named.Some? && |codec.encode(a.content, contents[named.value])| <= n
       && (a.gain(n, |codec.encode(a.content, contents[named.value])|) || hit == named) then NameDelta(named.value)
    else if hit.Some? && |codec.encode(a.content, contents[hit.value])| <= n then FeatureDelta(hit.value)
    else BaseChunk
  }

  // ---------------------------------------------------------------------------------------------
  // What the store holds
  // ---------------------------------------------------------------------------------------------

  ghost predicate ChunkOk(l: Ledger, codec: Codec, contents: seq<Buffer>, i: nat)
    requires i < |contents|
  {
    Restorable(l, codec, i) && ContentOf(l, codec, i) == contents[i] && l.chunks[i].saveSize <= l.chunks[i].chunkSize
  }

  // The store holds exactly these chunks.
  ghost predicate Ingested(l: Ledger, codec: Codec, contents: seq<Buffer>) {
    && |l.chunks| == |l.pieces| == |l.payloads| == |contents|
    && (forall i :: 0 <= i < |contents| ==> ChunkOk(l, codec, contents, i))
  }

  ghost function Bases(chunks: seq<Chunk>): set<nat> {
    set i: nat | i < |chunks| && IsBase(chunks[i])
  }

  // LZ4's hash, of the positions of one chunk.
  function HashOf(hash: (Buffer, nat) -> nat, content: Buffer): nat -> nat {
    (p: nat) => hash(content, p)
  }

  // A base chunk is stored as its LZ4 block, if that is no larger than the chunk, and raw if it is.
  ghost predicate PackedAs(hash: (Buffer, nat) -> nat, content: Buffer, chunk: Chunk) {
    IsBase(chunk) && |content| <= CONTAINER_MAX_SIZE ==>
      var block := Compressed(content, Lz4Encoder.FinderFor(|content|, HashOf(hash, content), 3));
      && (chunk.deltaFlag.NoDelta? <==> |block| <= |content|)
      && chunk.saveSize == Min(|block|, |content|)
  }

  ghost predicate Packed(hash: (Buffer, nat) -> nat, contents: seq<Buffer>, chunks: seq<Chunk>) {
    |chunks| == |contents| && forall i :: 0 <= i < |contents| ==> PackedAs(hash, contents[i], chunks[i])
  }

  lemma PackedAfter(hash: (Buffer, nat) -> nat, contents: seq<Buffer>, l: Ledger, l': Ledger, a: Arrival, chunk: Chunk,
                    record: Chunk)
    requires Packed(hash, contents, l.chunks) && OneMore(l, l', a, chunk)
    requires IsBase(record) ==> PackedAs(hash, a.content, record)
    requires chunk.deltaFlag == record.deltaFlag && chunk.saveSize == record.saveSize
    ensures Packed(hash, contents + [a.content], l'.chunks)
  {
    hide Compressed;
  }

  // The base chunk that a name leads to is the last one stored with it.
  ghost predicate LastNamed(chunks: seq<Chunk>, name: nat, i: nat) {
    && i < |chunks| && IsBase(chunks[i]) && chunks[i].name == name
    && (forall j :: i < j < |chunks| && IsBase(chunks[j]) ==> chunks[j].name != name)
  }

  ghost predicate NamesHold(names: map<nat, nat>, chunks: seq<Chunk>) {
    && (forall name :: name in names ==> LastNamed(chunks, name, names[name]))
    && (forall i :: 0 <= i < |chunks| && IsBase(chunks[i]) ==> chunks[i].name in names)
  }

  lemma NameAdded(names: map<nat, nat>, chunks: seq<Chunk>, chunk: Chunk)
    requires NamesHold(names, chunks)
    ensures NamesHold(if IsBase(chunk) then names[chunk.name := |chunks|] else names, chunks + [chunk])
  {
    var names', chunks' := if IsBase(chunk) then names[chunk.name := |chunks|] else names, chunks + [chunk];
    forall name | name in names' ensures LastNamed(chunks', name, names'[name]) {
      if name in names {
        assert LastNamed(chunks, name, names[name]);
      }
    }
  }

  lemma NamesLeadToBases(names: map<nat, nat>, chunks: seq<Chunk>)
    requires NamesHold(names, chunks)
    ensures names.Values <= Bases(chunks)
  {
    forall i | i in names.Values ensures i in Bases(chunks) {
      var name :| name in names && names[name] == i;
      assert LastNamed(chunks, name, i);
    }
  }

  ghost predicate Fingerprinted(fpIndex: map<Fingerprint, nat>, fingerprint: Buffer -> Fingerprint,
                                contents: seq<Buffer>) {
    && (forall i :: 0 <= i < |contents| ==>
          fingerprint(contents[i]) in fpIndex && fpIndex[fingerprint(contents[i])] == i)
    && (forall f :: f in fpIndex ==> fpIndex[f] < |contents| && fingerprint(contents[fpIndex[f]]) == f)
  }

  // No chunk in the store has the fingerprint of this one without being the same.
  ghost predicate NoCollision(fingerprint: Buffer -> Fingerprint, contents: seq<Buffer>, content: Buffer) {
    forall i :: 0 <= i < |contents| && fingerprint(contents[i]) == fingerprint(content) ==> contents[i] == content
  }

  ghost predicate RecipesWithin(recipes: map<string, seq<nat>>, n: nat) {
    forall name, k :: name in recipes && 0 <= k < |recipes[name]| ==> recipes[name][k] < n
  }

  lemma ChunkStays(l: Ledger, codec: Codec, contents: seq<Buffer>, chunk: Chunk, piece: Buffer, payload: Buffer,
                   content: Buffer, i: nat)
    requires i < |contents| && ChunkOk(l, codec, contents, i)
    ensures ChunkOk(Insert(l, chunk, piece, payload), codec, contents + [content], i)
  {
    hide Place, IsBlockFor;
  }

  lemma AddedChunk(l: Ledger, codec: Codec, contents: seq<Buffer>, chunk: Chunk, piece: Buffer, payload: Buffer,
                   content: Buffer)
    requires Ingested(l, codec, contents)
    requires ChunkOk(Insert(l, chunk, piece, payload), codec, contents + [content], |contents|)
    ensures Ingested(Insert(l, chunk, piece, payload), codec, contents + [content])
    ensures var l' := Insert(l, chunk, piece, payload);
            Bases(l'.chunks) == Bases(l.chunks) + if IsBase(chunk) then {|contents|} else {}
  {
    hide Place, IsBlockFor, ChunkOk;
    forall i | 0 <= i < |contents| ensures ChunkOk(Insert(l, chunk, piece, payload), codec, contents + [content], i) {
      ChunkStays(l, codec, contents, chunk, piece, payload, content, i);
    }
  }

  // A chunk stored as its LZ4 block, or as it is.
  lemma NewBase(l: Ledger, codec: Codec, contents: seq<Buffer>, chunk: Chunk, piece: Buffer, content: Buffer)
    requires |l.chunks| == |l.pieces| == |l.payloads| == |contents| && IsBase(chunk)
    requires chunk.chunkSize == |content| <= CONTAINER_MAX_SIZE && chunk.saveSize == |piece| <= |content|
    requires if chunk.deltaFlag.NoDelta? then IsBlockFor(piece, content) else piece == content
    ensures ChunkOk(Insert(l, chunk, piece, content), codec, contents + [content], |contents|)
  {
    hide Place, IsBlockFor;
  }

  // A delta against a base chunk.
  lemma NewDelta(l: Ledger, codec: Codec, contents: seq<Buffer>, chunk: Chunk, base: nat, content: Buffer)
    requires |l.chunks| == |l.pieces| == |l.payloads| == |contents| && Lossless(codec)
    requires base < |contents| && IsBase(l.chunks[base]) && ChunkOk(l, codec, contents, base)
    requires !IsBase(chunk) && chunk.basechunkID == base && chunk.chunkSize == |content|
    requires chunk.saveSize == |codec.encode(content, contents[base])| <= |content|
    ensures var delta := codec.encode(content, contents[base]);
            ChunkOk(Insert(l, chunk, delta, delta), codec, contents + [content], |contents|)
  {
    hide Place, IsBlockFor;
    ChunkStays(l, codec, contents, chunk, codec.encode(content, contents[base]), codec.encode(content, contents[base]),
               content, base);
  }

  lemma BaseIsRead(l: Ledger, codec: Codec, contents: seq<Buffer>, i: nat)
    requires Ingested(l, codec, contents) && i in Bases(l.chunks)
    ensures i < |contents| && Readable(l, i) && l.payloads[i] == contents[i] && l.chunks[i].chunkSize == |contents[i]|
  {
    hide IsBlockFor;
    assert ChunkOk(l, codec, contents, i);
  }

  // One more chunk in the store: this arrival, saved in no more than its size. The others are as they were.
  ghost predicate OneMore(l: Ledger, l': Ledger, a: Arrival, chunk: Chunk) {
    && l'.chunks == l.chunks + [chunk]
    && chunk.saveSize <= chunk.chunkSize == |a.content| && chunk.headerFlag == a.headerFlag
       && chunk.cdcFlag == a.cdcFlag
    && chunk.name == a.name
    && |Flat(l'.pieces)| == |Flat(l.pieces)| + chunk.saveSize
  }

  lemma NamesAfter(names: map<nat, nat>, l: Ledger, l': Ledger, a: Arrival, chunk: Chunk)
    requires OneMore(l, l', a, chunk) && NamesHold(names, l.chunks)
    ensures NamesHold(if IsBase(chunk) then names[a.name := |l.chunks|] else names, l'.chunks)
  {
    NameAdded(names, l.chunks, chunk);
  }

  function NewRecord(a: Arrival, saveSize: nat, deltaFlag: DeltaFlag, basechunkID: int): Chunk {
    Chunk(|a.content|, saveSize, 0, 0, a.name, basechunkID, deltaFlag, a.headerFlag, a.cdcFlag)
  }

  // What an insertion comes to, as long as the new chunk is sound.
  lemma InsertionIs(l: Ledger, codec: Codec, contents: seq<Buffer>, a: Arrival, record: Chunk, piece: Buffer,
                    payload: Buffer)
    requires Ingested(l, codec, contents)
    requires ChunkOk(Insert(l, record, piece, payload), codec, contents + [a.content], |contents|)
    requires record == NewRecord(a, record.saveSize, record.deltaFlag, record.basechunkID)
    requires record.saveSize == |piece| <= |a.content|
    ensures var l' := Insert(l, record, piece, payload);
            && Ingested(l', codec, contents + [a.content]) && |l'.chunks| == |contents| + 1
            && Bases(l'.chunks) == Bases(l.chunks) + (if IsBase(record) then {|contents|} else {})
            && var chunk := l'.chunks[|contents|];
            && OneMore(l, l', a, chunk) && chunk.deltaFlag == record.deltaFlag
               && chunk.basechunkID == record.basechunkID
            && chunk.saveSize == record.saveSize && chunk.chunkSize == |a.content|
  {
    hide Place, Flat, ChunkOk, IsBlockFor, Located;
    AddedChunk(l, codec, contents, record, piece, payload, a.content);
    InsertedRecord(l, a, record, piece, payload);
  }

  lemma ChunkIsOk(l: Ledger, codec: Codec, contents: seq<Buffer>, i: nat)
    requires Ingested(l, codec, contents) && i < |contents|
    ensures ChunkOk(l, codec, contents, i) <==> true
  {
  }

  lemma BasesWithin(l: Ledger, codec: Codec, contents: seq<Buffer>)
    requires Ingested(l, codec, contents)
    ensures forall i :: i in Bases(l.chunks) ==> i < |contents|
  {
  }

  lemma NamedIsBase(chunks: seq<Chunk>, i: nat)
    requires i in Bases(chunks)
    ensures i < |chunks| && IsBase(chunks[i])
  {
  }

  lemma IngestedSizes(l: Ledger, codec: Codec, contents: seq<Buffer>)
    requires Ingested(l, codec, contents)
    ensures |l.chunks| == |l.pieces| == |l.payloads| == |contents|
  {
  }

  // The record as it is in the chunk list: with the place of its bytes.
  lemma InsertedRecord(l: Ledger, a: Arrival, record: Chunk, piece: Buffer, payload: Buffer)
    requires record == NewRecord(a, record.saveSize, record.deltaFlag, record.basechunkID)
    requires record.saveSize == |piece| <= |a.content|
    ensures var l' := Insert(l, record, piece, payload);
            && l'.chunks != [] && var chunk := l'.chunks[|l.chunks|];
            && OneMore(l, l', a, chunk) && chunk.deltaFlag == record.deltaFlag
               && chunk.basechunkID == record.basechunkID
            && chunk.saveSize == record.saveSize
  {
    hide Place, Flat;
    FlatSnoc(l.pieces, piece);
  }

  lemma BasesGrow(index: map<nat, seq<nat>>, ids: set<nat>, ids': set<nat>)
    requires AllIn(index, ids) && ids <= ids'
    ensures AllIn(index, ids')
  {
  }

  // No outcome stores more than the chunk has, only the two base chunks found can be a base, and a base chunk is made
  // only when the delta against the similar chunk, if there is one, is larger than the chunk. When both searches find
  // the same base and the delta fits, the filter does not matter.
  lemma DecideIsFrugal(contents: seq<Buffer>, codec: Codec, a: Arrival, named: Option<nat>, hit: Option<nat>)
    requires named.Some? ==> named.value < |contents|
    requires hit.Some? ==> hit.value < |contents|
    ensures match Decide(contents, codec, a, named, hit)
            case NameDelta(b) =>
              && named == Some(b) && |codec.encode(a.content, contents[b])| <= |a.content|
              && (a.gain(|a.content|, |codec.encode(a.content, contents[b])|) || hit == named)
            case FeatureDelta(b) => hit == Some(b) && |codec.encode(a.content, contents[b])| <= |a.content|
            case BaseChunk => hit.Some? ==> |codec.encode(a.content, contents[hit.value])| > |a.content|
    ensures named.Some? && hit == named && |codec.encode(a.content, contents[named.value])| <= |a.content|
            ==> Decide(contents, codec, a, named, hit) == NameDelta(named.value)
  {
  }

  lemma DecideByName(contents: seq<Buffer>, codec: Codec, a: Arrival, named: nat, hit: Option<nat>)
    requires named < |contents| && (hit.Some? ==> hit.value < |contents|)
    ensures var delta := codec.encode(a.content, contents[named]);
            Decide(contents, codec, a, Some(named), hit)
            == if |delta| <= |a.content| && (a.gain(|a.content|, |delta|) || hit == Some(named)) then NameDelta(named)
               else Decide(contents, codec, a, None, hit)
  {
  }

  lemma NothingToDecide(contents: seq<Buffer>, codec: Codec, a: Arrival)
    ensures Decide(contents, codec, a, None, None) == BaseChunk
  {
  }

  // How each outcome shows in the chunk's record.
  predicate Flagged(o: Outcome, chunk: Chunk) {
    match o
    case BaseChunk => IsBase(chunk) && chunk.basechunkID == -1
    case FeatureDelta(base) => chunk.deltaFlag == FinesseDelta && chunk.basechunkID == base
    case NameDelta(base) => chunk.deltaFlag == LocalDelta && chunk.basechunkID == base
  }

  lemma NamedDecides(contents: seq<Buffer>, codec: Codec, a: Arrival, named: Option<nat>, hit: Option<nat>,
                     chunk: Chunk)
    requires (named.Some? ==> named.value < |contents|) && (hit.Some? ==> hit.value < |contents|)
    requires Flagged(Decide(contents, codec, a, named, hit), chunk)
    ensures named.None? ==> chunk.deltaFlag != LocalDelta
    ensures named.Some? ==>
              var delta := codec.encode(a.content, contents[named.value]);
              |delta| <= |a.content| && a.gain(|a.content|, |delta|) ==>
                chunk.deltaFlag == LocalDelta && chunk.basechunkID == named.value
  {
  }

  // What each outcome does to the record, the searches and the statistics.
  ghost predicate Became(o: Outcome, chunk: Chunk, id: nat, a: Arrival, names: map<nat, nat>, names': map<nat, nat>,
                         index: map<nat, seq<nat>>, index': map<nat, seq<nat>>, s: Counters, s': Counters)
    requires chunk.saveSize <= chunk.chunkSize
  {
    && Flagged(o, chunk)
    && (if o.BaseChunk? then names' == names[a.name := id] && index' == Pushed(index, a.superfeatures, id)
        else names' == names && index' == index)
    && s' == match o
             case BaseChunk => StatsBase(s, chunk.chunkSize, chunk.saveSize)
             case FeatureDelta(_) => StatsDeltaFeature(s, chunk.chunkSize, chunk.saveSize)
             case NameDelta(_) => StatsDeltaLocality(s, chunk.chunkSize, chunk.saveSize)
  }

  lemma FingerprintedNew(fpIndex: map<Fingerprint, nat>, fingerprint: Buffer -> Fingerprint, contents: seq<Buffer>,
                         content: Buffer)
    requires Fingerprinted(fpIndex, fingerprint, contents) && fingerprint(content) !in fpIndex
    ensures Fingerprinted(fpIndex[fingerprint(content) := |contents|], fingerprint, contents + [content])
  {
  }

  lemma UniqueCounted(s: Counters, s': Counters, chunk: Chunk)
    requires Balanced(s) && chunk.saveSize <= chunk.chunkSize
    requires || s' == StatsBase(s, chunk.chunkSize, chunk.saveSize)
             || s' == StatsDeltaFeature(s, chunk.chunkSize, chunk.saveSize)
             || s' == StatsDeltaLocality(s, chunk.chunkSize, chunk.saveSize)
    ensures var u := StatsUnique(s', chunk.chunkSize, chunk.saveSize, chunk.headerFlag, chunk.cdcFlag);
            && Balanced(StatsLogical(u, chunk.chunkSize))
            && u.uniqueSize == s.uniqueSize + chunk.saveSize && u.uniqueNum == s.uniqueNum + 1
            && u.logicalNum == s.logicalNum && u.logicalSize == s.logicalSize
  {
    hide Balanced;
    ChunkKeepsBalance(s, chunk.chunkSize, chunk.saveSize, chunk.headerFlag, chunk.cdcFlag);
  }

  // Records of one sort: with this delta flag; of header chunks, of pieces of big bodies, or of other chunks.
  datatype Sort = WithFlag(flag: DeltaFlag) | Headers | Cuts | Files

  predicate OfSort(sort: Sort, chunk: Chunk) {
    match sort
    case WithFlag(flag) => chunk.deltaFlag == flag
    case Headers => chunk.headerFlag
    case Cuts => !chunk.headerFlag && chunk.cdcFlag
    case Files => !chunk.headerFlag && !chunk.cdcFlag
  }

  datatype Total = Total(numbers: nat, oriSize: nat, saveSize: nat)

  // How many chunks of a sort there are, their size, and the size they are stored in.
  function TotalOf(chunks: seq<Chunk>, sort: Sort): Total {
    if chunks == [] then Total(0, 0, 0)
    else
      var n := |chunks| - 1;
      var t := TotalOf(chunks[..n], sort);
      if OfSort(sort, chunks[n])
      then Total(t.numbers + 1, t.oriSize + chunks[n].chunkSize, t.saveSize + chunks[n].saveSize)
      else t
  }

  predicate KindIs(kind: Stats.Kind, t: Total) {
    kind.numbers == t.numbers && kind.oriSize == t.oriSize && kind.saveSize == t.saveSize
    && kind.reductSize == t.oriSize - t.saveSize
  }

  // The statistics say what the chunk list says, sort by sort.
  ghost predicate Accounted(s: Counters, chunks: seq<Chunk>) {
    var lz4, raw := TotalOf(chunks, WithFlag(NoDelta)), TotalOf(chunks, WithFlag(NoLz4));
    var feature, name := TotalOf(chunks, WithFlag(FinesseDelta)), TotalOf(chunks, WithFlag(LocalDelta));
    && s.baseNum == lz4.numbers + raw.numbers && s.baseSize == lz4.saveSize + raw.saveSize
    && s.localReduct == lz4.oriSize + raw.oriSize - s.baseSize
    && s.deltaNum == feature.numbers + name.numbers && s.deltaSize == feature.saveSize + name.saveSize
    && s.featureReduct == feature.oriSize - feature.saveSize && s.localityReduct == name.oriSize - name.saveSize
    && KindIs(s.header, TotalOf(chunks, Headers)) && KindIs(s.cdc, TotalOf(chunks, Cuts))
    && KindIs(s.file, TotalOf(chunks, Files))
  }

  lemma TotalOfMore(chunks: seq<Chunk>, chunk: Chunk, sort: Sort)
    ensures var t := TotalOf(chunks, sort);
            TotalOf(chunks + [chunk], sort)
            == if OfSort(sort, chunk)
               then Total(t.numbers + 1, t.oriSize + chunk.chunkSize, t.saveSize + chunk.saveSize)
               else t
  {
    assert (chunks + [chunk])[..|chunks|] == chunks;
  }

  // Whatever a chunk becomes, it is counted as that.
  lemma CountedAs(s: Counters, chunks: seq<Chunk>, chunk: Chunk, o: Outcome)
    requires Accounted(s, chunks) && Flagged(o, chunk) && chunk.saveSize <= chunk.chunkSize
    ensures var s' := match o
                      case BaseChunk => StatsBase(s, chunk.chunkSize, chunk.saveSize)
                      case FeatureDelta(_) => StatsDeltaFeature(s, chunk.chunkSize, chunk.saveSize)
                      case NameDelta(_) => StatsDeltaLocality(s, chunk.chunkSize, chunk.saveSize);
            Accounted(StatsUnique(s', chunk.chunkSize, chunk.saveSize, chunk.headerFlag, chunk.cdcFlag),
                      chunks + [chunk])
  {
    hide TotalOf;
    forall sort ensures TotalOf(chunks + [chunk], sort)
      == (var t := TotalOf(chunks, sort);
          if OfSort(sort, chunk) then Total(t.numbers + 1, t.oriSize + chunk.chunkSize, t.saveSize + chunk.saveSize)
          else t)
    {
      TotalOfMore(chunks, chunk, sort);
    }
  }

  lemma AccountedStill(s: Counters, chunks: seq<Chunk>, size: nat)
    requires Accounted(s, chunks)
    ensures Accounted(StatsLogical(s, size), chunks) && Accounted(StatsDuplicate(s, size), chunks)
  {
    hide TotalOf;
  }

  // The recipe of this backup gets the chunk, or is left as it is.
  ghost predicate RecordedIn(recipes: map<string, seq<nat>>, recipes': map<string, seq<nat>>, name: string, id: nat,
                             here: bool) {
    recipes' == if here then recipes[name := RecipeOf(recipes, name) + [id]] else recipes
  }

  lemma RecipesGrow(recipes: map<string, seq<nat>>, n: nat, name: string, id: nat, n': nat)
    requires RecipesWithin(recipes, n) && n <= n' && id < n'
    ensures RecipesWithin(recipes, n') && RecipesWithin(recipes[name := RecipeOf(recipes, name) + [id]], n')
  {
  }

  lemma KnownByFingerprint(fpIndex: map<Fingerprint, nat>, fingerprint: Buffer -> Fingerprint, contents: seq<Buffer>,
                           content: Buffer)
    requires Fingerprinted(fpIndex, fingerprint, contents) && NoCollision(fingerprint, contents, content)
    ensures fingerprint(content) in fpIndex <==> content in contents
  {
  }

  lemma SizeRecorded(l: Ledger, codec: Codec, contents: seq<Buffer>, i: nat)
    requires Ingested(l, codec, contents) && i < |contents|
    ensures l.chunks[i].chunkSize == |contents[i]|
  {
    assert ChunkOk(l, codec, contents, i);
  }

  lemma DuplicateCounts(s: Counters, size: nat)
    ensures StatsDuplicate(s, size).uniqueSize == s.uniqueSize && StatsDuplicate(s, size).uniqueNum == s.uniqueNum
    ensures StatsDuplicate(s, size).logicalSize == s.logicalSize && StatsDuplicate(s, size).logicalNum == s.logicalNum
  {
  }

  // ---------------------------------------------------------------------------------------------
  // Backups
  // ---------------------------------------------------------------------------------------------

  // The header chunks, or the others, of a run of chunks.
  ghost function Stream(arrivals: seq<Arrival>, headers: bool): seq<Buffer> {
    if arrivals == [] then []
    else
      var last := arrivals[|arrivals| - 1];
      Stream(arrivals[..|arrivals| - 1], headers) + if last.headerFlag == headers then [last.content] else []
  }

  // The chunks that go into one of the two recipes, when it is the flag of a content's first arrival that counts.
  ghost function Sorted(arrivals: seq<Arrival>, flag: Buffer -> bool, headers: bool): seq<Buffer> {
    if arrivals == [] then []
    else
      var last := arrivals[|arrivals| - 1].content;
      Sorted(arrivals[..|arrivals| - 1], flag, headers) + if flag(last) == headers then [last] else []
  }

  ghost function Picked(contents: seq<Buffer>, recipe: seq<nat>): seq<Buffer> {
    seq(|recipe|, k requires 0 <= k < |recipe| => if recipe[k] < |contents| then contents[recipe[k]] else [])
  }

  // A fingerprint function with no collision among these chunks.
  ghost predicate Injective(fingerprint: Buffer -> Fingerprint, chunks: set<Buffer>) {
    forall x, y :: x in chunks && y in chunks && fingerprint(x) == fingerprint(y) ==> x == y
  }

  // A stored chunk keeps the flag it came with first.
  ghost predicate FlagsAgree(chunks: seq<Chunk>, contents: seq<Buffer>, flag: Buffer -> bool) {
    |chunks| == |contents| && forall i :: 0 <= i < |contents| ==> chunks[i].headerFlag == flag(contents[i])
  }

  ghost predicate BackupOk(arrivals: seq<Arrival>, chunks: set<Buffer>) {
    forall k :: 0 <= k < |arrivals| ==> ArrivalOk(arrivals[k]) && arrivals[k].content in chunks
  }

  ghost predicate SeenIn(contents: seq<Buffer>, arrivals: seq<Arrival>) {
    forall k :: 0 <= k < |arrivals| ==> arrivals[k].content in contents
  }

  // A chunk that is neither stored nor among those before it comes with this flag.
  ghost predicate FirstFlags(arrivals: seq<Arrival>, contents: seq<Buffer>, flag: Buffer -> bool) {
    forall k :: 0 <= k < |arrivals| && arrivals[k].content !in contents && New(arrivals, k) ==>
      arrivals[k].headerFlag == flag(arrivals[k].content)
  }

  ghost predicate New(arrivals: seq<Arrival>, k: nat)
    requires k < |arrivals|
  {
    forall j :: 0 <= j < k ==> arrivals[j].content != arrivals[k].content
  }

  ghost predicate AllIngestedIn(contents: seq<Buffer>, chunks: set<Buffer>) {
    forall i :: 0 <= i < |contents| ==> contents[i] in chunks
  }

  // All that the end of a backup says of the recipes: this backup's has grown by the stream, the others' are as before.
  ghost predicate Recorded(recipes: map<string, seq<nat>>, recipes': map<string, seq<nat>>, contents: seq<Buffer>,
                           contents': seq<Buffer>, name: string, stream: seq<Buffer>) {
    && contents <= contents'
    && Picked(contents', RecipeOf(recipes', name)) == Picked(contents, RecipeOf(recipes, name)) + stream
    && (forall other :: other != name ==> RecipeOf(recipes', other) == RecipeOf(recipes, other))
  }

  lemma PickedStays(contents: seq<Buffer>, contents': seq<Buffer>, recipe: seq<nat>)
    requires contents <= contents' && forall k :: 0 <= k < |recipe| ==> recipe[k] < |contents|
    ensures Picked(contents', recipe) == Picked(contents, recipe)
  {
  }

  lemma BeforeProcess(arrivals: seq<Arrival>, k: nat, before: seq<Buffer>, contents: seq<Buffer>,
                      fingerprint: Buffer -> Fingerprint, chunks: set<Buffer>, flag: Buffer -> bool)
    requires k < |arrivals| && BackupOk(arrivals, chunks) && Injective(fingerprint, chunks)
    requires AllIngestedIn(contents, chunks) && before <= contents
    requires FirstFlags(arrivals, before, flag) && SeenIn(contents, arrivals[..k])
    ensures ArrivalOk(arrivals[k]) && NoCollision(fingerprint, contents, arrivals[k].content)
    ensures arrivals[k].content in chunks
    ensures arrivals[k].content !in contents ==> arrivals[k].headerFlag == flag(arrivals[k].content)
  {
    if arrivals[k].content !in contents {
      forall j | 0 <= j < k ensures arrivals[j].content != arrivals[k].content {
        assert arrivals[..k][j].content in contents;
      }
      assert forall c :: c in before ==> c in contents;
    }
  }

  lemma AfterProcess(arrivals: seq<Arrival>, k: nat, contents: seq<Buffer>, contents': seq<Buffer>,
                     chunklist: seq<Chunk>,
                     chunklist': seq<Chunk>, id: nat, chunks: set<Buffer>, flag: Buffer -> bool)
    requires k < |arrivals| && SeenIn(contents, arrivals[..k])
    requires AllIngestedIn(contents, chunks) && FlagsAgree(chunklist, contents, flag)
    requires var a := arrivals[k];
             && a.content in chunks && (a.content !in contents ==> a.headerFlag == flag(a.content))
             && contents' == (if a.content in contents then contents else contents + [a.content])
             && id < |contents'| == |chunklist'| && contents'[id] == a.content && chunklist <= chunklist'
             && (a.content !in contents ==> chunklist'[|contents|].headerFlag == a.headerFlag)
    ensures AllIngestedIn(contents', chunks) && FlagsAgree(chunklist', contents', flag)
    ensures chunklist'[id].headerFlag == flag(arrivals[k].content) && SeenIn(contents', arrivals[..k + 1])
  {
    forall j | 0 <= j < k + 1 ensures arrivals[j].content in contents' {
      if j < k {
        assert arrivals[..k][j].content in contents;
      }
    }
  }

  lemma NothingRecorded(recipes: map<string, seq<nat>>, contents: seq<Buffer>, name: string)
    ensures Recorded(recipes, recipes, contents, contents, name, [])
  {
  }

  lemma PickedSnoc(contents: seq<Buffer>, recipe: seq<nat>, id: nat)
    requires id < |contents|
    ensures Picked(contents, recipe + [id]) == Picked(contents, recipe) + [contents[id]]
  {
  }

  // One chunk more, in this recipe or in the other one.
  lemma RecordedMore(recipes: map<string, seq<nat>>, now: map<string, seq<nat>>, next: map<string, seq<nat>>,
                     contents: seq<Buffer>, known: seq<Buffer>, known': seq<Buffer>, name: string, stream: seq<Buffer>,
                     id: nat, here: bool)
    requires Recorded(recipes, now, contents, known, name, stream) && RecipesWithin(now, |known|)
    requires RecordedIn(now, next, name, id, here) && known <= known' && id < |known'|
    ensures Recorded(recipes, next, contents, known', name, stream + if here then [known'[id]] else [])
  {
    hide Picked;
    var r := RecipeOf(now, name);
    PickedStays(known, known', r);
    PickedSnoc(known', r, id);
    assert stream + [] == stream;
  }

  lemma RestoredIs(l: Ledger, codec: Codec, contents: seq<Buffer>, recipe: seq<nat>)
    requires Ingested(l, codec, contents) && forall k :: 0 <= k < |recipe| ==> recipe[k] < |contents|
    ensures forall id :: id in recipe ==> Restorable(l, codec, id)
    ensures Contents(l, codec, recipe) == Picked(contents, recipe)
  {
    hide Restorable, ContentOf;
    forall k | 0 <= k < |recipe|
      ensures Restorable(l, codec, recipe[k]) && ContentOf(l, codec, recipe[k]) == contents[recipe[k]]
    {
      assert ChunkOk(l, codec, contents, recipe[k]);
    }
  }

  lemma NothingIngested(l: Ledger, codec: Codec, contents: seq<Buffer>)
    requires |l.chunks| == |l.pieces| == |l.payloads| == |contents| == 0
    ensures Ingested(l, codec, contents) && Bases(l.chunks) == {}
  {
    hide ChunkOk;
  }

  lemma NothingFingerprinted(fpIndex: map<Fingerprint, nat>, fingerprint: Buffer -> Fingerprint, contents: seq<Buffer>)
    requires |contents| == 0 && fpIndex == map[]
    ensures Fingerprinted(fpIndex, fingerprint, contents)
  {
  }

  lemma NothingIndexed(index: map<nat, seq<nat>>, names: map<nat, nat>, recipes: map<string, seq<nat>>)
    requires index == map[] && names == map[] && recipes == map[]
    ensures AllIn(index, {}) && NamesHold(names, []) && RecipesWithin(recipes, 0)
  {
  }

  lemma NothingAccounted(s: Counters)
    requires s.baseNum == s.baseSize == s.localReduct == s.deltaNum == s.deltaSize == 0
    requires s.featureReduct == s.localityReduct == 0
    requires s.header == s.cdc == s.file == Stats.Kind(0, 0, 0, 0)
    ensures Accounted(s, [])
  {
    hide TotalOf, KindIs;
    NoneOfSort(WithFlag(NoDelta));
    NoneOfSort(WithFlag(NoLz4));
    NoneOfSort(WithFlag(FinesseDelta));
    NoneOfSort(WithFlag(LocalDelta));
    NoneOfSort(Headers);
    NoneOfSort(Cuts);
    NoneOfSort(Files);
    NothingInKind();
  }

  lemma NothingInKind()
    ensures KindIs(Stats.Kind(0, 0, 0, 0), Total(0, 0, 0))
  {
  }

  lemma NoneOfSort(sort: Sort)
    ensures TotalOf([], sort) == Total(0, 0, 0)
  {
  }

  lemma NothingCounted(s: Counters, pieces: seq<Buffer>)
    requires s == Initial() && pieces == []
    ensures Balanced(s) && s.uniqueSize == |Flat(pieces)| == s.uniqueNum == 0 && Accounted(s, [])
  {
    hide Balanced, Accounted;
    NothingIsBalanced(s);
    NothingAccounted(s);
  }

  lemma ValidMeans(m: BiSearch)
    requires m.Valid()
    ensures RecipesWithin(m.store.recipes, |m.contents|) && RecipesWithin(m.store.headerRecipes, |m.contents|)
  {
  }

  // Both searches lead to base chunks.
  lemma SoundMeans(m: BiSearch, superfeatures: seq<nat>)
    requires m.Sound()
    ensures forall i :: i in Bases(m.store.chunklist) ==> i < |m.contents|
    ensures var hit := FirstHit(m.table.index, superfeatures); hit.Some? ==> hit.value in Bases(m.store.chunklist)
    ensures m.nameTable.Values <= Bases(m.store.chunklist)
  {
    hide Located, Holding, CacheHolds, ReadCache.Valid, IsBlockFor, Ingested, Lossless, AllIn, Bases, DataWrite.Valid;
    hide FirstHit, NamesHold;
    NamesLeadToBases(m.nameTable, m.store.chunklist);
    HitIsIndexed(m.table.index, superfeatures, Bases(m.store.chunklist));
    BasesWithin(m.store.Inserted(), m.codec, m.contents);
  }

  class BiSearch {
    const store: DataWrite
    const table: FeatureIndexTable
    const lz4ChunkBuffer: array<byte>
    const fingerprint: Buffer -> Fingerprint
    const codec: Codec
    const hash: (Buffer, nat) -> nat   // the hash of LZ4's match finder, of a position of its input
    const turnOnNameHash: bool
    var fpIndex: map<Fingerprint, nat>
    var nameTable: map<nat, nat>
    var version: nat
    var stats: Counters
    ghost var contents: seq<Buffer>    // the unique chunks, by id

    ghost function Cached(): set<object> {
      {store.cache, store.cache.lru, store.cache.pool, store.safe}
    }

    ghost function Repr(): set<object> {
      Cached() + {this, store, store.data, table, lz4ChunkBuffer}
    }

    // The chunks are in the store, and both searches lead to base chunks only.
    ghost predicate Sound()
      reads Repr()
    {
      && store.Valid() && lz4ChunkBuffer.Length == CONTAINER_MAX_SIZE
      && lz4ChunkBuffer != store.data && lz4ChunkBuffer != store.safe
      && Lossless(codec)
      && Ingested(store.Inserted(), codec, contents)
      && NamesHold(nameTable, store.chunklist) && Packed(hash, contents, store.chunklist)
      && AllIn(table.index, Bases(store.chunklist))
    }

    // Between two chunks.
    ghost predicate Valid()
      reads Repr()
    {
      && Sound()
      && Fingerprinted(fpIndex, fingerprint, contents)
      && Balanced(stats) && stats.uniqueSize == |Flat(store.pieces)| && stats.uniqueNum == |contents|
      && Accounted(stats, store.chunklist)
      && RecipesWithin(store.recipes, |contents|) && RecipesWithin(store.headerRecipes, |contents|)
    }

    constructor (fingerprint: Buffer -> Fingerprint, codec: Codec, hash: (Buffer, nat) -> nat,
                 turnOnNameHash: bool)
      requires Lossless(codec)
      ensures Valid() && fresh(Repr() - {this})
      ensures contents == [] && store.chunklist == [] && store.recipes == map[] && store.headerRecipes == map[]
      ensures this.fingerprint == fingerprint && this.codec == codec
    {
      hide Located, Holding, CacheHolds, ReadCache.Valid, Lossless, Ingested, AllIn, Bases, Fingerprinted, Balanced;
      hide Accounted;
      hide Flat;
      hide DataWrite.Valid, RecipesWithin;
      this.fingerprint, this.codec, this.hash, this.turnOnNameHash := fingerprint, codec, hash, turnOnNameHash;
      store := new DataWrite();
      table := new FeatureIndexTable();
      lz4ChunkBuffer := new byte[CONTAINER_MAX_SIZE](_ => 0);
      fpIndex, nameTable, version, stats, contents := map[], map[], 0, Initial(), [];
      new;
      NothingIngested(store.Inserted(), codec, contents);
      NothingFingerprinted(fpIndex, fingerprint, contents);
      NothingIndexed(table.index, nameTable, store.recipes);
      NothingCounted(stats, store.pieces);
    }

    // The chunk a base chunk's id stands for.
    method FetchBase(id: nat) returns (base: Buffer)
      requires Sound() && id in Bases(store.chunklist)
      modifies Cached()
      ensures Sound() && id < |contents| && base == contents[id]
    {
      hide Located, Holding, CacheHolds, ReadCache.Valid, Readable, IsBlockFor, Ingested, Lossless, AllIn, Bases;
      hide PointsTo;
      BaseIsRead(store.Inserted(), codec, contents, id);
      var chunk, ptr := store.GetChunkInfo(id);
      base := store.Load(ptr, chunk.chunkSize, contents[id]);
    }

    // The record of a base chunk, and its block in the buffer if that is no larger than the chunk.
    method Compress(a: Arrival) returns (record: Chunk)
      requires |a.content| <= CONTAINER_MAX_SIZE == lz4ChunkBuffer.Length
      modifies lz4ChunkBuffer
      ensures record == NewRecord(a, record.saveSize, record.deltaFlag, -1) && IsBase(record)
      ensures record.saveSize <= |a.content| && (PackedAs(hash, a.content, record) <==> true)
      ensures if record.deltaFlag.NoLz4? then record.saveSize == |a.content|
              else IsBlockFor(lz4ChunkBuffer[..record.saveSize], a.content)
    {
      hide IsBlockFor, Lz4Encoder.CompressBound, Compressed, RunBlock, HashOf;
      var n := |a.content|;
      var compressedSize := Lz4Encoder.CompressFast(a.content, lz4ChunkBuffer, n, 3, HashOf(hash, a.content));
      Lz4Encoder.CompressedIsSome(a.content, Lz4Encoder.FinderFor(n, HashOf(hash, a.content), 3));
      record := NewRecord(a, n, NoLz4, -1);
      if compressedSize > 0 {
        record := NewRecord(a, compressedSize, NoDelta, -1);
      }
    }

    // The chunk becomes a base chunk: compressed if that makes it no larger, and found from now on by its name and by
    // its super-features.
    method InsertBase(a: Arrival, id: nat) returns (chunk: Chunk)
      requires Sound() && ArrivalOk(a) && id == |contents|
      modifies `nameTable, `stats, `contents, table, lz4ChunkBuffer, store.data
      modifies store`chunklist, store`files, store`size, store`curOffset, store`containerNum, store`pieces,
               store`payloads
      ensures Sound() && contents == old(contents) + [a.content]
      ensures OneMore(old(store.Inserted()), store.Inserted(), a, chunk)
      ensures Became(BaseChunk, chunk, id, a, old(nameTable), nameTable, old(table.index), table.index, old(stats),
                     stats)
    {
      hide Located, Holding, CacheHolds, ReadCache.Valid, Readable, IsBlockFor, Ingested, Lossless, AllIn, Bases;
      hide PointsTo;
      hide DataWrite.Valid, ChunkOk, Insert, Place, Pushed, OneMore, Flat, NamesHold, Packed, PackedAs;
      var n := |a.content|;
      var record := Compress(a);
      table.Insert(a.superfeatures, id);
      stats := StatsBase(stats, n, record.saveSize);
      ghost var was := store.Inserted();
      ghost var piece := if record.deltaFlag.NoLz4? then a.content else lz4ChunkBuffer[..record.saveSize];
      if record.deltaFlag.NoLz4? {
        assert a.content[..n] == a.content;
        store.ChunkInsert(record, a.content);
      } else {
        store.ChunkInsertCompressed(record, lz4ChunkBuffer, a.content);
      }
      IngestedSizes(was, codec, contents);
      NewBase(was, codec, contents, record, piece, a.content);
      InsertionIs(was, codec, contents, a, record, piece, a.content);
      BasesGrow(old(table.index), Bases(was.chunks), Bases(store.chunklist));
      PushedAllIn(old(table.index), a.superfeatures, id, Bases(store.chunklist));
      chunk := store.chunklist[id];
      NamesAfter(nameTable, was, store.Inserted(), a, chunk);
      PackedAfter(hash, contents, was, store.Inserted(), a, chunk, record);
      nameTable := nameTable[a.name := id];
      contents := contents + [a.content];
    }

    // The chunk is stored as its delta against a base chunk.
    method InsertDelta(a: Arrival, id: nat, deltaFlag: DeltaFlag, base: nat, delta: Buffer) returns (chunk: Chunk)
      requires Sound() && ArrivalOk(a) && id == |contents| && !deltaFlag.NoDelta? && !deltaFlag.NoLz4?
      requires base in Bases(store.chunklist) && base < |contents|
      requires delta == codec.encode(a.content, contents[base]) && |delta| <= |a.content|
      modifies `contents, store.data
      modifies store`chunklist, store`files, store`size, store`curOffset, store`containerNum, store`pieces,
               store`payloads
      ensures Sound() && contents == old(contents) + [a.content]
      ensures OneMore(old(store.Inserted()), store.Inserted(), a, chunk)
      ensures chunk.deltaFlag == deltaFlag && chunk.basechunkID == base && chunk.saveSize == |delta|
      ensures chunk.saveSize <= chunk.chunkSize
    {
      hide Located, Holding, CacheHolds, ReadCache.Valid, Readable, IsBlockFor, Ingested, Lossless, AllIn, PointsTo;
      hide DataWrite.Valid, ChunkOk, Insert, Place, OneMore, Flat, NamesHold, Packed, PackedAs;
      ghost var was := store.Inserted();
      IngestedSizes(was, codec, contents);
      ChunkIsOk(was, codec, contents, base);
      var record := NewRecord(a, |delta|, deltaFlag, base);
      NewDelta(was, codec, contents, record, base, a.content);
      InsertionIs(was, codec, contents, a, record, delta, delta);
      assert delta[..|delta|] == delta;
      store.ChunkInsert(record, delta);
      BasesGrow(table.index, Bases(was.chunks), Bases(store.chunklist));
      chunk := store.chunklist[id];
      NamesAfter(nameTable, was, store.Inserted(), a, chunk);
      PackedAfter(hash, contents, was, store.Inserted(), a, chunk, record);
      contents := contents + [a.content];
    }

    method EncodeAgainst(a: Arrival, base: nat) returns (delta: Buffer)
      requires Sound() && base in Bases(store.chunklist)
      modifies Cached()
      ensures Sound() && base < |contents| && delta == codec.encode(a.content, contents[base])
    {
      hide Located, Holding, CacheHolds, ReadCache.Valid, IsBlockFor, Ingested, Lossless, AllIn, Bases, DataWrite.Valid;
      var content := FetchBase(base);
      delta := codec.encode(a.content, content);
    }

    // A base chunk with a super-feature in common was found: the delta against it, unless that is larger than the
    // chunk.
    method InsertAgainstFeature(a: Arrival, id: nat, base: nat) returns (chunk: Chunk)
      requires Sound() && ArrivalOk(a) && id == |contents| && base in Bases(store.chunklist)
      modifies Repr()
      ensures Sound() && contents == old(contents) + [a.content]
      ensures OneMore(old(store.Inserted()), store.Inserted(), a, chunk)
      ensures fpIndex == old(fpIndex) && version == old(version)
      ensures store.recipes == old(store.recipes) && store.headerRecipes == old(store.headerRecipes)
      ensures store.filename == old(store.filename)
      ensures base < |old(contents)|
      ensures Became(Decide(old(contents), codec, a, None, Some(base)), chunk, id, a,
                     old(nameTable), nameTable, old(table.index), table.index, old(stats), stats)
    {
      hide Located, Holding, CacheHolds, ReadCache.Valid, IsBlockFor, Ingested, Lossless, AllIn, Bases, DataWrite.Valid;
      hide Pushed, Flat, StatsBase, StatsDeltaFeature, NamesHold, Packed, OneMore;
      var delta := EncodeAgainst(a, base);
      if |delta| > |a.content| {
        chunk := InsertBase(a, id);
      } else {
        chunk := InsertDelta(a, id, FinesseDelta, base, delta);
        stats := StatsDeltaFeature(stats, chunk.chunkSize, chunk.saveSize);
      }
    }

    // The base chunk the name index offers: only from the second backup on, and if the index is in use.
    ghost function Named(name: nat): (r: Option<nat>)
      reads this
    {
      if version > 0 && turnOnNameHash && name in nameTable then Some(nameTable[name]) else None
    }

    // No base chunk of that name: the super-features decide.
    method ProcessUnnamed(a: Arrival, id: nat) returns (chunk: Chunk)
      requires Sound() && ArrivalOk(a) && id == |contents|
      modifies Repr()
      ensures Sound() && contents == old(contents) + [a.content]
      ensures OneMore(old(store.Inserted()), store.Inserted(), a, chunk)
      ensures fpIndex == old(fpIndex) && version == old(version)
      ensures store.recipes == old(store.recipes) && store.headerRecipes == old(store.headerRecipes)
      ensures store.filename == old(store.filename)
      ensures var hit := FirstHit(old(table.index), a.superfeatures);
              && (hit.Some? ==> hit.value < |old(contents)|)
              && Became(Decide(old(contents), codec, a, None, hit), chunk, id, a,
                        old(nameTable), nameTable, old(table.index), table.index, old(stats), stats)
    {
      hide Located, Holding, CacheHolds, ReadCache.Valid, IsBlockFor, Ingested, Lossless, AllIn, Bases, DataWrite.Valid;
      hide Pushed, Flat, StatsBase, StatsDeltaFeature, StatsDeltaLocality, FirstHit;
      hide Became, Decide, OneMore, Sound;
      SoundMeans(this, a.superfeatures);
      NothingToDecide(contents, codec, a);
      var hit := table.Find(a.superfeatures);
      if hit.None? {
        chunk := InsertBase(a, id);
      } else {
        chunk := InsertAgainstFeature(a, id, hit.value);
      }
    }

    // A base chunk of that name: the delta against it, if the filter accepts it or the super-features agree.
    method ProcessNamed(a: Arrival, id: nat, named: nat) returns (chunk: Chunk)
      requires Sound() && ArrivalOk(a) && id == |contents| && named in Bases(store.chunklist)
      modifies Repr()
      ensures Sound() && contents == old(contents) + [a.content]
      ensures OneMore(old(store.Inserted()), store.Inserted(), a, chunk)
      ensures fpIndex == old(fpIndex) && version == old(version)
      ensures store.recipes == old(store.recipes) && store.headerRecipes == old(store.headerRecipes)
      ensures store.filename == old(store.filename)
      ensures var hit := FirstHit(old(table.index), a.superfeatures);
              && named < |old(contents)| && (hit.Some? ==> hit.value < |old(contents)|)
              && Became(Decide(old(contents), codec, a, Some(named), hit), chunk, id, a,
                        old(nameTable), nameTable, old(table.index), table.index, old(stats), stats)
    {
      hide Located, Holding, CacheHolds, ReadCache.Valid, IsBlockFor, Ingested, Lossless, AllIn, Bases, DataWrite.Valid;
      hide Pushed, Flat, StatsBase, StatsDeltaFeature, StatsDeltaLocality, FirstHit;
      hide Became, Decide, OneMore, Sound;
      SoundMeans(this, a.superfeatures);
      DecideByName(contents, codec, a, named, FirstHit(table.index, a.superfeatures));
      var delta := EncodeAgainst(a, named);
      if a.gain(|a.content|, |delta|) && |delta| <= |a.content| {
        chunk := InsertNamedDelta(a, id, named, delta);
      } else {
        chunk := ProcessRefused(a, id, named, delta);
      }
    }

    // The filter refused the delta, or it is too large: it is taken all the same if the super-features lead to its
    // base.
    method ProcessRefused(a: Arrival, id: nat, named: nat, delta: Buffer) returns (chunk: Chunk)
      requires Sound() && ArrivalOk(a) && id == |contents| && named in Bases(store.chunklist) && named < |contents|
      requires delta == codec.encode(a.content, contents[named])
      requires !(a.gain(|a.content|, |delta|) && |delta| <= |a.content|)
      modifies Repr()
      ensures Sound() && contents == old(contents) + [a.content]
      ensures OneMore(old(store.Inserted()), store.Inserted(), a, chunk)
      ensures fpIndex == old(fpIndex) && version == old(version)
      ensures store.recipes == old(store.recipes) && store.headerRecipes == old(store.headerRecipes)
      ensures store.filename == old(store.filename)
      ensures var hit := FirstHit(old(table.index), a.superfeatures);
              && named < |old(contents)| && (hit.Some? ==> hit.value < |old(contents)|)
              && Became(Decide(old(contents), codec, a, Some(named), hit), chunk, id, a,
                        old(nameTable), nameTable, old(table.index), table.index, old(stats), stats)
    {
      hide Located, Holding, CacheHolds, ReadCache.Valid, IsBlockFor, Ingested, Lossless, AllIn, Bases, DataWrite.Valid;
      hide Pushed, Flat, StatsBase, StatsDeltaFeature, StatsDeltaLocality, FirstHit;
      hide Became, Decide, OneMore, Sound;
      SoundMeans(this, a.superfeatures);
      DecideByName(contents, codec, a, named, FirstHit(table.index, a.superfeatures));
      NothingToDecide(contents, codec, a);
      var hit := table.Find(a.superfeatures);
      if hit == Some(named) && |delta| <= |a.content| {
        chunk := InsertNamedDelta(a, id, named, delta);
      } else if hit.None? {
        chunk := InsertBase(a, id);
      } else {
        chunk := InsertAgainstFeature(a, id, hit.value);
      }
    }

    method InsertNamedDelta(a: Arrival, id: nat, named: nat, delta: Buffer) returns (chunk: Chunk)
      requires Sound() && ArrivalOk(a) && id == |contents| && named in Bases(store.chunklist) && named < |contents|
      requires delta == codec.encode(a.content, contents[named]) && |delta| <= |a.content|
      modifies `contents, `stats, store.data
      modifies store`chunklist, store`files, store`size, store`curOffset, store`containerNum, store`pieces,
               store`payloads
      ensures Sound() && contents == old(contents) + [a.content]
      ensures OneMore(old(store.Inserted()), store.Inserted(), a, chunk)
      ensures Became(NameDelta(named), chunk, id, a, nameTable, nameTable, table.index, table.index, old(stats), stats)
    {
      hide Located, Holding, CacheHolds, ReadCache.Valid, IsBlockFor, Ingested, Lossless, AllIn, Bases, DataWrite.Valid;
      hide Flat, StatsDeltaLocality;
      chunk := InsertDelta(a, id, LocalDelta, named, delta);
      stats := StatsDeltaLocality(stats, chunk.chunkSize, chunk.saveSize);
    }

    // A chunk not seen before. The source also handles a chunk of the same name that is itself a delta; there is none,
    // because only base chunks are in the name index.
    method ProcessUnique(a: Arrival, id: nat) returns (chunk: Chunk)
      requires Sound() && ArrivalOk(a) && id == |contents|
      modifies Repr()
      ensures Sound() && contents == old(contents) + [a.content]
      ensures OneMore(old(store.Inserted()), store.Inserted(), a, chunk)
      ensures fpIndex == old(fpIndex) && version == old(version)
      ensures store.recipes == old(store.recipes) && store.headerRecipes == old(store.headerRecipes)
      ensures store.filename == old(store.filename)
      ensures var named, hit := old(Named(a.name)), FirstHit(old(table.index), a.superfeatures);
              && (named.Some? ==> named.value < |old(contents)|) && (hit.Some? ==> hit.value < |old(contents)|)
              && Became(Decide(old(contents), codec, a, named, hit), chunk, id, a,
                        old(nameTable), nameTable, old(table.index), table.index, old(stats), stats)
    {
      hide Located, Holding, CacheHolds, ReadCache.Valid, IsBlockFor, Ingested, Lossless, AllIn, Bases, DataWrite.Valid;
      hide Pushed, Flat, StatsBase, StatsDeltaFeature, StatsDeltaLocality, FirstHit;
      hide Became, Decide, OneMore, NamesHold;
      if version > 0 && turnOnNameHash && a.name in nameTable {
        var named := nameTable[a.name];
        NamesLeadToBases(nameTable, store.chunklist);
        assert named in nameTable.Values;
        NamedIsBase(store.chunklist, named);
        assert IsBase(store.chunklist[named]);
        chunk := ProcessNamed(a, id, named);
      } else {
        chunk := ProcessUnnamed(a, id);
      }
    }

    // What holds while a chunk is counted as stored but not yet as seen.
    ghost predicate Halfway(size: nat)
      reads Repr()
    {
      && Sound()
      && Fingerprinted(fpIndex, fingerprint, contents)
      && Balanced(StatsLogical(stats, size)) && stats.uniqueSize == |Flat(store.pieces)|
         && stats.uniqueNum == |contents|
      && Accounted(stats, store.chunklist)
    }

    method ProcessNew(a: Arrival) returns (id: nat, chunk: Chunk)
      requires Valid() && ArrivalOk(a) && fingerprint(a.content) !in fpIndex
      modifies Repr()
      ensures Halfway(chunk.chunkSize) && contents == old(contents) + [a.content] && id == |old(contents)|
      ensures OneMore(old(store.Inserted()), store.Inserted(), a, chunk)
      ensures version == old(version)
      ensures stats.logicalNum == old(stats.logicalNum) && stats.logicalSize == old(stats.logicalSize)
      ensures store.recipes == old(store.recipes) && store.headerRecipes == old(store.headerRecipes)
      ensures store.filename == old(store.filename)
      ensures var named, hit := old(Named(a.name)), FirstHit(old(table.index), a.superfeatures);
              && (named.Some? ==> named.value < |old(contents)|) && (hit.Some? ==> hit.value < |old(contents)|)
              && Flagged(Decide(old(contents), codec, a, named, hit), chunk)
      ensures nameTable == if IsBase(chunk) then old(nameTable)[a.name := id] else old(nameTable)
      ensures table.index
              == if IsBase(chunk) then Pushed(old(table.index), a.superfeatures, id) else old(table.index)
    {
      hide Ingested, Lossless, AllIn, Bases, DataWrite.Valid, RecipesWithin, Decide, Fingerprinted;
      hide Pushed, Flat, StatsBase, StatsDeltaFeature, StatsDeltaLocality, StatsUnique, StatsLogical, Balanced;
      hide Accounted;
      hide FirstHit;
      ghost var was, known, s := store.Inserted(), contents, stats;
      id := stats.uniqueNum;
      FingerprintedNew(fpIndex, fingerprint, contents, a.content);
      fpIndex := fpIndex[fingerprint(a.content) := id];
      ghost var named, hit := Named(a.name), FirstHit(table.index, a.superfeatures);
      chunk := ProcessUnique(a, id);
      UniqueCounted(s, stats, chunk);
      CountedAs(s, was.chunks, chunk, Decide(known, codec, a, named, hit));
      stats := StatsUnique(stats, chunk.chunkSize, chunk.saveSize, chunk.headerFlag, chunk.cdcFlag);
    }

    // A chunk seen before: nothing is stored.
    method ProcessDuplicate(a: Arrival) returns (id: nat, chunk: Chunk)
      requires Valid() && fingerprint(a.content) in fpIndex && NoCollision(fingerprint, contents, a.content)
      modifies `stats
      ensures Halfway(chunk.chunkSize) && id < |contents| && contents[id] == a.content && chunk.chunkSize == |a.content|
      ensures id < |store.chunklist| && chunk == store.chunklist[id]
      ensures stats.logicalNum == old(stats.logicalNum) && stats.logicalSize == old(stats.logicalSize)
    {
      hide Lossless, AllIn, Bases, DataWrite.Valid, RecipesWithin, Flat, Balanced, Accounted, StatsLogical;
      hide StatsDuplicate;
      id := fpIndex[fingerprint(a.content)];
      IngestedSizes(store.Inserted(), codec, contents);
      chunk := store.chunklist[id];
      SizeRecorded(store.Inserted(), codec, contents, id);
      ChunkKeepsBalance(stats, chunk.chunkSize, chunk.chunkSize, false, false);
      DuplicateCounts(stats, chunk.chunkSize);
      AccountedStill(stats, store.chunklist, chunk.chunkSize);
      stats := StatsDuplicate(stats, chunk.chunkSize);
    }

    // The chunk goes into one of the recipes of the backup, by the flag it was first stored with.
    method Record(id: nat, chunk: Chunk)
      requires Halfway(chunk.chunkSize) && id < |contents|
      requires RecipesWithin(store.recipes, |contents|) && RecipesWithin(store.headerRecipes, |contents|)
      modifies `stats, store`recipes, store`headerRecipes
      ensures Valid() && stats == StatsLogical(old(stats), chunk.chunkSize)
      ensures RecordedIn(old(store.recipes), store.recipes, store.filename, id, !chunk.headerFlag)
      ensures RecordedIn(old(store.headerRecipes), store.headerRecipes, store.filename, id, chunk.headerFlag)
    {
      hide Located, Holding, CacheHolds, ReadCache.Valid;
      hide Ingested, Lossless, AllIn, Bases, Flat, Balanced, Accounted, Fingerprinted, RecipesWithin;
      RecipesGrow(store.recipes, |contents|, store.filename, id, |contents|);
      RecipesGrow(store.headerRecipes, |contents|, store.filename, id, |contents|);
      if chunk.headerFlag {
        store.RecipeHeaderInsert(id);
      } else {
        store.RecipeInsert(id);
      }
      AccountedStill(stats, store.chunklist, chunk.chunkSize);
      stats := StatsLogical(stats, chunk.chunkSize);
    }

    // One round of the loop of ProcessTrace.
    method Process(a: Arrival) returns (id: nat)
      requires Valid() && ArrivalOk(a) && NoCollision(fingerprint, contents, a.content)
      modifies Repr()
      ensures Valid() && version == old(version) && store.filename == old(store.filename)
      ensures contents == if a.content in old(contents) then old(contents) else old(contents) + [a.content]
      ensures id < |contents| == |store.chunklist| && contents[id] == a.content
      ensures old(store.chunklist) <= store.chunklist
      ensures a.content !in old(contents) ==>
                && id == |old(contents)| && store.chunklist[id].headerFlag == a.headerFlag
                && var named, hit := old(Named(a.name)), FirstHit(old(table.index), a.superfeatures);
                && (named.Some? ==> named.value < |old(contents)|) && (hit.Some? ==> hit.value < |old(contents)|)
                && Flagged(Decide(old(contents), codec, a, named, hit), store.chunklist[id])
      ensures a.content !in old(contents) && old(version) > 0 && turnOnNameHash && a.name in old(nameTable) ==>
                && old(nameTable)[a.name] < |old(contents)|
                && var delta := codec.encode(a.content, old(contents)[old(nameTable)[a.name]]);
                && (|delta| <= |a.content| && a.gain(|a.content|, |delta|) ==>
                    && store.chunklist[id].deltaFlag == LocalDelta
                    && store.chunklist[id].basechunkID == old(nameTable)[a.name])
      ensures a.content !in old(contents) && (old(version) == 0 || !turnOnNameHash || a.name !in old(nameTable)) ==>
                store.chunklist[id].deltaFlag != LocalDelta
      ensures if a.content !in old(contents) && IsBase(store.chunklist[id])
              then nameTable == old(nameTable)[a.name := id]
                   && table.index == Pushed(old(table.index), a.superfeatures, id)
              else nameTable == old(nameTable) && table.index == old(table.index)
      ensures RecordedIn(old(store.recipes), store.recipes, store.filename, id, !store.chunklist[id].headerFlag)
      ensures RecordedIn(old(store.headerRecipes), store.headerRecipes, store.filename, id,
                         store.chunklist[id].headerFlag)
      ensures stats.logicalNum == old(stats.logicalNum) + 1
              && stats.logicalSize == old(stats.logicalSize) + |a.content|
    {
      hide Located, Holding, CacheHolds, ReadCache.Valid;
      hide Ingested, Lossless, AllIn, Bases, Decide, Flat, Balanced, Accounted, FirstHit, Fingerprinted, Flagged;
      hide RecipesWithin;
      hide NoCollision;
      KnownByFingerprint(fpIndex, fingerprint, contents, a.content);
      ghost var known := |contents|;
      var chunk;
      if fingerprint(a.content) !in fpIndex {
        ghost var named, hit, were := Named(a.name), FirstHit(table.index, a.superfeatures), contents;
        id, chunk := ProcessNew(a);
        NamedDecides(were, codec, a, named, hit, chunk);
      } else {
        id, chunk := ProcessDuplicate(a);
      }
      IngestedSizes(store.Inserted(), codec, contents);
      RecipesGrow(store.recipes, known, store.filename, id, |contents|);
      RecipesGrow(store.headerRecipes, known, store.filename, id, |contents|);
      Record(id, chunk);
    }

    // One backup, chunk by chunk, to the end of ProcessTrace.
    method TakeBackup(name: string, arrivals: seq<Arrival>, ghost chunks: set<Buffer>, ghost flag: Buffer -> bool)
      requires Valid() && BackupOk(arrivals, chunks) && Injective(fingerprint, chunks)
      requires AllIngestedIn(contents, chunks) && FlagsAgree(store.chunklist, contents, flag)
      requires FirstFlags(arrivals, contents, flag)
      modifies Repr()
      ensures Valid() && version == old(version) + 1
      ensures AllIngestedIn(contents, chunks) && FlagsAgree(store.chunklist, contents, flag)
              && SeenIn(contents, arrivals)
      ensures Recorded(old(store.recipes), store.recipes, old(contents), contents, name, Sorted(arrivals, flag, false))
      ensures Recorded(old(store.headerRecipes), store.headerRecipes, old(contents), contents, name,
                       Sorted(arrivals, flag, true))
    {
      hide Located, Holding, CacheHolds, ReadCache.Valid, Ingested, Lossless, AllIn, Bases, Flat, Balanced, Accounted;
      hide Fingerprinted;
      hide RecipesWithin, Recorded, Injective, BackupOk, AllIngestedIn, FlagsAgree, FirstFlags;
      store.filename := name;
      ghost var recipes, headerRecipes, before := store.recipes, store.headerRecipes, contents;
      NothingRecorded(recipes, before, name);
      NothingRecorded(headerRecipes, before, name);
      var k := 0;
      while k < |arrivals|
        invariant 0 <= k <= |arrivals| && (Valid() <==> true) && store.filename == name && version == old(version)
        invariant AllIngestedIn(contents, chunks) && FlagsAgree(store.chunklist, contents, flag)
        invariant before <= contents && SeenIn(contents, arrivals[..k])
        invariant Recorded(recipes, store.recipes, before, contents, name, Sorted(arrivals[..k], flag, false))
        invariant Recorded(headerRecipes, store.headerRecipes, before, contents, name,
                           Sorted(arrivals[..k], flag, true))
      {
        ProcessNext(name, arrivals, k, recipes, headerRecipes, before, chunks, flag);
        k := k + 1;
      }
      assert arrivals[..k] == arrivals;
      version := version + 1;
    }

    method ProcessNext(name: string, arrivals: seq<Arrival>, k: nat, ghost recipes: map<string, seq<nat>>,
                       ghost headerRecipes: map<string, seq<nat>>, ghost before: seq<Buffer>, ghost chunks: set<Buffer>,
                       ghost flag: Buffer -> bool)
      requires Valid() && k < |arrivals| && store.filename == name
      requires BackupOk(arrivals, chunks) && Injective(fingerprint, chunks) && FirstFlags(arrivals, before, flag)
      requires AllIngestedIn(contents, chunks) && FlagsAgree(store.chunklist, contents, flag)
      requires before <= contents && SeenIn(contents, arrivals[..k])
      requires Recorded(recipes, store.recipes, before, contents, name, Sorted(arrivals[..k], flag, false))
      requires Recorded(headerRecipes, store.headerRecipes, before, contents, name, Sorted(arrivals[..k], flag, true))
      modifies Repr()
      ensures Valid() && store.filename == name && version == old(version)
      ensures AllIngestedIn(contents, chunks) && FlagsAgree(store.chunklist, contents, flag)
      ensures before <= contents && SeenIn(contents, arrivals[..k + 1])
      ensures Recorded(recipes, store.recipes, before, contents, name, Sorted(arrivals[..k + 1], flag, false))
      ensures Recorded(headerRecipes, store.headerRecipes, before, contents, name,
                       Sorted(arrivals[..k + 1], flag, true))
    {
      hide Sound, Decide, FirstHit, Ingested, Lossless, AllIn, Bases, Flat, Balanced, Accounted, Fingerprinted;
      hide RecipesWithin, Recorded, RecordedIn, Flagged, FirstFlags, SeenIn;
      hide BackupOk, AllIngestedIn, FlagsAgree, NoCollision, Injective, Valid, ArrivalOk;
      ghost var now, headersNow, known, were := store.recipes, store.headerRecipes, contents, store.chunklist;
      BeforeProcess(arrivals, k, before, contents, fingerprint, chunks, flag);
      ValidMeans(this);
      var id := Process(arrivals[k]);
      ghost var header := store.chunklist[id].headerFlag;
      AfterProcess(arrivals, k, known, contents, were, store.chunklist, id, chunks, flag);
      assert arrivals[..k + 1][..k] == arrivals[..k];
      RecordedMore(recipes, now, store.recipes, before, known, contents, name, Sorted(arrivals[..k], flag, false), id,
                   !header);
      RecordedMore(headerRecipes, headersNow, store.headerRecipes, before, known, contents, name,
                   Sorted(arrivals[..k], flag, true), id, header);
    }

    // One backup restored, as main does: the file, then an empty cache.
    method Restore(name: string) returns (out: Buffer)
      requires Valid()
      modifies Cached()
      ensures Valid() && out == Flat(Picked(contents, RecipeOf(store.recipes, name)))
    {
      hide Located, Holding, CacheHolds, ReadCache.Valid, Ingested, Lossless, AllIn, Bases, Flat, Balanced, Accounted;
      hide Fingerprinted;
      hide Restorable;
      RestoredIs(store.Inserted(), codec, contents, RecipeOf(store.recipes, name));
      out := store.RestoreFile(name, codec);
      ClearCache();
    }

    // What main does after every backup taken or restored.
    method ClearCache()
      requires Valid()
      modifies Cached()
      ensures Valid()
    {
      hide Located, Holding, CacheHolds, ReadCache.Valid, Ingested, Lossless, AllIn, Bases, Flat, Balanced, Accounted;
      hide Fingerprinted;
      store.ClearAllCache();
    }
  }

  // Every byte that came in is in a container or accounted for by one of the three reductions.
  lemma EveryByteAccountedFor(m: BiSearch)
    requires m.Valid()
    ensures forall c: nat :: c < m.store.containerNum ==> c in m.store.files
    ensures m.stats.logicalSize == FileBytes(m.store.files, m.store.containerNum) + m.store.size
                                   + m.stats.dedupReduct + m.stats.localReduct + m.stats.deltaReduct
  {
    hide Located, CacheHolds, ReadCache.Valid, Ingested, Lossless, AllIn, Bases, Flat, Fingerprinted, RecipesWithin;
    hide Pack;
    var cs := Pack(m.store.pieces);
    TilesContainers(m.store.pieces);
    FilesHold(cs, m.store.files, m.store.containerNum);
    FlatSnoc(cs[..|cs| - 1], cs[|cs| - 1]);
    assert cs == cs[..|cs| - 1] + [cs[|cs| - 1]];
  }

  // The bytes in the first n container files.
  ghost function FileBytes(files: map<nat, Buffer>, n: nat): nat
    requires forall c: nat :: c < n ==> c in files
  {
    if n == 0 then 0 else FileBytes(files, n - 1) + |files[n - 1]|
  }

  lemma {:induction false} FilesHold(cs: seq<Buffer>, files: map<nat, Buffer>, n: nat)
    requires n <= |cs| && forall c: nat :: c < n ==> c in files && files[c] == cs[c]
    ensures FileBytes(files, n) == |Flat(cs[..n])|
  {
    if n > 0 {
      FilesHold(cs, files, n - 1);
      FlatSnoc(cs[..n - 1], cs[n - 1]);
      assert cs[..n] == cs[..n - 1] + [cs[n - 1]];
    }
  }

  // A delta chunk's base is a base chunk with a smaller id, and the recorded delta makes the chunk of it.
  lemma DeltasHaveBases(m: BiSearch, i: nat)
    requires m.Valid() && i < |m.contents| == |m.store.chunklist| == |m.store.payloads| && !IsBase(m.store.chunklist[i])
    ensures var b := m.store.chunklist[i].basechunkID;
            && 0 <= b < i && IsBase(m.store.chunklist[b])
            && m.codec.decode(m.store.payloads[i], m.contents[b]) == m.contents[i]
  {
    hide Located, Holding, CacheHolds, ReadCache.Valid, Lossless, AllIn, Bases, Flat, Fingerprinted, RecipesWithin;
    hide Balanced, Accounted;
    hide Readable;
    assert ChunkOk(m.store.Inserted(), m.codec, m.contents, i);
    assert ChunkOk(m.store.Inserted(), m.codec, m.contents, m.store.chunklist[i].basechunkID);
  }

  // The backups so far are recorded, and the names to come are not in use.
  ghost predicate AllRecorded(recipes: map<string, seq<nat>>, contents: seq<Buffer>, names: seq<string>,
                              backups: seq<seq<Arrival>>, k: nat, flag: Buffer -> bool, headers: bool)
    requires |names| == |backups|
  {
    && (forall i :: 0 <= i < k && i < |names| ==>
          Picked(contents, RecipeOf(recipes, names[i])) == Sorted(backups[i], flag, headers))
    && (forall i :: k <= i < |names| ==> RecipeOf(recipes, names[i]) == [])
  }

  lemma OneMoreRecorded(recipes: map<string, seq<nat>>, recipes': map<string, seq<nat>>, contents: seq<Buffer>,
                        contents': seq<Buffer>, names: seq<string>, backups: seq<seq<Arrival>>, k: nat,
                        flag: Buffer -> bool, headers: bool)
    requires |names| == |backups| && k < |names| && forall i, j :: 0 <= i < j < |names| ==> names[i] != names[j]
    requires AllRecorded(recipes, contents, names, backups, k, flag, headers) && RecipesWithin(recipes, |contents|)
    requires Recorded(recipes, recipes', contents, contents', names[k], Sorted(backups[k], flag, headers))
    ensures AllRecorded(recipes', contents', names, backups, k + 1, flag, headers)
  {
    hide Sorted, Picked;
    NothingPicked(contents);
    forall i | 0 <= i < k + 1
      ensures Picked(contents', RecipeOf(recipes', names[i])) == Sorted(backups[i], flag, headers)
    {
      if i < k {
        PickedStays(contents, contents', RecipeOf(recipes, names[i]));
      } else {
        assert Picked(contents, RecipeOf(recipes, names[k])) + Sorted(backups[k], flag, headers)
            == Sorted(backups[k], flag, headers);
      }
    }
  }

  lemma NothingPicked(contents: seq<Buffer>)
    ensures Picked(contents, []) == []
  {
  }

  // ---------------------------------------------------------------------------------------------
  // Which recipe a chunk goes into
  // ---------------------------------------------------------------------------------------------

  // All chunks of the first k backups, in order.
  ghost function Arrived(backups: seq<seq<Arrival>>, k: nat): seq<Arrival>
    requires k <= |backups|
  {
    if k == 0 then [] else Arrived(backups, k - 1) + backups[k - 1]
  }

  // The flag of the first arrival with this content.
  ghost function FirstFlag(all: seq<Arrival>, content: Buffer): bool {
    all != [] && if all[0].content == content then all[0].headerFlag else FirstFlag(all[1..], content)
  }

  ghost function Flags(backups: seq<seq<Arrival>>): Buffer -> bool {
    content => FirstFlag(Arrived(backups, |backups|), content)
  }

  lemma {:induction false} FirstFlagAt(all: seq<Arrival>, k: nat)
    requires k < |all| && New(all, k)
    ensures FirstFlag(all, all[k].content) == all[k].headerFlag
  {
    if k > 0 {
      assert all[0].content != all[k].content;
      FirstFlagAt(all[1..], k - 1);
    }
  }

  lemma {:induction false} FirstFlagOf(all: seq<Arrival>, k: nat) returns (first: nat)
    requires k < |all|
    ensures first <= k && all[first].content == all[k].content && New(all, first)
    ensures FirstFlag(all, all[k].content) == all[first].headerFlag
  {
    first := k;
    if !New(all, k) {
      var j: nat :| j < k && all[j].content == all[k].content;
      first := FirstFlagOf(all, j);
    } else {
      FirstFlagAt(all, k);
    }
  }

  // The chunks of backup k come right after those of the backups before it.
  lemma {:induction false} ArrivedAt(backups: seq<seq<Arrival>>, k: nat, n: nat)
    requires k < n <= |backups|
    ensures Arrived(backups, k) + backups[k] <= Arrived(backups, n)
  {
    if k + 1 < n {
      ArrivedAt(backups, k, n - 1);
    }
  }

  lemma {:induction false} ArrivedFrom(backups: seq<seq<Arrival>>, n: nat, a: Arrival)
    requires n <= |backups| && a in Arrived(backups, n)
    ensures exists i :: 0 <= i < n && a in backups[i]
  {
    if a !in backups[n - 1] {
      ArrivedFrom(backups, n - 1, a);
    }
  }

  lemma FlagsAreFirst(backups: seq<seq<Arrival>>, k: nat, contents: seq<Buffer>)
    requires k < |backups| && SeenIn(contents, Arrived(backups, k))
    ensures FirstFlags(backups[k], contents, Flags(backups))
  {
    hide FirstFlag, Arrived;
    var here := backups[k];
    ArrivedAt(backups, k, |backups|);
    forall j | 0 <= j < |here| && here[j].content !in contents && New(here, j)
      ensures here[j].headerFlag == Flags(backups)(here[j].content)
    {
      FirstOfAll(Arrived(backups, k), here, Arrived(backups, |backups|), j, contents);
    }
  }

  lemma FirstOfAll(before: seq<Arrival>, here: seq<Arrival>, all: seq<Arrival>, j: nat, contents: seq<Buffer>)
    requires before + here <= all && j < |here| && SeenIn(contents, before)
    requires here[j].content !in contents && New(here, j)
    ensures FirstFlag(all, here[j].content) == here[j].headerFlag
  {
    hide FirstFlag;
    var at := |before| + j;
    assert all[at] == (before + here)[at] == here[j];
    forall i | 0 <= i < at ensures all[i].content != all[at].content {
      assert all[i] == (before + here)[i];
    }
    FirstFlagAt(all, at);
  }

  // Both recipes of a backup stand for what was pushed for them.
  ghost predicate Kept(arrivals: seq<Arrival>, flag: Buffer -> bool) {
    && Sorted(arrivals, flag, true) == Stream(arrivals, true)
    && Sorted(arrivals, flag, false) == Stream(arrivals, false)
  }

  ghost predicate OwnFlags(arrivals: seq<Arrival>, flag: Buffer -> bool) {
    forall k :: 0 <= k < |arrivals| ==> arrivals[k].headerFlag == flag(arrivals[k].content)
  }

  // They do if and only if every chunk has the flag that its content came with first.
  lemma {:induction false} StreamsKept(arrivals: seq<Arrival>, flag: Buffer -> bool)
    ensures Kept(arrivals, flag) <==> OwnFlags(arrivals, flag)
  {
    hide Sorted, Stream;
    if OwnFlags(arrivals, flag) {
      SortedAlike(arrivals, flag, true);
      SortedAlike(arrivals, flag, false);
    }
    if Kept(arrivals, flag) {
      forall k | 0 <= k < |arrivals| ensures arrivals[k].headerFlag == flag(arrivals[k].content) {
        InStream(arrivals, k);
        SortedBy(arrivals, flag, arrivals[k].headerFlag, arrivals[k].content);
      }
    }
  }

  lemma {:induction false} SortedAlike(arrivals: seq<Arrival>, flag: Buffer -> bool, headers: bool)
    requires OwnFlags(arrivals, flag)
    ensures Sorted(arrivals, flag, headers) == Stream(arrivals, headers)
  {
    if arrivals != [] {
      SortedAlike(arrivals[..|arrivals| - 1], flag, headers);
    }
  }

  lemma {:induction false} InStream(arrivals: seq<Arrival>, k: nat)
    requires k < |arrivals|
    ensures arrivals[k].content in Stream(arrivals, arrivals[k].headerFlag)
  {
    if k < |arrivals| - 1 {
      InStream(arrivals[..|arrivals| - 1], k);
    }
  }

  lemma {:induction false} SortedBy(arrivals: seq<Arrival>, flag: Buffer -> bool, headers: bool, content: Buffer)
    requires content in Sorted(arrivals, flag, headers)
    ensures flag(content) == headers
  {
    var n := |arrivals| - 1;
    if content in Sorted(arrivals[..n], flag, headers) {
      SortedBy(arrivals[..n], flag, headers, content);
    }
  }

  // No content is pushed both as a header group and as a data chunk.
  ghost predicate NoClash(backups: seq<seq<Arrival>>) {
    forall i, j, a, b :: 0 <= i < |backups| && 0 <= j < |backups| && a in backups[i] && b in backups[j] ==>
      a.content == b.content ==> a.headerFlag == b.headerFlag
  }

  // Every backup's recipes stand for what was pushed for them, if and only if no content is pushed as both.
  lemma KeptWithoutClash(backups: seq<seq<Arrival>>)
    ensures (forall i :: 0 <= i < |backups| ==> Kept(backups[i], Flags(backups))) <==> NoClash(backups)
  {
    hide Kept, Flags;
    if NoClash(backups) {
      forall i | 0 <= i < |backups| ensures Kept(backups[i], Flags(backups)) {
        FlagsWithoutClash(backups, i);
        StreamsKept(backups[i], Flags(backups));
      }
    }
    if forall i :: 0 <= i < |backups| ==> Kept(backups[i], Flags(backups)) {
      forall i | 0 <= i < |backups| ensures OwnFlags(backups[i], Flags(backups)) {
        StreamsKept(backups[i], Flags(backups));
      }
    }
  }

  lemma FlagsWithoutClash(backups: seq<seq<Arrival>>, i: nat)
    requires NoClash(backups) && i < |backups|
    ensures OwnFlags(backups[i], Flags(backups))
  {
    hide FirstFlag, Arrived;
    var before, here, all := Arrived(backups, i), backups[i], Arrived(backups, |backups|);
    ArrivedAt(backups, i, |backups|);
    forall k | 0 <= k < |here| ensures here[k].headerFlag == Flags(backups)(here[k].content) {
      assert all[|before| + k] == (before + here)[|before| + k] == here[k];
      var first := FirstFlagOf(all, |before| + k);
      ArrivedFrom(backups, |backups|, all[first]);
      assert here[k] in backups[i];
    }
  }

  // ---------------------------------------------------------------------------------------------
  // Whole sessions
  // ---------------------------------------------------------------------------------------------

  // Any number of distinctly named backups are taken, then restored: each file written is the concatenation of the
  // chunks of the backup whose content came first as a data chunk, whatever the super-features and the gain filter
  // answer.
  method BackUpAndRestore(names: seq<string>, backups: seq<seq<Arrival>>, fingerprint: Buffer -> Fingerprint,
                          codec: Codec,
                          hash: (Buffer, nat) -> nat, turnOnNameHash: bool, ghost chunks: set<Buffer>)
    returns (restored: seq<Buffer>)
    requires Lossless(codec) && Injective(fingerprint, chunks)
    requires |names| == |backups| && forall i, j :: 0 <= i < j < |names| ==> names[i] != names[j]
    requires forall i :: 0 <= i < |backups| ==> BackupOk(backups[i], chunks)
    ensures |restored| == |names|
    ensures forall i :: 0 <= i < |names| ==> restored[i] == Flat(Sorted(backups[i], Flags(backups), false))
    ensures NoClash(backups) ==> forall i :: 0 <= i < |names| ==> restored[i] == Flat(Stream(backups[i], false))
  {
    hide Lossless, Injective, BackupOk, Flat, Stream, Sorted, Recorded, RecipesWithin, BiSearch.Sound, Balanced;
    hide Accounted;
    hide Fingerprinted, FlagsAgree, AllIngestedIn, AllRecorded, Picked, Restorable, SeenIn, FirstFlags, NoClash, Flags;
    var bisearch := new BiSearch(fingerprint, codec, hash, turnOnNameHash);
    ghost var flag := Flags(backups);
    NothingRecordedYet(bisearch.store.recipes, bisearch.contents, names, backups, bisearch.store.chunklist, chunks,
                       flag);
    var k := 0;
    while k < |names|
      invariant 0 <= k <= |names| && fresh(bisearch.Repr()) && (bisearch.Valid() <==> true)
      invariant AllIngestedIn(bisearch.contents, chunks)
                && FlagsAgree(bisearch.store.chunklist, bisearch.contents, flag)
      invariant SeenIn(bisearch.contents, Arrived(backups, k))
      invariant AllRecorded(bisearch.store.recipes, bisearch.contents, names, backups, k, flag, false)
    {
      ghost var recipes, contents := bisearch.store.recipes, bisearch.contents;
      FlagsAreFirst(backups, k, contents);
      bisearch.TakeBackup(names[k], backups[k], chunks, flag);
      OneMoreRecorded(recipes, bisearch.store.recipes, contents, bisearch.contents, names, backups, k, flag, false);
      OneMoreSeen(recipes, bisearch.store.recipes, contents, bisearch.contents, names[k], backups, k, flag);
      bisearch.ClearCache();
      k := k + 1;
    }
    restored := [];
    var i := 0;
    while i < |names|
      invariant 0 <= i <= |names| && fresh(bisearch.Repr()) && (bisearch.Valid() <==> true) && |restored| == i
      invariant AllRecorded(bisearch.store.recipes, bisearch.contents, names, backups, |names|, flag, false)
      invariant forall j :: 0 <= j < i ==> restored[j] == Flat(Sorted(backups[j], flag, false))
    {
      var out := bisearch.Restore(names[i]);
      RecordedAt(bisearch.store.recipes, bisearch.contents, names, backups, |names|, i, flag, false);
      restored := restored + [out];
      i := i + 1;
    }
    KeptWithoutClash(backups);
  }

  lemma OneMoreSeen(recipes: map<string, seq<nat>>, recipes': map<string, seq<nat>>, contents: seq<Buffer>,
                    contents': seq<Buffer>, name: string, backups: seq<seq<Arrival>>, k: nat, flag: Buffer -> bool)
    requires k < |backups| && SeenIn(contents, Arrived(backups, k)) && SeenIn(contents', backups[k])
    requires Recorded(recipes, recipes', contents, contents', name, Sorted(backups[k], flag, false))
    ensures SeenIn(contents', Arrived(backups, k + 1))
  {
    hide Sorted, Picked;
  }

  lemma RecordedAt(recipes: map<string, seq<nat>>, contents: seq<Buffer>, names: seq<string>,
                   backups: seq<seq<Arrival>>,
                   k: nat, i: nat, flag: Buffer -> bool, headers: bool)
    requires |names| == |backups| && AllRecorded(recipes, contents, names, backups, k, flag, headers)
             && i < k <= |names|
    ensures Picked(contents, RecipeOf(recipes, names[i])) == Sorted(backups[i], flag, headers)
  {
  }

  lemma NothingRecordedYet(recipes: map<string, seq<nat>>, contents: seq<Buffer>, names: seq<string>,
                           backups: seq<seq<Arrival>>, chunklist: seq<Chunk>, chunks: set<Buffer>, flag: Buffer -> bool)
    requires |names| == |backups| && recipes == map[] && contents == [] && chunklist == []
    ensures AllRecorded(recipes, contents, names, backups, 0, flag, true)
    ensures AllRecorded(recipes, contents, names, backups, 0, flag, false)
    ensures AllIngestedIn(contents, chunks) && FlagsAgree(chunklist, contents, flag)
            && SeenIn(contents, Arrived(backups, 0))
  {
    hide Sorted;
  }

  // A backup without header chunks: the file restored is all of it.
  lemma {:induction false} StreamOfAll(arrivals: seq<Arrival>)
    requires forall k :: 0 <= k < |arrivals| ==> !arrivals[k].headerFlag
    ensures |Stream(arrivals, false)| == |arrivals| && Stream(arrivals, true) == []
    ensures forall k :: 0 <= k < |arrivals| ==> Stream(arrivals, false)[k] == arrivals[k].content
  {
    if arrivals != [] {
      StreamOfAll(arrivals[..|arrivals| - 1]);
    }
  }
}
