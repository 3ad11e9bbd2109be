// The whole path of a tar archive: split by the chunker, stored by BiSearch, merged again by the restorer.
module Backups {
  import opened Bytes
  import opened Packing
  import opened Tar
  import opened TarReads
  import opened TarSplit
  import opened ChunkStore
  import opened BiSearchMethod
  import opened TarChunker
  import opened TarRestore
  import opened ContainerCache
  import FastCdc
  import FeatureIndex
  import SpscQueue
  import Stats

  // What a piece is annotated with on its way to the store: what the model leaves open.
  datatype Note = Note(name: nat, superfeatures: seq<nat>, gain: (nat, nat) -> bool)

  // The notes of the pieces of a backup, by their position.
  function Annotated(queue: seq<Piece>, notes: nat -> Note): seq<Arrival> {
    seq(|queue|, k requires 0 <= k < |queue| =>
      Arrival(queue[k].bytes, notes(k).name, queue[k].headerFlag, queue[k].cdcFlag, notes(k).superfeatures,
              notes(k).gain))
  }

  // What the chunker pushes for an archive.
  ghost function Pushed(a: Buffer, c: Config): seq<Piece> {
    Split(SeenMembers(a, c), c)
  }

  function NotesOf(notes: (nat, nat) -> Note, i: nat): nat -> Note {
    (k: nat) => notes(i, k)
  }

  ghost function Sessions(archives: seq<Buffer>, c: Config, notes: (nat, nat) -> Note): (sessions: seq<seq<Arrival>>)
    ensures |sessions| == |archives|
  {
    seq(|archives|, i requires 0 <= i < |archives| => Annotated(Pushed(archives[i], c), NotesOf(notes, i)))
  }

  ghost function AllPieces(archives: seq<Buffer>, c: Config): set<Buffer> {
    set i, k | 0 <= i < |archives| && 0 <= k < |Pushed(archives[i], c)| :: Pushed(archives[i], c)[k].bytes
  }

  // No group of header blocks of one archive is a data chunk of one of them.
  ghost predicate NothingShared(archives: seq<Buffer>, c: Config) {
    forall i, j, group :: 0 <= i < |archives| && 0 <= j < |archives| && group in Pieces(Pushed(archives[i], c), true)
                          ==> group !in Pieces(Pushed(archives[j], c), false)
  }

  // An archive the chunker splits, in pieces a container has room for, as the restorer merges it.
  ghost predicate ArchiveOk(a: Buffer, c: Config) {
    var members := Bare(SeenMembers(a, c));
    && Legible(a, Start(a, c), c) && BodiesFit(members, c.big, CONTAINER_MAX_SIZE) && AllReadAlike(members, c.big)
  }

  ghost predicate ConfigOk(c: Config) {
    1 <= c.multi <= 16 && c.normal <= FastCdc.MAX_CHUNK_SIZE
  }

  // What this asks of the members that are there, for an archive that takes one read, or one whose bodies leave room
  // for their headers in a container.
  lemma OkAsItIs(a: Buffer, c: Config)
    requires ConfigOk(c) && WellFormed(a, 0, c.big)
    requires |a| <= BufferSize(c) || BodiesFit(Members(a, 0, c.big), c.big, CONTAINER_MAX_SIZE - BLOCK)
    ensures ArchiveOk(a, c)
            <==> BodiesFit(Members(a, 0, c.big), c.big, CONTAINER_MAX_SIZE) && AllReadAlike(Members(a, 0, c.big), c.big)
  {
    hide WellFormed, Members, BodiesFit, AllReadAlike, Legible, SeenMembers, Start;
    if |a| <= BufferSize(c) {
      OneRead(a, c);
    } else {
      SmallBodies(a, c);
    }
  }

  lemma {:induction false} StreamIsPieces(queue: seq<Piece>, notes: nat -> Note, headers: bool)
    ensures Stream(Annotated(queue, notes), headers) == Pieces(queue, headers)
  {
    if queue != [] {
      var n := |queue| - 1;
      StreamIsPieces(queue[..n], notes, headers);
      assert Annotated(queue, notes)[..n] == Annotated(queue[..n], notes);
    }
  }

  // What is pushed both ways is what the archives share.
  lemma SharedIsClash(archives: seq<Buffer>, c: Config, notes: (nat, nat) -> Note)
    ensures NoClash(Sessions(archives, c, notes)) <==> NothingShared(archives, c)
  {
    hide Pushed, Pieces;
    var sessions := Sessions(archives, c, notes);
    if NothingShared(archives, c) {
      forall i, j, x: Arrival, y: Arrival | 0 <= i < |sessions| && 0 <= j < |sessions|
                                            && x in sessions[i] && y in sessions[j] && x.content == y.content
        ensures x.headerFlag == y.headerFlag
      {
        PieceIn(Pushed(archives[i], c), x.headerFlag, x.content);
        PieceIn(Pushed(archives[j], c), y.headerFlag, x.content);
      }
    }
    if NoClash(sessions) {
      forall i, j, group | 0 <= i < |archives| && 0 <= j < |archives| && group in Pieces(Pushed(archives[i], c), true)
        ensures group !in Pieces(Pushed(archives[j], c), false)
      {
        NotBoth(archives, c, notes, i, j, group);
      }
    }
  }

  lemma NotBoth(archives: seq<Buffer>, c: Config, notes: (nat, nat) -> Note, i: nat, j: nat, group: Buffer)
    requires NoClash(Sessions(archives, c, notes)) && i < |archives| && j < |archives|
    requires group in Pieces(Pushed(archives[i], c), true)
    ensures group !in Pieces(Pushed(archives[j], c), false)
  {
    hide Pushed, Pieces, NoClash;
    PieceIn(Pushed(archives[i], c), true, group);
    PieceIn(Pushed(archives[j], c), false, group);
    var sessions := Sessions(archives, c, notes);
    var k: nat :| k < |Pushed(archives[i], c)| && Pushed(archives[i], c)[k].headerFlag
                  && Pushed(archives[i], c)[k].bytes == group;
    forall l: nat | l < |Pushed(archives[j], c)| && Pushed(archives[j], c)[l].bytes == group
      ensures Pushed(archives[j], c)[l].headerFlag
    {
      SameFlag(sessions, i, j, k, l);
    }
  }

  lemma SameFlag(sessions: seq<seq<Arrival>>, i: nat, j: nat, k: nat, l: nat)
    requires NoClash(sessions) && i < |sessions| && j < |sessions| && k < |sessions[i]| && l < |sessions[j]|
    requires sessions[i][k].content == sessions[j][l].content
    ensures sessions[i][k].headerFlag == sessions[j][l].headerFlag
  {
    assert sessions[i][k] in sessions[i] && sessions[j][l] in sessions[j];
  }

  ghost predicate NotesOk(notes: (nat, nat) -> Note) {
    forall i, k :: |notes(i, k).superfeatures| == FeatureIndex.ODESS_SF_NUM
  }

  // The chunks of an archive are such as the store takes.
  lemma ChunksFit(archives: seq<Buffer>, c: Config, notes: (nat, nat) -> Note, i: nat)
    requires i < |archives| && ArchiveOk(archives[i], c) && ConfigOk(c) && NotesOk(notes)
    ensures BackupOk(Sessions(archives, c, notes)[i], AllPieces(archives, c))
    ensures GroupSizes(Pushed(archives[i], c), c.multi)
  {
    hide Split, SeenFrom, Legible, AllReadAlike, BodiesFit, Shapes, WholeHeaders;
    SeenShapes(archives[i], Start(archives[i], c), c);
    ShapesAreWhole(Bare(SeenMembers(archives[i], c)), c.big);
    SplitSizes(SeenMembers(archives[i], c), c, CONTAINER_MAX_SIZE);
    forall k | 0 <= k < |Pushed(archives[i], c)| ensures |Pushed(archives[i], c)[k].bytes| <= CONTAINER_MAX_SIZE {
    }
  }

  lemma IdsWithin(recipes: map<string, seq<nat>>, n: nat, name: string)
    requires RecipesWithin(recipes, n)
    ensures forall k :: 0 <= k < |RecipeOf(recipes, name)| ==> RecipeOf(recipes, name)[k] < n
  {
  }

  // What RestoreHeaderFile needs, from what the store holds.
  lemma ReadyToMerge(l: Ledger, codec: Codec, contents: seq<Buffer>, headers: seq<nat>, chunks: seq<nat>,
                     queue: seq<Piece>,
                     multi: nat)
    requires Ingested(l, codec, contents) && GroupSizes(queue, multi) && multi <= 16
    requires forall k :: 0 <= k < |headers| ==> headers[k] < |contents|
    requires forall k :: 0 <= k < |chunks| ==> chunks[k] < |contents|
    requires Picked(contents, headers) == Pieces(queue, true) && Picked(contents, chunks) == Pieces(queue, false)
    ensures forall k :: 0 <= k < |headers| ==> Restorable(l, codec, headers[k])
    ensures forall k :: 0 <= k < |chunks| ==> Restorable(l, codec, chunks[k])
    ensures Contents(l, codec, headers) == Pieces(queue, true) && Contents(l, codec, chunks) == Pieces(queue, false)
    ensures forall g :: g in Pieces(queue, true) ==> GroupOk(g)
  {
    hide Ingested, Restorable, Contents, Picked, Pieces;
    RestoredIs(l, codec, contents, headers);
    RestoredIs(l, codec, contents, chunks);
    forall g | g in Pieces(queue, true) ensures GroupOk(g) {
      PieceIn(queue, true, g);
    }
  }

  // One archive, merged from a sound store.
  method RestoreArchive(bisearch: BiSearch, restorer: Restorer, name: string, ghost a: Buffer, ghost c: Config)
    returns (out: Buffer)
    requires bisearch.Valid() && restorer.Idle() && restorer.store == bisearch.store
    requires restorer.multiHeaderBuffer != bisearch.lz4ChunkBuffer
    requires ArchiveOk(a, c) && ConfigOk(c) && GroupSizes(Pushed(a, c), c.multi)
    requires Picked(bisearch.contents, RecipeOf(bisearch.store.recipes, name)) == Pieces(Pushed(a, c), false)
    requires Picked(bisearch.contents, RecipeOf(bisearch.store.headerRecipes, name)) == Pieces(Pushed(a, c), true)
    modifies restorer, restorer.multiHeaderBuffer, bisearch.Cached()
    ensures bisearch.Valid() && restorer.Idle() && out == a
  {
    hide Located, Holding, CacheHolds, Ingested, Lossless, FeatureIndex.AllIn, Bases, Flat, Fingerprinted;
    hide Restorable, Contents, Picked, GroupSizes, Pieces, GroupOk, Legible, Split, AllReadAlike, SeenFrom;
    hide Stats.Balanced, Accounted;
    hide RecipesWithin, RecipeOf, ReadCache.Valid, BodiesFit, Merged, Written, AllCuts;
    var store := bisearch.store;
    ghost var queue := Pushed(a, c);
    IdsWithin(store.recipes, |bisearch.contents|, name);
    IdsWithin(store.headerRecipes, |bisearch.contents|, name);
    ReadyToMerge(store.Inserted(), bisearch.codec, bisearch.contents, RecipeOf(store.headerRecipes, name),
                 RecipeOf(store.recipes, name), queue, c.multi);
    SplitMerges(a, c);
    out := restorer.RestoreHeaderFile(name, bisearch.codec, Pieces(queue, true), Pieces(queue, false),
                                      AllCuts(Bare(SeenMembers(a, c)), c));
    bisearch.ClearCache();
  }

  // The stores recorded both streams of every archive, as the flags of first arrivals sort them.
  ghost predicate Stored(bisearch: BiSearch, names: seq<string>, sessions: seq<seq<Arrival>>, k: nat)
    requires |names| == |sessions|
    reads bisearch, bisearch.store
  {
    && AllRecorded(bisearch.store.recipes, bisearch.contents, names, sessions, k, Flags(sessions), false)
    && AllRecorded(bisearch.store.headerRecipes, bisearch.contents, names, sessions, k, Flags(sessions), true)
  }

  // With nothing shared, these are the pieces of the archive.
  lemma StoredAt(bisearch: BiSearch, names: seq<string>, archives: seq<Buffer>, c: Config, notes: (nat, nat) -> Note,
                 i: nat)
    requires i < |archives| == |names| && NothingShared(archives, c)
    requires Stored(bisearch, names, Sessions(archives, c, notes), |names|)
    ensures Picked(bisearch.contents, RecipeOf(bisearch.store.recipes, names[i]))
            == Pieces(Pushed(archives[i], c), false)
    ensures Picked(bisearch.contents, RecipeOf(bisearch.store.headerRecipes, names[i]))
            == Pieces(Pushed(archives[i], c), true)
  {
    hide AllRecorded, Picked, Stream, Sorted, Pieces, NoClash, NothingShared, Pushed, Flags;
    var sessions := Sessions(archives, c, notes);
    SharedIsClash(archives, c, notes);
    KeptWithoutClash(sessions);
    RecordedAt(bisearch.store.recipes, bisearch.contents, names, sessions, |names|, i, Flags(sessions), false);
    RecordedAt(bisearch.store.headerRecipes, bisearch.contents, names, sessions, |names|, i, Flags(sessions), true);
    StreamIsPieces(Pushed(archives[i], c), NotesOf(notes, i), false);
    StreamIsPieces(Pushed(archives[i], c), NotesOf(notes, i), true);
    assert Kept(sessions[i], Flags(sessions));
  }

  // The store while backups are taken: all pieces of the first k are in it, each with the flag it came with first.
  ghost predicate StoredSoFar(bisearch: BiSearch, names: seq<string>, sessions: seq<seq<Arrival>>, chunks: set<Buffer>,
                              k: nat)
    requires |names| == |sessions| && k <= |sessions|
    reads bisearch, bisearch.store
  {
    && AllIngestedIn(bisearch.contents, chunks)
       && FlagsAgree(bisearch.store.chunklist, bisearch.contents, Flags(sessions))
    && SeenIn(bisearch.contents, Arrived(sessions, k)) && Stored(bisearch, names, sessions, k)
  }

  method TakeOne(bisearch: BiSearch, ghost names: seq<string>, name: string, ghost sessions: seq<seq<Arrival>>,
                 arrivals: seq<Arrival>, ghost chunks: set<Buffer>, ghost k: nat)
    requires bisearch.Valid() && Injective(bisearch.fingerprint, chunks)
    requires |names| == |sessions| && k < |names| && names[k] == name && sessions[k] == arrivals
    requires BackupOk(arrivals, chunks) && StoredSoFar(bisearch, names, sessions, chunks, k)
    requires forall i, j :: 0 <= i < j < |names| ==> names[i] != names[j]
    modifies bisearch.Repr()
    ensures bisearch.Valid() && StoredSoFar(bisearch, names, sessions, chunks, k + 1)
  {
    hide Lossless, Injective, BackupOk, Flat, Sorted, Recorded, RecipesWithin, BiSearch.Sound, Stats.Balanced;
    hide Accounted;
    hide Fingerprinted;
    hide FlagsAgree, AllIngestedIn, AllRecorded, Picked, SeenIn, FirstFlags, Flags;
    ghost var flag := Flags(sessions);
    ghost var recipes, headerRecipes, contents :=
      bisearch.store.recipes, bisearch.store.headerRecipes, bisearch.contents;
    FlagsAreFirst(sessions, k, contents);
    bisearch.TakeBackup(name, arrivals, chunks, flag);
    OneMoreRecorded(recipes, bisearch.store.recipes, contents, bisearch.contents, names, sessions, k, flag, false);
    OneMoreRecorded(headerRecipes, bisearch.store.headerRecipes, contents, bisearch.contents, names, sessions, k, flag,
                    true);
    OneMoreSeen(recipes, bisearch.store.recipes, contents, bisearch.contents, name, sessions, k, flag);
    bisearch.ClearCache();
  }

  // One archive is split, and its pieces are stored.
  method TakeArchive(bisearch: BiSearch, chunker: Chunker, names: seq<string>, archives: seq<Buffer>, c: Config,
                     notes: (nat, nat) -> Note, k: nat)
    requires bisearch.Valid() && Injective(bisearch.fingerprint, AllPieces(archives, c))
    requires chunker.Idle() && chunker.queue == [] && chunker.Settings() == c
             && chunker.headerBuffer !in bisearch.Repr()
    requires |names| == |archives| && forall i, j :: 0 <= i < j < |names| ==> names[i] != names[j]
    requires k < |archives| && ArchiveOk(archives[k], c) && ConfigOk(c) && NotesOk(notes)
    requires StoredSoFar(bisearch, names, Sessions(archives, c, notes), AllPieces(archives, c), k)
    modifies bisearch.Repr(), chunker, chunker.headerBuffer
    ensures bisearch.Valid()
            && StoredSoFar(bisearch, names, Sessions(archives, c, notes), AllPieces(archives, c), k + 1)
    ensures chunker.Idle() && chunker.queue == []
  {
    hide Lossless, Injective, BackupOk, Flat, RecipesWithin, BiSearch.Valid, Split, StoredSoFar;
    hide Legible, AllReadAlike, BodiesFit, AllPieces, NotesOk, GroupSizes, SeenFrom;
    ghost var sessions, chunks := Sessions(archives, c, notes), AllPieces(archives, c);
    ChunksFit(archives, c, notes, k);
    chunker.Chunking(archives[k]);
    var queue := chunker.Drain();
    var arrivals := Annotated(queue, NotesOf(notes, k));
    assert arrivals == sessions[k];
    TakeOne(bisearch, names, names[k], sessions, arrivals, chunks, k);
  }

  // All archives are split and stored.
  method TakeAll(bisearch: BiSearch, chunker: Chunker, names: seq<string>, archives: seq<Buffer>, c: Config,
                 notes: (nat, nat) -> Note)
    requires bisearch.Valid() && bisearch.contents == [] && bisearch.store.chunklist == []
    requires bisearch.store.recipes == map[] && bisearch.store.headerRecipes == map[]
    requires chunker.Idle() && chunker.queue == [] && chunker.Settings() == c
             && chunker.headerBuffer !in bisearch.Repr()
    requires Injective(bisearch.fingerprint, AllPieces(archives, c)) && ConfigOk(c) && NotesOk(notes)
    requires |names| == |archives| && forall i, j :: 0 <= i < j < |names| ==> names[i] != names[j]
    requires forall i :: 0 <= i < |archives| ==> ArchiveOk(archives[i], c)
    modifies bisearch.Repr(), chunker, chunker.headerBuffer
    ensures bisearch.Valid() && Stored(bisearch, names, Sessions(archives, c, notes), |names|)
  {
    hide Lossless, Injective, BackupOk, Flat, RecipesWithin, BiSearch.Sound, Stats.Balanced, Accounted, Fingerprinted;
    hide Split;
    hide FlagsAgree, AllIngestedIn, AllRecorded, Legible, AllReadAlike, BodiesFit, AllPieces, NotesOk;
    hide GroupSizes;
    hide SeenIn, Flags, SeenFrom;
    ghost var sessions, chunks := Sessions(archives, c, notes), AllPieces(archives, c);
    NothingRecordedYet(bisearch.store.recipes, bisearch.contents, names, sessions, bisearch.store.chunklist, chunks,
                       Flags(sessions));
    NothingRecordedYet(bisearch.store.headerRecipes, bisearch.contents, names, sessions, bisearch.store.chunklist,
                       chunks, Flags(sessions));
    var k := 0;
    while k < |archives|
      invariant 0 <= k <= |archives| && (bisearch.Valid() <==> true)
      invariant chunker.Idle() && chunker.queue == [] && chunker.Settings() == c
      invariant StoredSoFar(bisearch, names, sessions, chunks, k)
    {
      TakeArchive(bisearch, chunker, names, archives, c, notes, k);
      k := k + 1;
    }
  }

  // Any number of distinctly named archives are split, stored and merged: each comes back byte for byte, whatever the
  // names, the super-features and the gain filter are.
  method ArchivesComeBack(names: seq<string>, archives: seq<Buffer>, c: Config, fingerprint: Buffer -> Fingerprint,
                          codec: Codec, hash: (Buffer, nat) -> nat, turnOnNameHash: bool, notes: (nat, nat) -> Note)
    returns (restored: seq<Buffer>)
    requires ConfigOk(c) && NotesOk(notes) && Lossless(codec) && Injective(fingerprint, AllPieces(archives, c))
    requires |names| == |archives| && forall i, j :: 0 <= i < j < |names| ==> names[i] != names[j]
    requires forall i :: 0 <= i < |archives| ==> ArchiveOk(archives[i], c)
    requires NothingShared(archives, c)
    ensures restored == archives
  {
    hide Lossless, Injective, Flat, BiSearch.Sound, Stats.Balanced, Accounted, Fingerprinted, Stored, Picked, Pieces;
    hide RecipesWithin, NothingShared, AllPieces, NotesOk, ArchiveOk, Sessions, Pushed, GroupSizes;
    var bisearch := new BiSearch(fingerprint, codec, hash, turnOnNameHash);
    var chunker := new Chunker(c);
    TakeAll(bisearch, chunker, names, archives, c, notes);
    var restorer := new Restorer(bisearch.store);
    restored := [];
    var i := 0;
    while i < |archives|
      invariant 0 <= i <= |archives| && fresh(bisearch.Repr()) && fresh(restorer)
      invariant fresh(restorer.multiHeaderBuffer) && restorer.multiHeaderBuffer != bisearch.lz4ChunkBuffer
      invariant bisearch.Valid() <==> true
      invariant restorer.Idle() && restorer.store == bisearch.store
      invariant Stored(bisearch, names, Sessions(archives, c, notes), |names|)
      invariant restored == archives[..i]
    {
      StoredAt(bisearch, names, archives, c, notes, i);
      ChunksFit(archives, c, notes, i);
      var out := RestoreArchive(bisearch, restorer, names[i], archives[i], c);
      restored := restored + [out];
      i := i + 1;
    }
  }

  // The pieces go through the queue between the two threads: what the store has taken when the consumer leaves its loop
  // is the session of the archive.
  lemma PiecesArrive(archives: seq<Buffer>, c: Config, notes: (nat, nat) -> Note, k: nat, wanted: nat,
                     run: seq<SpscQueue.State<Piece>>, i: nat)
    requires k < |archives| && wanted > 0 && SpscQueue.Run(wanted, run) && i < |run| && run[i].cons.CExit?
    requires run[i].input == Pushed(archives[k], c)
    ensures Annotated(run[i].popped, NotesOf(notes, k)) == Sessions(archives, c, notes)[k]
  {
    SpscQueue.ExitMeansAllPopped(wanted, run, i);
  }

  // ---------------------------------------------------------------------------------------------
  // Files that are no archives
  // ---------------------------------------------------------------------------------------------

  function Unflagged(cuts: seq<Buffer>, notes: nat -> Note): seq<Arrival> {
    seq(|cuts|, k requires 0 <= k < |cuts| =>
      Arrival(cuts[k], notes(k).name, false, false, notes(k).superfeatures, notes(k).gain))
  }

  ghost function AllChunks(files: seq<Buffer>, normalSize: nat): set<Buffer> {
    set i, k | 0 <= i < |files| && 0 <= k < |FastCdc.FileCuts(files[i], normalSize)| ::
      FastCdc.FileCuts(files[i], normalSize)[k]
  }

  // Any number of distinctly named files are cut by FastCDC, stored and restored: each comes back byte for byte.
  method FilesComeBack(names: seq<string>, files: seq<Buffer>, multiHeaderChunk: nat, normalSize: nat,
                       fingerprint: Buffer -> Fingerprint, codec: Codec, hash: (Buffer, nat) -> nat,
                       turnOnNameHash: bool, notes: (nat, nat) -> Note)
    returns (restored: seq<Buffer>)
    requires multiHeaderChunk >= 1 && normalSize <= FastCdc.MAX_CHUNK_SIZE && NotesOk(notes) && Lossless(codec)
    requires Injective(fingerprint, AllChunks(files, normalSize))
    requires |names| == |files| && forall i, j :: 0 <= i < j < |names| ==> names[i] != names[j]
    ensures restored == files
  {
    hide FastCdc.CutUpTo, FastCdc.FileCuts, Flat, Stream, Sorted, Flags, BackupOk, Injective, Lossless, NotesOk;
    hide NoClash;
    hide AllChunks;
    var backups: seq<seq<Arrival>> := [];
    var i := 0;
    while i < |files|
      invariant 0 <= i <= |files| && |backups| == i
      invariant forall j :: 0 <= j < i ==> FileBackup(files, normalSize, notes, j, backups[j])
    {
      var cuts := FastCdc.Chunking(files[i], multiHeaderChunk, normalSize);
      backups := backups + [Unflagged(cuts, NotesOf(notes, i))];
      i := i + 1;
    }
    forall j | 0 <= j < |backups| ensures BackupOk(backups[j], AllChunks(files, normalSize)) {
      FileChunksFit(files, normalSize, notes, j, backups[j]);
    }
    NoHeaders(backups, files, normalSize, notes);
    restored := BackUpAndRestore(names, backups, fingerprint, codec, hash, turnOnNameHash,
                                 AllChunks(files, normalSize));
    forall j | 0 <= j < |files| ensures restored[j] == files[j] {
      StreamIsFile(files, normalSize, notes, j, backups[j]);
    }
  }

  ghost predicate FileBackup(files: seq<Buffer>, normalSize: nat, notes: (nat, nat) -> Note, j: nat,
                             arrivals: seq<Arrival>)
    requires j < |files|
  {
    arrivals == Unflagged(FastCdc.FileCuts(files[j], normalSize), NotesOf(notes, j))
  }

  lemma FileChunksFit(files: seq<Buffer>, normalSize: nat, notes: (nat, nat) -> Note, j: nat, arrivals: seq<Arrival>)
    requires j < |files| && FileBackup(files, normalSize, notes, j, arrivals) && NotesOk(notes)
    ensures BackupOk(arrivals, AllChunks(files, normalSize))
  {
    hide FastCdc.FileCuts;
  }

  lemma NoHeaders(backups: seq<seq<Arrival>>, files: seq<Buffer>, normalSize: nat, notes: (nat, nat) -> Note)
    requires |backups| == |files|
    requires forall j :: 0 <= j < |files| ==> FileBackup(files, normalSize, notes, j, backups[j])
    ensures NoClash(backups)
  {
    hide FastCdc.FileCuts;
  }

  lemma StreamIsFile(files: seq<Buffer>, normalSize: nat, notes: (nat, nat) -> Note, j: nat, arrivals: seq<Arrival>)
    requires j < |files| && FileBackup(files, normalSize, notes, j, arrivals)
    ensures Flat(Stream(arrivals, false)) == files[j]
  {
    hide Flat, FastCdc.CutUpTo, FastCdc.FileCuts, Stream;
    var cuts := FastCdc.FileCuts(files[j], normalSize);
    StreamOfAll(arrivals);
    assert Stream(arrivals, false) == cuts;
    FastCdc.CuttingIsFileCuts(files[j], cuts, normalSize);
    FastCdc.CutsAll(files[j], cuts, normalSize);
  }
}
