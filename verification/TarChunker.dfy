// The tar-aware chunker: a three-state machine that splits an archive into groups of header blocks and data chunks,
// through a buffer that slides over the archive.
module TarChunker {
  import opened Bytes
  import opened Tar
  import opened TarReads
  import opened TarSplit
  import FastCdc
  import opened Memory

  // How far the split is, for the proof: the members read and the place of the next one's header, the pieces of a big
  // body so far, and how much of the room of one call they took.
  datatype Progress = Progress(done: seq<Seen>, place: Place, partial: seq<Buffer>, used: nat)

  // Where the machine is: before a header, before the body of a member, or inside a big body.
  datatype Phase = AtHeader | InFile(size: nat) | InBig(size: nat, offset: nat)

  // A body that goes from `from` to `end` is cut up to pos, and the rest is cut as it would be on its own.
  ghost predicate PartlyCut(a: Buffer, from: nat, pos: nat, end: nat, c: Config, partial: seq<Buffer>) {
    from <= pos < end <= |a| && BigCuts(a[from..end], c.normal) == partial + BigCuts(a[pos..end], c.normal)
  }

  // Inside a big body, cut up to pos with r in the buffer; the calls to come lead to the read that is seen after it.
  ghost predicate InBody(a: Buffer, c: Config, pos: nat, r: Read, size: nat, p: Progress) {
    var at := p.place.pos + BLOCK;
    var end := at + RoundUp(size);
    && at < p.place.read.end <= |a| && CutHeader(a[p.place.pos..at], c.big) == (BigChunk, size)
    && PartlyCut(a, at, pos, end, c, p.partial) && r.end <= |a|
    && var call := BigCall(a, pos, end, p.used, c);
    BigReads(a, call, end, Again(a, call, r, c), c) == See(a, p.place, c).next.read
  }

  // The machine's phase fits the archive at position pos, with r in the buffer. Before the first header of a group the
  // buffer may still have to be filled again.
  ghost predicate Reading(a: Buffer, c: Config, pos: nat, r: Read, phase: Phase, p: Progress) {
    && Legible(a, p.place, c) && SeenMembers(a, c) == p.done + SeenFrom(a, p.place, c)
    && p.place.pos <= pos <= r.end <= |a| && (r.last ==> r.end == |a|)
    && match phase
       case AtHeader =>
         pos == p.place.pos && p.partial == [] && p.place.read == if p.place.open == 0 then Again(a, pos, r, c) else r
       case InFile(size) =>
         && pos == p.place.pos + BLOCK < r.end && p.partial == [] && p.place.read == r
         && CutHeader(a[p.place.pos..pos], c.big) == (FileChunk, size)
       case InBig(size, offset) => pos == p.place.pos + BLOCK + offset && InBody(a, c, pos, r, size, p)
  }

  ghost function CurrentHeader(a: Buffer, phase: Phase, p: Progress): Buffer {
    if phase.AtHeader? || p.place.pos + BLOCK > |a| then [] else a[p.place.pos..p.place.pos + BLOCK]
  }

  // What was pushed, and the header blocks still to push, are those of the members read. A group that is full, or the
  // last in the buffer, is pushed only after the body of its last header, and that of a big body's header before it.
  ghost predicate Output(queue: seq<Piece>, buffered: Buffer, c: Config, phase: Phase, header: Buffer, p: Progress,
                         ended: bool)
  {
    var g := Gather(p.done, c);
    && |g.open| == p.place.open
    && match phase
       case AtHeader =>
         if buffered != [] && (ended || |buffered| >= BLOCK * c.multi) then g == Gathered(queue + [Group(buffered)], [])
         else queue == g.queue && buffered == g.open
       case InFile(_) => queue == g.queue && buffered == g.open + header
       case InBig(_, offset) =>
         if buffered != [] then offset == 0 && queue == g.queue && buffered == g.open + header && p.partial == []
         else queue == g.queue + [Group(g.open + header)] + DataPieces(p.partial, true)
  }

  // ---------------------------------------------------------------------------------------------
  // What each step does to the progress
  // ---------------------------------------------------------------------------------------------

  lemma NextSeen(a: Buffer, c: Config, p: Progress)
    requires Legible(a, p.place, c) && SeenMembers(a, c) == p.done + SeenFrom(a, p.place, c) && p.place.pos < |a|
    ensures HeaderFits(a, p.place, c) && p.place.pos + BLOCK <= p.place.read.end <= |a|
    ensures var s := See(a, p.place, c);
            Legible(a, s.next, c) && SeenMembers(a, c) == p.done + [s.seen] + SeenFrom(a, s.next, c)
  {
    hide CutHeader, See, Start;
    var s := See(a, p.place, c);
    assert p.done + ([s.seen] + SeenFrom(a, s.next, c)) == p.done + [s.seen] + SeenFrom(a, s.next, c);
  }

  // A member is complete.
  function Finished(p: Progress, s: Sight): Progress {
    Progress(p.done + [s.seen], s.next, [], 0)
  }

  // A header block is read, after which no body follows, or none is in the buffer.
  lemma PlainHeader(a: Buffer, c: Config, pos: nat, r: Read, p: Progress)
    requires Reading(a, c, pos, r, AtHeader, p) && p.place.read == r && pos + BLOCK <= r.end
    requires CutHeader(a[pos..pos + BLOCK], c.big).0.FileHeader? || pos + BLOCK == r.end
    ensures p.place.pos + BLOCK <= p.place.read.end <= |a|
    ensures var s := See(a, p.place, c);
            && s.seen == Seen(Member(a[pos..pos + BLOCK], []), pos + BLOCK == r.end)
            && s.next.open
               == (if s.seen.ended || p.place.open + BLOCK >= BLOCK * c.multi then 0 else p.place.open + BLOCK)
            && Reading(a, c, pos + BLOCK, r, AtHeader, Finished(p, s))
  {
    hide CutHeader, SeenFrom, Legible, Again, BigReads, SeenMembers, HeaderFits, RoundUp;
    NextSeen(a, c, p);
    assert a[pos + BLOCK..pos + BLOCK] == [];
  }

  lemma FileHeaderRead(a: Buffer, c: Config, pos: nat, r: Read, p: Progress, size: nat)
    requires Reading(a, c, pos, r, AtHeader, p) && p.place.read == r && pos + BLOCK < r.end
    requires CutHeader(a[pos..pos + BLOCK], c.big) == (FileChunk, size)
    ensures Reading(a, c, pos + BLOCK, r, InFile(size), p)
  {
    hide CutHeader, SeenFrom, Legible, Again, SeenMembers;
  }

  lemma BigHeaderRead(a: Buffer, c: Config, pos: nat, r: Read, p: Progress, size: nat)
    requires Reading(a, c, pos, r, AtHeader, p) && p.place.read == r && pos + BLOCK < r.end
    requires CutHeader(a[pos..pos + BLOCK], c.big) == (BigChunk, size)
    ensures Reading(a, c, pos + BLOCK, r, InBig(size, 0), p.(used := CONTAINER_MAX_SIZE))
  {
    hide CutHeader, SeenFrom, Legible, Again, SeenMembers, RoundUp, BigCuts, BigReads;
    NextSeen(a, c, p);
    BigHasBody(a, p.place, c);
    var body := a[pos + BLOCK..pos + BLOCK + RoundUp(size)];
    assert [] + BigCuts(body, c.normal) == BigCuts(body, c.normal);
  }

  lemma BigHasBody(a: Buffer, p: Place, c: Config)
    requires HeaderFits(a, p, c) && p.pos + BLOCK < p.read.end
    ensures var (kind, size) := CutHeader(a[p.pos..p.pos + BLOCK], c.big);
            kind.BigChunk? ==> 0 < RoundUp(size) <= |a| - p.pos - BLOCK
  {
    hide OctalSize;
    if CutHeader(a[p.pos..p.pos + BLOCK], c.big).0.BigChunk? {
      RoundUpHolds(CutHeader(a[p.pos..p.pos + BLOCK], c.big).1);
    }
  }

  // The body of a member is read, all of it or all there is in the buffer.
  lemma FileRead(a: Buffer, c: Config, pos: nat, r: Read, p: Progress, size: nat)
    requires Reading(a, c, pos, r, InFile(size), p)
    ensures p.place.pos + BLOCK <= p.place.read.end <= |a|
    ensures var s, cp := See(a, p.place, c), Min(RoundUp(size), r.end - pos);
            && s.seen == Seen(Member(a[p.place.pos..pos], a[pos..pos + cp]), pos + cp == r.end)
            && s.next.open
               == (if s.seen.ended || p.place.open + BLOCK >= BLOCK * c.multi then 0 else p.place.open + BLOCK)
            && Reading(a, c, pos + cp, r, AtHeader, Finished(p, s))
  {
    hide CutHeader, SeenFrom, Legible, Again, BigReads, SeenMembers, HeaderFits, RoundUp;
    NextSeen(a, c, p);
  }

  lemma CutFurther(a: Buffer, from: nat, pos: nat, end: nat, c: Config, partial: seq<Buffer>, cp: nat)
    requires PartlyCut(a, from, pos, end, c, partial) && end - pos > FastCdc.MAX_CHUNK_SIZE
    requires cp == FastCdc.CutLength(a[pos..end], c.normal)
    ensures 0 < cp && pos + cp <= |a| && PartlyCut(a, from, pos + cp, end, c, partial + [a[pos..pos + cp]])
  {
    hide FastCdc.CutLength;
    var rest := a[pos..end];
    assert rest[..cp] == a[pos..pos + cp] && rest[cp..] == a[pos + cp..end];
    assert partial + ([a[pos..pos + cp]] + BigCuts(a[pos + cp..end], c.normal))
        == partial + [a[pos..pos + cp]] + BigCuts(a[pos + cp..end], c.normal);
  }

  lemma CutLast(a: Buffer, from: nat, pos: nat, end: nat, c: Config, partial: seq<Buffer>)
    requires PartlyCut(a, from, pos, end, c, partial) && end - pos <= FastCdc.MAX_CHUNK_SIZE
    ensures BigCuts(a[from..end], c.normal) == partial + [a[pos..end]]
  {
  }

  // One more piece of a big body is cut, and it is not the last.
  lemma BigPieceRead(a: Buffer, c: Config, pos: nat, r: Read, p: Progress, size: nat, offset: nat, cp: nat)
    requires Reading(a, c, pos, r, InBig(size, offset), p)
    requires p.used < CONTAINER_MAX_SIZE - FastCdc.MAX_CHUNK_SIZE
    requires cp == NextCut(a, pos, p.place.pos + BLOCK + RoundUp(size), c) < RoundUp(size) - offset && pos + cp <= r.end
    ensures var p' := p.(partial := p.partial + [a[pos..pos + cp]], used := p.used + cp);
            0 < cp && Reading(a, c, pos + cp, r, InBig(size, offset + cp), p')
  {
    hide RoundUp, CutHeader, FastCdc.CutLength, PartlyCut, SeenFrom, Legible, Again, SeenMembers, BigReads, See;
    PartlyCutMeans(a, p.place.pos + BLOCK, pos, p.place.pos + BLOCK + RoundUp(size), c, p.partial);
    CutFurther(a, p.place.pos + BLOCK, pos, p.place.pos + BLOCK + RoundUp(size), c, p.partial, cp);
  }

  lemma PartlyCutMeans(a: Buffer, from: nat, pos: nat, end: nat, c: Config, partial: seq<Buffer>)
    requires PartlyCut(a, from, pos, end, c, partial)
    ensures from <= pos < end <= |a|
  {
  }

  // The last piece: the body is cut as a whole.
  lemma BigRead(a: Buffer, c: Config, pos: nat, r: Read, p: Progress, size: nat, offset: nat)
    requires Reading(a, c, pos, r, InBig(size, offset), p)
    requires p.used < CONTAINER_MAX_SIZE - FastCdc.MAX_CHUNK_SIZE
    requires 0 < RoundUp(size) - offset <= FastCdc.MAX_CHUNK_SIZE && p.place.pos + BLOCK + RoundUp(size) <= r.end
    ensures p.place.pos + BLOCK <= p.place.read.end <= |a|
    ensures var s, at, end := See(a, p.place, c), p.place.pos + BLOCK, p.place.pos + BLOCK + RoundUp(size);
            && end <= |a| && s.seen == Seen(Member(a[p.place.pos..at], a[at..end]), false)
            && s.next.open == 0 && Reading(a, c, end, r, AtHeader, Finished(p, s))
            && BigCuts(a[at..end], c.normal) == p.partial + [a[pos..end]]
  {
    hide RoundUp, CutHeader, FastCdc.CutLength, PartlyCut, SeenFrom, Legible, Again, SeenMembers, BigCuts;
    var at, end := p.place.pos + BLOCK, p.place.pos + BLOCK + RoundUp(size);
    PartlyCutMeans(a, at, pos, end, c, p.partial);
    NextSeen(a, c, p);
    CutLast(a, at, pos, end, c, p.partial);
  }

  // ---------------------------------------------------------------------------------------------
  // What each step does to progress and output together
  // ---------------------------------------------------------------------------------------------

  lemma OnePiece(queue: seq<Piece>, bytes: Buffer, cdcFlag: bool)
    ensures queue + DataPieces([bytes], cdcFlag) == queue + [Piece(bytes, false, cdcFlag)]
  {
  }

  // Reading a header block into a group that has room for it.
  lemma HeaderStep(a: Buffer, c: Config, pos: nat, r: Read, p: Progress, queue: seq<Piece>, buffered: Buffer,
                   kind: Kind, size: nat)
    returns (p': Progress)
    requires pos + BLOCK <= r.end <= |a| && Reading(a, c, pos, r, AtHeader, p) && p.place.read == r
    requires Output(queue, buffered, c, AtHeader, [], p, false) && |buffered| < BLOCK * c.multi
    requires CutHeader(a[pos..pos + BLOCK], c.big) == (kind, size)
    ensures var ended := pos + BLOCK == r.end;
            var phase := if kind.FileHeader? || ended then AtHeader
                         else if kind.FileChunk? then InFile(size) else InBig(size, 0);
            && Reading(a, c, pos + BLOCK, r, phase, p')
            && Output(queue, buffered + a[pos..pos + BLOCK], c, phase, CurrentHeader(a, phase, p'), p', ended)
            && (phase.InBig? ==> p'.used == CONTAINER_MAX_SIZE)
  {
    hide CutHeader, RoundUp, See, Reading, Gather, BigCuts, DataPieces;
    var h := a[pos..pos + BLOCK];
    ReadingMeans(a, c, pos, r, AtHeader, p);
    p' := p;
    if kind.FileHeader? || pos + BLOCK == r.end {
      PlainHeader(a, c, pos, r, p);
      var s := See(a, p.place, c);
      GatherSnoc(p.done, s.seen, c);
      NoPieces(queue, false);
      NoPieces(queue + [Group(buffered + h)], true);
      p' := Finished(p, s);
    } else if kind.FileChunk? {
      FileHeaderRead(a, c, pos, r, p, size);
    } else {
      BigHeaderRead(a, c, pos, r, p, size);
      p' := p.(used := CONTAINER_MAX_SIZE);
    }
  }

  // Reading the body of a member: it is pushed as one chunk, unless it is empty.
  lemma FileStep(a: Buffer, c: Config, pos: nat, r: Read, p: Progress, size: nat, queue: seq<Piece>, queue': seq<Piece>,
                 buffered: Buffer)
    returns (p': Progress)
    requires Reading(a, c, pos, r, InFile(size), p)
    requires Output(queue, buffered, c, InFile(size), CurrentHeader(a, InFile(size), p), p, false)
    requires var cp := Min(RoundUp(size), r.end - pos);
             0 <= cp <= |a| - pos && queue' == queue + if cp == 0 then [] else [Piece(a[pos..pos + cp], false, false)]
    ensures var cp := Min(RoundUp(size), r.end - pos);
            && Reading(a, c, pos + cp, r, AtHeader, p')
            && Output(queue', buffered, c, AtHeader, [], p', pos + cp == r.end)
  {
    hide CutHeader, RoundUp, See, Reading, Gather, BigCuts, DataPieces;
    ReadingMeans(a, c, pos, r, InFile(size), p);
    FileRead(a, c, pos, r, p, size);
    var s := See(a, p.place, c);
    GatherSnoc(p.done, s.seen, c);
    NoPieces(queue, false);
    OnePiece(queue, s.seen.member.body, false);
    assert queue + [] == queue;
    p' := Finished(p, s);
  }

  // Reading a piece of a big body.
  lemma BigStep(a: Buffer, c: Config, pos: nat, r: Read, p: Progress, size: nat, offset: nat, cp: nat,
                queue: seq<Piece>)
    returns (p': Progress)
    requires Reading(a, c, pos, r, InBig(size, offset), p)
    requires p.used < CONTAINER_MAX_SIZE - FastCdc.MAX_CHUNK_SIZE
    requires Output(queue, [], c, InBig(size, offset), CurrentHeader(a, InBig(size, offset), p), p, false)
    requires 0 < RoundUp(size) - offset && p.place.pos + BLOCK + RoundUp(size) <= |a| && pos + cp <= r.end
    requires pos == p.place.pos + BLOCK + offset && cp == NextCut(a, pos, p.place.pos + BLOCK + RoundUp(size), c)
    ensures var phase := if cp == RoundUp(size) - offset then AtHeader else InBig(size, offset + cp);
            && 0 < cp && pos + cp <= |a| && Reading(a, c, pos + cp, r, phase, p')
            && Output(queue + [Piece(a[pos..pos + cp], false, true)], [], c, phase, CurrentHeader(a, phase, p'),
                      p', false)
            && (phase.InBig? ==> p'.used == p.used + cp)
  {
    hide CutHeader, RoundUp, See, Reading, Gather, BigCuts, DataPieces, FastCdc.CutLength;
    ReadingMeans(a, c, pos, r, InBig(size, offset), p);
    var g := Gather(p.done, c);
    var start := g.queue + [Group(g.open + a[p.place.pos..p.place.pos + BLOCK])];
    OneMorePiece(start, p.partial, a[pos..pos + cp], true);
    if cp == RoundUp(size) - offset {
      BigRead(a, c, pos, r, p, size, offset);
      BigIsBig(a, c, pos, r, p, size, offset);
      GatherSnoc(p.done, See(a, p.place, c).seen, c);
      p' := Finished(p, See(a, p.place, c));
    } else {
      BigPieceRead(a, c, pos, r, p, size, offset, cp);
      p' := p.(partial := p.partial + [a[pos..pos + cp]], used := p.used + cp);
    }
  }

  lemma BigIsBig(a: Buffer, c: Config, pos: nat, r: Read, p: Progress, size: nat, offset: nat)
    requires Reading(a, c, pos, r, InBig(size, offset), p)
    ensures p.place.pos + BLOCK <= |a| && IsBig(a[p.place.pos..p.place.pos + BLOCK], c.big)
  {
    hide CutHeader, RoundUp, SeenFrom, Legible, Again, SeenMembers, BigReads, PartlyCut;
  }

  // Pushing a group: it is full, or the header of a big body is its last, or the buffer ends.
  lemma GroupStep(a: Buffer, c: Config, phase: Phase, p: Progress, queue: seq<Piece>, buffered: Buffer, ended: bool)
    requires !phase.InFile? && buffered != []
    requires Output(queue, buffered, c, phase, CurrentHeader(a, phase, p), p, ended)
    requires |buffered| >= BLOCK * c.multi || phase.InBig? || ended
    ensures Output(queue + [Group(buffered)], [], c, phase, CurrentHeader(a, phase, p), p, ended)
  {
    hide Gather, DataPieces;
    NoPieces(queue + [Group(buffered)], true);
  }

  // ---------------------------------------------------------------------------------------------
  // Where the machine can be
  // ---------------------------------------------------------------------------------------------

  // What the phase says of the position.
  lemma ReadingMeans(a: Buffer, c: Config, pos: nat, r: Read, phase: Phase, p: Progress)
    requires Reading(a, c, pos, r, phase, p)
    ensures p.place.pos <= pos <= r.end <= |a| && (r.last ==> r.end == |a|)
    ensures phase.AtHeader? ==> CurrentHeader(a, phase, p) == [] && p.place.pos == pos && p.partial == []
    ensures phase.AtHeader? && pos < |a| && p.place.read == r ==> pos + BLOCK <= r.end
    ensures phase.AtHeader? ==> p.place.read == if p.place.open == 0 then Again(a, pos, r, c) else r
    ensures !phase.AtHeader? ==>
              p.place.pos + BLOCK <= |a| && CurrentHeader(a, phase, p) == a[p.place.pos..p.place.pos + BLOCK]
    ensures phase.InFile? ==> p.place.pos + BLOCK == pos && !IsBig(a[p.place.pos..pos], c.big)
    ensures phase.InBig? ==>
              && pos == p.place.pos + BLOCK + phase.offset && phase.offset < RoundUp(phase.size)
              && p.place.pos + BLOCK + RoundUp(phase.size) <= |a|
  {
    hide CutHeader, RoundUp, SeenFrom, See, BigReads, BigCuts, Again;
  }

  // Between two calls the buffer may be filled again.
  lemma Refilled(a: Buffer, c: Config, pos: nat, r: Read, phase: Phase, p: Progress)
    requires Reading(a, c, pos, r, phase, p) && !phase.InFile? && (phase.AtHeader? ==> p.place.open == 0)
    requires phase.InBig? ==> p.used >= CONTAINER_MAX_SIZE - FastCdc.MAX_CHUNK_SIZE
    ensures Reading(a, c, pos, Again(a, pos, r, c), phase, p)
  {
    hide CutHeader, RoundUp, SeenFrom, See, BigReads, BigCuts, Legible, SeenMembers;
    AgainTwice(a, pos, r, c);
  }

  // A call begins inside a big body.
  lemma CallBegins(a: Buffer, c: Config, pos: nat, r: Read, phase: Phase, p: Progress)
    requires Reading(a, c, pos, r, phase, p) && phase.InBig? && r == Again(a, pos, r, c)
    requires p.used >= CONTAINER_MAX_SIZE - FastCdc.MAX_CHUNK_SIZE
    ensures Reading(a, c, pos, r, phase, p.(used := 0))
  {
    hide CutHeader, RoundUp, SeenFrom, See, BigCuts, Legible, SeenMembers, BigCall;
    CallUsedUp(a, pos, p.place.pos + BLOCK + RoundUp(phase.size), p.used, c);
  }

  lemma CallUsedUp(a: Buffer, pos: nat, end: nat, used: nat, c: Config)
    requires pos <= end <= |a| && used >= CONTAINER_MAX_SIZE - FastCdc.MAX_CHUNK_SIZE
    ensures BigCall(a, pos, end, used, c) == pos
  {
  }

  lemma NothingRead(a: Buffer, c: Config)
    requires Legible(a, Start(a, c), c)
    ensures var p, r := Progress([], Start(a, c), [], 0), ReadFrom(a, 0, c);
            Reading(a, c, 0, r, AtHeader, p)
              && Output([], [], c, AtHeader, CurrentHeader(a, AtHeader, p), p, 0 == r.end)
  {
    hide CutHeader, SeenFrom, Legible;
    assert [] + SeenFrom(a, Start(a, c), c) == SeenFrom(a, Start(a, c), c);
  }

  // The end of the archive, with no group left to push: all pieces were pushed.
  lemma AllRead(a: Buffer, c: Config, r: Read, phase: Phase, queue: seq<Piece>, p: Progress)
    requires Reading(a, c, |a|, r, phase, p) && !phase.InFile?
    requires Output(queue, [], c, phase, CurrentHeader(a, phase, p), p, true)
    ensures phase.AtHeader? && queue == Split(SeenMembers(a, c), c)
  {
    hide CutHeader, See, BigCuts, RoundUp, Again, BigReads, Gather, Start;
    NothingSeen(a, p.place, c);
    assert p.done + [] == p.done && queue + [] == queue;
  }

  class Chunker {
    const bigChunkSize: nat
    const multiHeaderChunk: nat
    const normalSize: nat
    var nextChunkType: Kind
    var localType: Kind
    var nextChunkSize: nat
    var bigSize: nat               // Big_Chunk_Size
    var bigOffset: nat             // Big_Chunk_Offset
    const headerBuffer: array<byte>
    var headerCp: nat
    var queue: seq<Piece>          // what was pushed

    constructor (c: Config)
      requires c.normal <= FastCdc.MAX_CHUNK_SIZE && c.multi >= 1
      ensures Idle() && queue == [] && fresh(headerBuffer) && Settings() == c
    {
      bigChunkSize, multiHeaderChunk, normalSize := c.big, c.multi, c.normal;
      nextChunkType, localType := FileHeader, FileHeader;
      nextChunkSize, bigSize, bigOffset, headerCp := 0, 0, 0, 0;
      headerBuffer := new byte[BLOCK * (c.multi + 1)](_ => 0);
      queue := [];
    }

    ghost function Settings(): Config {
      Config(bigChunkSize, multiHeaderChunk, normalSize)
    }

    // Between two archives.
    ghost predicate Idle()
      reads this
    {
      Shaped() && nextChunkType.FileHeader? && headerCp == 0
    }

    ghost predicate Shaped()
      reads this
    {
      && headerBuffer.Length == BLOCK * (multiHeaderChunk + 1) && normalSize <= FastCdc.MAX_CHUNK_SIZE
      && multiHeaderChunk >= 1
      && headerCp <= BLOCK * multiHeaderChunk && headerCp % BLOCK == 0
      && (nextChunkType.BigChunk? ==> bigSize == RoundUp(nextChunkSize))
    }

    ghost function PhaseOf(): Phase
      reads this
    {
      match nextChunkType
      case FileHeader => AtHeader
      case FileChunk => InFile(nextChunkSize)
      case BigChunk => InBig(nextChunkSize, bigOffset)
    }

    // The chunker has split the archive up to pos, and this phase is the one it is in.
    ghost predicate In(phase: Phase, a: Buffer, pos: nat, r: Read, p: Progress)
      reads this, headerBuffer
    {
      && Shaped()
      && Reading(a, Settings(), pos, r, phase, p)
      && Output(queue, headerBuffer[..headerCp], Settings(), phase, CurrentHeader(a, phase, p), p, pos == r.end)
    }

    ghost predicate At(a: Buffer, pos: nat, r: Read, p: Progress)
      reads this, headerBuffer
    {
      In(PhaseOf(), a, pos, r, p)
    }

    // CutPointTarFast: how far the next header or chunk goes. src is all that is in the buffer; of a big body no more
    // than the maximum of a chunk is looked at.
    method CutPointTarFast(src: Buffer) returns (cp: nat)
      requires nextChunkType.FileHeader? ==> |src| >= BLOCK
      requires nextChunkType.BigChunk? ==>
                 bigOffset <= bigSize && (bigSize - bigOffset <= |src| || FastCdc.MAX_CHUNK_SIZE <= |src|)
      requires normalSize <= FastCdc.MAX_CHUNK_SIZE
      modifies `nextChunkType, `nextChunkSize, `bigSize, `bigOffset
      ensures match old(nextChunkType)
              case FileHeader =>
                && cp == BLOCK && (nextChunkType, nextChunkSize) == CutHeader(src[..BLOCK], bigChunkSize)
                && (nextChunkType.BigChunk? ==> bigSize == RoundUp(nextChunkSize) && bigOffset == 0)
              case FileChunk => cp == Min(RoundUp(old(nextChunkSize)), |src|) && nextChunkType.FileHeader?
              case BigChunk =>
                var rest := old(bigSize) - old(bigOffset);
                if rest > FastCdc.MAX_CHUNK_SIZE then
                  && FastCdc.IsCut(src[..Min(rest, |src|)], cp, normalSize)
                  && nextChunkType.BigChunk? && nextChunkSize == old(nextChunkSize)
                  && bigSize == old(bigSize) && bigOffset == old(bigOffset) + cp
                else cp == rest && nextChunkType.FileHeader?
    {
      hide FastCdc.IsCut;
      match nextChunkType
      case FileHeader =>
        ParseSize(src[..BLOCK]);
        if src[TYPE_AT] == REGTYPE {
          if nextChunkSize <= bigChunkSize {
            nextChunkType := FileChunk;
          } else {
            nextChunkType := BigChunk;
            bigSize, bigOffset := RoundUp(nextChunkSize), 0;
          }
        }
        if src[TYPE_AT] == AREGTYPE {
          nextChunkSize := 0;
          nextChunkType := FileChunk;
        }
        if src[TYPE_AT] == XHDTYPE || src[TYPE_AT] == LONGNAME {
          nextChunkType := FileChunk;
        }
        cp := BLOCK;
      case FileChunk =>
        var roundedUp := RoundUp(nextChunkSize);
        nextChunkType, nextChunkSize := FileHeader, 512;
        cp := if roundedUp < |src| then roundedUp else |src|;
      case BigChunk =>
        if bigSize - bigOffset > FastCdc.MAX_CHUNK_SIZE {
          cp := FastCdc.CutPointFastCDC(src[..Min(bigSize - bigOffset, |src|)], normalSize);
          bigOffset := bigOffset + cp;
        } else {
          nextChunkType := FileHeader;
          cp := bigSize - bigOffset;
        }
    }

    method ParseSize(h: Buffer)
      requires |h| == BLOCK
      modifies `nextChunkSize
      ensures nextChunkSize == OctalSize(h, SIZE_DIGITS)
    {
      nextChunkSize := 0;
      var i := 0;
      while i < SIZE_DIGITS
        invariant 0 <= i <= SIZE_DIGITS && nextChunkSize == OctalSize(h, i)
      {
        nextChunkSize := (nextChunkSize * 8 + h[SIZE_AT + i] - 48) % U64;
        i := i + 1;
      }
    }

    // src is what the buffer holds from pos on; cut points are cast to 32 bits.
    ghost predicate Window(a: Buffer, pos: nat, r: Read, src: Buffer) {
      pos <= r.end <= |a| && src == a[pos..r.end] && |src| < 0x1_0000_0000
    }

    // A header block goes into the group. If the buffer ends with it, no body is to come.
    method StepHeader(ghost a: Buffer, ghost pos: nat, ghost r: Read, src: Buffer, ghost p: Progress)
      returns (cp: nat, ghost p': Progress)
      requires At(a, pos, r, p) && Window(a, pos, r, src) && pos < |a| && p.place.read == r
      requires nextChunkType.FileHeader? && headerCp < BLOCK * multiHeaderChunk && (headerCp > 0 ==> pos < r.end)
      modifies this, headerBuffer
      ensures cp == BLOCK && pos + cp <= r.end && localType.FileHeader? && headerCp == old(headerCp) + BLOCK
      ensures In(if pos + cp == r.end then AtHeader else PhaseOf(), a, pos + cp, r, p')
      ensures nextChunkType.BigChunk? && pos + cp < r.end ==> p'.used == CONTAINER_MAX_SIZE
    {
      hide Output, CutHeader, RoundUp, Reading, CurrentHeader;
      ReadingMeans(a, Settings(), pos, r, AtHeader, p);
      ghost var h := a[pos..pos + BLOCK];
      assert src[..BLOCK] == h;
      ghost var buffered := headerBuffer[..headerCp];
      NotYet(queue, buffered, Settings(), p, pos == r.end);
      localType := nextChunkType;
      cp := CutPointTarFast(src);
      cp := cp % 0x1_0000_0000;
      assert cp == BLOCK;
      Memcpy(headerBuffer, headerCp, src[..cp]);
      headerCp := headerCp + cp;
      assert headerBuffer[..headerCp] == buffered + h;
      p' := HeaderStep(a, Settings(), pos, r, p, queue, buffered, nextChunkType, nextChunkSize);
    }

    // The chunk of a member goes into the queue.
    method StepFile(ghost a: Buffer, ghost pos: nat, ghost r: Read, src: Buffer, ghost p: Progress)
      returns (cp: nat, ghost p': Progress)
      requires At(a, pos, r, p) && Window(a, pos, r, src) && nextChunkType.FileChunk?
      modifies this
      ensures pos + cp <= r.end && At(a, pos + cp, r, p')
      ensures nextChunkType.FileHeader? && localType.FileChunk? && headerCp == old(headerCp)
    {
      hide Output, CutHeader, RoundUp, Reading, CurrentHeader;
      ghost var was, size := queue, nextChunkSize;
      ReadingMeans(a, Settings(), pos, r, InFile(size), p);
      EndedMatters(queue, headerBuffer[..headerCp], Settings(), InFile(size), CurrentHeader(a, InFile(size), p), p,
                   pos == r.end);
      localType := nextChunkType;
      cp := CutPointTarFast(src);
      cp := cp % 0x1_0000_0000;
      if cp != 0 {
        queue := queue + [Piece(src[..cp], false, false)];
        StartOfWindow(a, pos, r.end, cp);
      } else {
        assert queue == was + [];
      }
      p' := FileStep(a, Settings(), pos, r, p, size, was, queue, headerBuffer[..headerCp]);
      ReadingMeans(a, Settings(), pos + cp, r, AtHeader, p');
    }

    // A piece of a big body goes into the queue.
    method StepBig(ghost a: Buffer, ghost pos: nat, ghost r: Read, src: Buffer, ghost p: Progress)
      returns (cp: nat, ghost p': Progress)
      requires At(a, pos, r, p) && Window(a, pos, r, src) && nextChunkType.BigChunk? && headerCp == 0
      requires p.used < CONTAINER_MAX_SIZE - FastCdc.MAX_CHUNK_SIZE
      requires r.end == |a| || |src| >= FastCdc.MAX_CHUNK_SIZE
      modifies this
      ensures 0 < cp <= |src| && cp <= FastCdc.MAX_CHUNK_SIZE && At(a, pos + cp, r, p')
      ensures !nextChunkType.FileChunk? && localType.BigChunk? && headerCp == 0
      ensures nextChunkType.BigChunk? ==> p'.used == p.used + cp
    {
      hide Output, CutHeader, RoundUp, Reading, CurrentHeader, FastCdc.IsCut, FastCdc.CutLength;
      ghost var was, size, offset, rest: int := queue, nextChunkSize, bigOffset, bigSize - bigOffset;
      ReadingMeans(a, Settings(), pos, r, InBig(size, offset), p);
      assert headerBuffer[..headerCp] == [];
      EndedMatters(queue, [], Settings(), InBig(size, offset), CurrentHeader(a, InBig(size, offset), p), p,
                   pos == r.end);
      localType := nextChunkType;
      cp := CutPointTarFast(src);
      BigCutIs(a, pos, src, rest, cp, normalSize);
      cp := cp % 0x1_0000_0000;
      queue := queue + [Piece(src[..cp], false, true)];
      StartOfWindow(a, pos, r.end, cp);
      p' := BigStep(a, Settings(), pos, r, p, size, offset, cp, was);
      NothingBuffered(queue, Settings(), PhaseOf(), CurrentHeader(a, PhaseOf(), p'), p', pos + cp == r.end);
    }

    // CutPointTarHeader before a header: headers are gathered, and the chunks between them pushed, until the group is
    // full and its last header has no chunk to come, or a big body begins, or the buffer ends.
    method CutGroup(ghost a: Buffer, ghost pos: nat, ghost r: Read, src: Buffer, ghost p: Progress)
      returns (cpSum: nat, ghost p': Progress)
      requires At(a, pos, r, p) && Window(a, pos, r, src) && src != [] && r == Again(a, pos, r, Settings())
      requires nextChunkType.FileHeader? && headerCp == 0
      modifies this, headerBuffer
      ensures 0 < cpSum <= |src| && At(a, pos + cpSum, r, p') && Between(p')
    {
      hide Output, CutHeader, RoundUp, Reading, CurrentHeader, Again;
      cpSum, p' := 0, p;
      assert headerBuffer[..headerCp] == [];
      ReadingMeans(a, Settings(), pos, r, AtHeader, p);
      while (headerCp < BLOCK * multiHeaderChunk || (localType.FileHeader? && nextChunkType.FileChunk?))
            && !nextChunkType.BigChunk?
        invariant cpSum < |src| && (At(a, pos + cpSum, r, p') <==> true)
        invariant nextChunkType.FileChunk? ==> localType.FileHeader?
        invariant if cpSum == 0 then headerCp == 0 && nextChunkType.FileHeader? && p' == p else headerCp > 0
        invariant headerCp == 0 ==> p'.place.read == r
        invariant nextChunkType.BigChunk? ==> p'.used == CONTAINER_MAX_SIZE
        decreases |src| - cpSum, if nextChunkType.FileChunk? then 1 else 0
      {
        var rest := src[cpSum..];
        assert rest == a[pos + cpSum..r.end];
        ghost var start := pos + cpSum;
        var cp;
        if nextChunkType.FileHeader? {
          InBuffer(a, Settings(), start, r, queue, headerBuffer[..headerCp], p');
          cp, p' := StepHeader(a, start, r, rest, p');
        } else {
          cp, p' := StepFile(a, start, r, rest, p');
          if cp == 0 {
            continue;
          }
        }
        cpSum := cpSum + cp;
        if cpSum == |src| {
          nextChunkType := FileHeader;
          break;
        }
      }
      PushGroup(a, pos + cpSum, r, p');
    }

    // Between two calls.
    ghost predicate Between(p: Progress)
      reads this
    {
      && headerCp == 0 && !nextChunkType.FileChunk? && (nextChunkType.FileHeader? ==> p.place.open == 0)
      && (nextChunkType.BigChunk? ==> p.used >= CONTAINER_MAX_SIZE - FastCdc.MAX_CHUNK_SIZE)
    }

    method PushGroup(ghost a: Buffer, ghost pos: nat, ghost r: Read, ghost p: Progress)
      requires At(a, pos, r, p) && headerCp > 0 && !nextChunkType.FileChunk?
      requires headerCp >= BLOCK * multiHeaderChunk || nextChunkType.BigChunk? || pos == r.end
      requires nextChunkType.BigChunk? ==> p.used == CONTAINER_MAX_SIZE
      modifies `queue, `headerCp
      ensures At(a, pos, r, p) && Between(p)
    {
      hide Output, Reading, CurrentHeader;
      BigBegun(a, Settings(), pos, r, PhaseOf(), p, queue, headerBuffer[..headerCp]);
      GroupStep(a, Settings(), PhaseOf(), p, queue, headerBuffer[..headerCp], pos == r.end);
      queue := queue + [Group(headerBuffer[..headerCp])];
      headerCp := 0;
      assert headerBuffer[..headerCp] == [];
      NothingOpen(queue, Settings(), PhaseOf(), CurrentHeader(a, PhaseOf(), p), p, pos == r.end);
    }

    // CutPointTarHeader inside a big body: pieces are pushed until the body or the room for one call is used up.
    method CutBig(ghost a: Buffer, ghost pos: nat, ghost r: Read, src: Buffer, ghost p: Progress)
      returns (cpSum: nat, ghost p': Progress)
      requires At(a, pos, r, p) && Window(a, pos, r, src) && src != [] && r == Again(a, pos, r, Settings())
      requires r.end == |a| || |src| >= CONTAINER_MAX_SIZE
      requires nextChunkType.BigChunk? && Between(p)
      modifies this
      ensures 0 < cpSum <= |src| && At(a, pos + cpSum, r, p') && Between(p')
    {
      hide Output, CutHeader, RoundUp, Reading, CurrentHeader, Again;
      cpSum, p' := 0, p.(used := 0);
      CallBegins(a, Settings(), pos, r, PhaseOf(), p);
      UsedApart(queue, headerBuffer[..headerCp], Settings(), PhaseOf(), a, p, pos == r.end);
      while !nextChunkType.FileHeader? && cpSum < CONTAINER_MAX_SIZE - FastCdc.MAX_CHUNK_SIZE
        invariant cpSum <= |src| && (At(a, pos + cpSum, r, p') <==> true) && !nextChunkType.FileChunk? && headerCp == 0
        invariant nextChunkType.BigChunk? ==> p'.used == cpSum
        invariant cpSum == 0 ==> nextChunkType.BigChunk?
        decreases |src| - cpSum
      {
        var cp;
        assert src[cpSum..] == a[pos + cpSum..r.end];
        cp, p' := StepBig(a, pos + cpSum, r, src[cpSum..], p');
        cpSum := cpSum + cp;
        if cpSum == |src| {
          break;
        }
      }
      ReadingMeans(a, Settings(), pos + cpSum, r, PhaseOf(), p');
      assert headerBuffer[..headerCp] == [];
      NothingOpen(queue, Settings(), PhaseOf(), CurrentHeader(a, PhaseOf(), p'), p', pos + cpSum == r.end);
    }

    // CutPointTarHeader.
    method CutPointTarHeader(ghost a: Buffer, ghost pos: nat, ghost r: Read, src: Buffer, ghost p: Progress)
      returns (cpSum: nat, ghost p': Progress)
      requires At(a, pos, r, p) && Window(a, pos, r, src) && src != [] && r == Again(a, pos, r, Settings())
      requires r.end == |a| || |src| >= Reserve(Settings())
      requires Between(p)
      modifies this, headerBuffer
      ensures 0 < cpSum <= |src| && At(a, pos + cpSum, r, p') && Between(p')
    {
      hide Output, CutHeader, RoundUp, Reading, CurrentHeader, Again;
      if nextChunkType == FileHeader {
        cpSum, p' := CutGroup(a, pos, r, src, p);
      } else {
        assert CONTAINER_MAX_SIZE * multiHeaderChunk >= CONTAINER_MAX_SIZE;
        cpSum, p' := CutBig(a, pos, r, src, p);
      }
    }

    // The loop of Chunking: the archive is read into a buffer; the chunker works on it while enough of it is left,
    // or, at the end of the archive, while anything is; then the archive is read again from there. What is pushed is
    // the split of the members as the reads show them.
    method Chunking(a: Buffer)
      requires Idle() && queue == []
      requires Legible(a, Start(a, Settings()), Settings())
      requires FastCdc.READ_FILE_SIZE + multiHeaderChunk * CONTAINER_MAX_SIZE < 0x1_0000_0000
      modifies this, headerBuffer
      ensures queue == Split(SeenMembers(a, Settings()), Settings()) && Idle()
    {
      hide CutHeader, RoundUp, CurrentHeader, Reading, Output, Legible, SeenMembers, Split;
      var reserve := CONTAINER_MAX_SIZE * multiHeaderChunk;
      ghost var p, r := Progress([], Start(a, Settings()), [], 0), ReadFrom(a, 0, Settings());
      NothingRead(a, Settings());
      assert headerBuffer[..headerCp] == [];
      var end, totalOffset := false, 0;
      while !end
        invariant totalOffset <= |a| && (At(a, totalOffset, r, p) <==> true) && Between(p)
        invariant end ==> totalOffset == |a|
        invariant !end ==> r == ReadFrom(a, totalOffset, Settings())
        decreases |a| - totalOffset, !end
      {
        var size := Min(FastCdc.READ_FILE_SIZE + reserve, |a| - totalOffset);
        var buffer := a[totalOffset..totalOffset + size];
        end := size < FastCdc.READ_FILE_SIZE + reserve;
        if size == 0 {
          break;
        }
        var localOffset := 0;
        while size - localOffset >= reserve || (end && localOffset < size)
          invariant 0 <= localOffset <= size && (At(a, totalOffset + localOffset, r, p) <==> true) && Between(p)
          invariant localOffset > 0 || size >= reserve || end
          decreases size - localOffset
        {
          var cpOffset;
          assert buffer[localOffset..] == a[totalOffset + localOffset..totalOffset + size];
          cpOffset, p := CutPointTarHeader(a, totalOffset + localOffset, r, buffer[localOffset..], p);
          localOffset := localOffset + cpOffset;
        }
        totalOffset := totalOffset + localOffset;
        if !end {
          Refilled(a, Settings(), totalOffset, r, PhaseOf(), p);
          assert headerBuffer[..headerCp] == [];
          NothingBuffered(queue, Settings(), PhaseOf(), CurrentHeader(a, PhaseOf(), p), p, totalOffset == r.end);
          r := Again(a, totalOffset, r, Settings());
          NothingBuffered(queue, Settings(), PhaseOf(), CurrentHeader(a, PhaseOf(), p), p, totalOffset == r.end);
        }
      }
      assert headerBuffer[..headerCp] == [];
      NothingBuffered(queue, Settings(), PhaseOf(), CurrentHeader(a, PhaseOf(), p), p, true);
      AllRead(a, Settings(), r, PhaseOf(), queue, p);
    }

    // What the consumer takes.
    method Drain() returns (pushed: seq<Piece>)
      modifies `queue
      ensures pushed == old(queue) && queue == []
    {
      pushed, queue := queue, [];
    }
  }

  lemma StartOfWindow(a: Buffer, pos: nat, end: nat, cp: nat)
    requires pos + cp <= end <= |a|
    ensures a[pos..end][..cp] == a[pos..pos + cp]
  {
  }

  // Whether the buffer ends here matters only before a header.
  lemma EndedMatters(queue: seq<Piece>, buffered: Buffer, c: Config, phase: Phase, header: Buffer, p: Progress,
                     ended: bool)
    requires Output(queue, buffered, c, phase, header, p, ended) && !phase.AtHeader?
    ensures Output(queue, buffered, c, phase, header, p, false)
  {
  }

  // And only with something to push.
  lemma NothingBuffered(queue: seq<Piece>, c: Config, phase: Phase, header: Buffer, p: Progress, ended: bool)
    requires Output(queue, [], c, phase, header, p, true) || Output(queue, [], c, phase, header, p, false)
    ensures Output(queue, [], c, phase, header, p, ended)
  {
    hide Gather, DataPieces;
  }

  lemma NothingOpen(queue: seq<Piece>, c: Config, phase: Phase, header: Buffer, p: Progress, ended: bool)
    requires Output(queue, [], c, phase, header, p, ended)
    ensures phase.AtHeader? ==> p.place.open == 0
  {
    hide Gather, DataPieces;
  }

  lemma NotYet(queue: seq<Piece>, buffered: Buffer, c: Config, p: Progress, ended: bool)
    requires Output(queue, buffered, c, AtHeader, [], p, ended) && (buffered != [] ==> !ended)
    ensures Output(queue, buffered, c, AtHeader, [], p, false)
  {
  }

  // Within a group, what is in the buffer is what the next header is read from.
  lemma InBuffer(a: Buffer, c: Config, pos: nat, r: Read, queue: seq<Piece>, buffered: Buffer, p: Progress)
    requires Reading(a, c, pos, r, AtHeader, p) && pos < r.end && |buffered| < BLOCK * c.multi
    requires Output(queue, buffered, c, AtHeader, CurrentHeader(a, AtHeader, p), p, false)
    requires buffered == [] ==> p.place.read == r
    ensures p.place.read == r
  {
    hide Gather, Again, SeenFrom, Legible, SeenMembers;
  }

  // The header of a big body is in the group: the body has not begun.
  lemma BigBegun(a: Buffer, c: Config, pos: nat, r: Read, phase: Phase, p: Progress, queue: seq<Piece>,
                 buffered: Buffer)
    requires Reading(a, c, pos, r, phase, p) && buffered != []
    requires Output(queue, buffered, c, phase, CurrentHeader(a, phase, p), p, pos == r.end)
    ensures phase.InBig? ==> phase.offset == 0
  {
    hide Gather, Reading, DataPieces;
  }

  lemma UsedApart(queue: seq<Piece>, buffered: Buffer, c: Config, phase: Phase, a: Buffer, p: Progress, ended: bool)
    requires Output(queue, buffered, c, phase, CurrentHeader(a, phase, p), p, ended)
    ensures Output(queue, buffered, c, phase, CurrentHeader(a, phase, p.(used := 0)), p.(used := 0), ended)
  {
    hide Gather, DataPieces;
  }

  // The window shows enough of a big body for the cut to be that of the whole body.
  lemma BigCutIs(a: Buffer, pos: nat, src: Buffer, rest: nat, cp: nat, normal: nat)
    requires pos + |src| <= |a| && src == a[pos..pos + |src|] && 0 < rest <= |a| - pos
    requires rest <= |src| || |src| >= FastCdc.MAX_CHUNK_SIZE
    requires if rest > FastCdc.MAX_CHUNK_SIZE then FastCdc.IsCut(src[..Min(rest, |src|)], cp, normal) else cp == rest
    ensures rest > FastCdc.MAX_CHUNK_SIZE ==> cp == FastCdc.CutLength(a[pos..pos + rest], normal)
    ensures 0 < cp <= FastCdc.MAX_CHUNK_SIZE && cp <= |src|
  {
    hide FastCdc.IsCut, FastCdc.CutLength;
    if rest > FastCdc.MAX_CHUNK_SIZE {
      var body, window := a[pos..pos + rest], src[..Min(rest, |src|)];
      assert window == body[..|window|];
      FastCdc.CutWithinWindow(body, window, cp, normal);
      FastCdc.CutLengthIs(body, cp, normal);
    }
  }
}
