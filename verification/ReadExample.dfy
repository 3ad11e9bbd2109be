// An archive of several reads that does not come back: a read ends inside the body of a file, and what is left of the
// body is taken for header blocks.
module ReadExample {
  import opened Bytes
  import opened Packing
  import opened Tar
  import opened TarReads
  import opened TarSplit
  import opened TarRestore
  import opened Backups
  import opened BackupExamples
  import FastCdc

  const FULL: nat := BLOCK + CONTAINER_MAX_SIZE
  const BUFFER: nat := FastCdc.READ_FILE_SIZE + 16 * CONTAINER_MAX_SIZE
  const SHORT: nat := CONTAINER_MAX_SIZE - 16 * BLOCK

  // A big file of NUL bytes, octal 1377777000: after it, just the reserve is left in the buffer.
  function BigFile(): Member {
    Member(HeaderBlock([ZERO, 49, 51, 55, 55, 55, 55, 55, ZERO, ZERO, ZERO], REGTYPE),
           Zeros(FastCdc.READ_FILE_SIZE - BLOCK))
  }

  // A file of the size of a container, octal 20000000, with this in it.
  function FullFile(body: Buffer): Member {
    Member(HeaderBlock([ZERO, ZERO, ZERO, 50, ZERO, ZERO, ZERO, ZERO, ZERO, ZERO, ZERO], REGTYPE), body)
  }

  function FullFiles(n: nat): seq<Member> {
    seq(n, _ => FullFile(Zeros(CONTAINER_MAX_SIZE)))
  }

  // What the last of them ends with: a block with type flag NUL and a size, and fifteen blocks of NUL bytes.
  function Tail(): Buffer {
    NulFlagged().header + Zeros(15 * BLOCK)
  }

  function LastFull(): Member {
    FullFile(Zeros(SHORT) + Tail())
  }

  // The archive: the big file, sixteen of the size of a container, and a small one.
  function Archive(): seq<Member> {
    [BigFile()] + (FullFiles(15) + ([LastFull()] + [FileMember()]))
  }

  function EndBlocks(n: nat): seq<Member> {
    seq(n, _ => EndBlock())
  }

  // The blocks that the last of the large files ends with, and the small file, read as members.
  function TailMembers(): seq<Member> {
    [NulFlagged()] + (EndBlocks(15) + [FileMember()])
  }

  // What is seen of the archive: the last of the large files short, and after it the blocks it ends with.
  function SeenArchive(): seq<Member> {
    [BigFile()] + (FullFiles(15) + ([FullFile(Zeros(SHORT))] + TailMembers()))
  }

  // ---------------------------------------------------------------------------------------------
  // The headers
  // ---------------------------------------------------------------------------------------------

  lemma BigHeaderBytes()
    ensures var h := BigFile().header;
            && |h| == BLOCK && h[TYPE_AT] == REGTYPE
            && h[SIZE_AT] == ZERO && h[SIZE_AT + 1] == 49 && h[SIZE_AT + 2] == 51
            && (forall k :: SIZE_AT + 3 <= k < SIZE_AT + 8 ==> h[k] == 55)
            && (forall k :: SIZE_AT + 8 <= k < SIZE_AT + SIZE_DIGITS ==> h[k] == ZERO)
    ensures BigFile().body == Zeros(FastCdc.READ_FILE_SIZE - BLOCK)
  {
    hide Zeros;
    var h := BigFile().header;
    var size := h[SIZE_AT..SIZE_AT + SIZE_DIGITS];
    assert forall k :: SIZE_AT <= k < SIZE_AT + SIZE_DIGITS ==> h[k] == size[k - SIZE_AT];
  }

  lemma BigHeaderIs()
    ensures OctalSize(BigFile().header, SIZE_DIGITS) == FastCdc.READ_FILE_SIZE - BLOCK
    ensures RoundUp(FastCdc.READ_FILE_SIZE - BLOCK) == FastCdc.READ_FILE_SIZE - BLOCK
  {
    hide OctalSize, BigFile;
    BigHeaderBytes();
    var h := BigFile().header;
    LeadingZeros(h, 1);
    NextDigit(h, 1, 1);
    NextDigit(h, 2, 3);
    NextDigit(h, 3, 7);
    NextDigit(h, 4, 7);
    NextDigit(h, 5, 7);
    NextDigit(h, 6, 7);
    NextDigit(h, 7, 7);
    NextDigit(h, 8, 0);
    NextDigit(h, 9, 0);
    NextDigit(h, 10, 0);
  }

  lemma FullHeaderBytes(body: Buffer)
    ensures var h := FullFile(body).header;
            && |h| == BLOCK && h[TYPE_AT] == REGTYPE && h[SIZE_AT + 3] == 50 && FullFile(body).body == body
            && forall k :: SIZE_AT <= k < SIZE_AT + SIZE_DIGITS && k != SIZE_AT + 3 ==> h[k] == ZERO
  {
    var h := FullFile(body).header;
    var size := h[SIZE_AT..SIZE_AT + SIZE_DIGITS];
    assert forall k :: SIZE_AT <= k < SIZE_AT + SIZE_DIGITS ==> h[k] == size[k - SIZE_AT];
  }

  lemma FullHeaderIs(body: Buffer)
    ensures OctalSize(FullFile(body).header, SIZE_DIGITS) == CONTAINER_MAX_SIZE
    ensures RoundUp(CONTAINER_MAX_SIZE) == CONTAINER_MAX_SIZE
  {
    hide OctalSize, FullFile;
    FullHeaderBytes(body);
    var h := FullFile(body).header;
    LeadingZeros(h, 3);
    NextDigit(h, 3, 2);
    NextDigit(h, 4, 0);
    NextDigit(h, 5, 0);
    NextDigit(h, 6, 0);
    NextDigit(h, 7, 0);
    NextDigit(h, 8, 0);
    NextDigit(h, 9, 0);
    NextDigit(h, 10, 0);
  }

  lemma FullSameHeader(body: Buffer, other: Buffer)
    ensures FullFile(body).header == FullFile(other).header
  {
  }

  // What is known of each member.
  ghost predicate Known(m: Member) {
    && MemberShape(m, CONTAINER_MAX_SIZE) && ReadAlike(m, false, CONTAINER_MAX_SIZE)
  }

  lemma BigIs()
    ensures var m := BigFile();
            && Known(m) && |m.body| == FastCdc.READ_FILE_SIZE - BLOCK && MemberOk(m, CONTAINER_MAX_SIZE, false)
            && IsBig(m.header, CONTAINER_MAX_SIZE)
  {
    hide OctalSize, BigFile;
    BigHeaderBytes();
    BigHeaderIs();
  }

  lemma FullIs(body: Buffer)
    requires 0 < |body| <= CONTAINER_MAX_SIZE
    ensures var m := FullFile(body);
            && Known(m) && m.body == body && |m.header| == BLOCK && !IsBig(m.header, CONTAINER_MAX_SIZE)
            && CutHeader(m.header, CONTAINER_MAX_SIZE) == (FileChunk, CONTAINER_MAX_SIZE)
            && (|body| == CONTAINER_MAX_SIZE ==> MemberOk(m, CONTAINER_MAX_SIZE, false))
    ensures RoundUp(CONTAINER_MAX_SIZE) == CONTAINER_MAX_SIZE
  {
    hide OctalSize, FullFile;
    FullHeaderBytes(body);
    FullHeaderIs(body);
  }

  lemma SmallIs()
    ensures var m := FileMember();
            && Known(m) && m.body == Zeros(1024) && MemberOk(m, CONTAINER_MAX_SIZE, true)
            && MemberOk(m, CONTAINER_MAX_SIZE, false) && |m.header| == BLOCK && m.header[TYPE_AT] == REGTYPE
  {
    hide OctalSize, FileMember;
    FileMemberIs();
    FileHeaderIs(CONTAINER_MAX_SIZE);
    FileSize();
  }

  lemma LastFullSize()
    ensures |Zeros(SHORT) + Tail()| == CONTAINER_MAX_SIZE && |Tail()| == 16 * BLOCK
  {
    hide Zeros, NulFlagged;
    NulFlaggedIs();
  }

  // ---------------------------------------------------------------------------------------------
  // The archive as it is
  // ---------------------------------------------------------------------------------------------

  // Nothing is wrong with the archive.
  lemma ArchiveIs()
    ensures var a, members := Joined(Archive()), Archive();
            && WellFormed(a, 0, CONTAINER_MAX_SIZE) && Members(a, 0, CONTAINER_MAX_SIZE) == members
            && BodiesFit(members, CONTAINER_MAX_SIZE, CONTAINER_MAX_SIZE) && AllReadAlike(members, CONTAINER_MAX_SIZE)
  {
    hide BigFile, FullFile, FileMember, Tail, Zeros, Joined, WellFormed, Members, MemberOk, MemberShape, ReadAlike;
    hide IsBig;
    var a, members := Joined(Archive()), Archive();
    var full, last := Zeros(CONTAINER_MAX_SIZE), Zeros(SHORT) + Tail();
    BigIs();
    FullIs(full);
    LastFullSize();
    FullIs(last);
    SmallIs();
    forall i | 0 <= i < |members|
      ensures MemberOk(members[i], CONTAINER_MAX_SIZE, i == |members| - 1)
      ensures ReadAlike(members[i], NoBodies(members[i + 1..]), CONTAINER_MAX_SIZE)
      ensures !IsBig(members[i].header, CONTAINER_MAX_SIZE) ==> |members[i].body| <= CONTAINER_MAX_SIZE
    {
      assert members[i] in {BigFile(), FullFile(full), FullFile(last), FileMember()};
      assert i == |members| - 1 ==> members[i] == FileMember();
      MoreAlike(members[i], NoBodies(members[i + 1..]));
    }
    assert a[0..] == a;
    JoinedMembers(a, 0, members, CONTAINER_MAX_SIZE);
  }

  // Read alike whatever comes after, read alike.
  lemma MoreAlike(m: Member, nothingAfter: bool)
    requires Known(m)
    ensures ReadAlike(m, nothingAfter, CONTAINER_MAX_SIZE)
  {
    hide OctalSize, MemberShape, Missing, NulSize;
  }

  // ---------------------------------------------------------------------------------------------
  // The archive as it is seen
  // ---------------------------------------------------------------------------------------------

  lemma JoinedCons(m: Member, rest: seq<Member>)
    ensures Joined([m] + rest) == m.header + m.body + Joined(rest)
  {
    assert ([m] + rest)[1..] == rest;
  }

  // A member that is in the buffer in full, and not the last there.
  lemma SeeWhole(a: Buffer, p: Place, m: Member, rest: seq<Member>)
    requires p.pos <= |a| && a[p.pos..] == Joined([m] + rest) && p.pos + BLOCK + |m.body| < p.read.end <= |a|
    requires MemberOk(m, CONTAINER_MAX_SIZE, false) && !IsBig(m.header, CONTAINER_MAX_SIZE)
    requires p.open + BLOCK < BLOCK * 16
    ensures var next := p.pos + BLOCK + |m.body|;
            && See(a, p, DEFAULTS) == Sight(Seen(m, false), Place(next, p.open + BLOCK, p.read))
            && HeaderFits(a, p, DEFAULTS) && a[next..] == Joined(rest)
  {
    hide CutHeader, RoundUp, BigReads, Again;
    JoinedCons(m, rest);
    var at, next := p.pos + BLOCK, p.pos + BLOCK + |m.body|;
    HeaderAndBody(a, p.pos, m, Joined(rest));
    match CutHeader(m.header, CONTAINER_MAX_SIZE).0
    case FileHeader =>
    case FileChunk =>
    case BigChunk => assert false;
  }

  lemma HeaderAndBody(a: Buffer, pos: nat, m: Member, rest: Buffer)
    requires pos <= |a| && a[pos..] == m.header + m.body + rest && |m.header| == BLOCK
    ensures var at, next := pos + BLOCK, pos + BLOCK + |m.body|;
            next <= |a| && a[pos..at] == m.header && a[at..next] == m.body && a[next..] == rest
  {
  }

  // A big body that leaves the reserve in the buffer.
  lemma SeeBig(a: Buffer, p: Place, m: Member, rest: seq<Member>)
    requires p.pos <= |a| && a[p.pos..] == Joined([m] + rest) && p.pos + BLOCK + |m.body| <= |a|
    requires MemberOk(m, CONTAINER_MAX_SIZE, false) && IsBig(m.header, CONTAINER_MAX_SIZE)
    requires p.read.end <= |a| && p.read.end - (p.pos + BLOCK + |m.body|) >= Reserve(DEFAULTS)
    ensures var next := p.pos + BLOCK + |m.body|;
            && See(a, p, DEFAULTS) == Sight(Seen(m, false), Place(next, 0, p.read))
            && HeaderFits(a, p, DEFAULTS) && a[next..] == Joined(rest)
  {
    hide CutHeader, RoundUp, BigReads;
    JoinedCons(m, rest);
    HeaderAndBody(a, p.pos, m, Joined(rest));
    NoneReadAgain(a, p.pos + BLOCK, p.pos + BLOCK + |m.body|, p.read);
  }

  lemma {:induction false} NoneReadAgain(a: Buffer, pos: nat, end: nat, r: Read)
    requires pos <= end <= |a| && r.end - end >= Reserve(DEFAULTS)
    ensures BigReads(a, pos, end, r, DEFAULTS) == r == Again(a, pos, r, DEFAULTS)
    decreases end - pos
  {
    hide BigCall;
    if pos < end {
      NoneReadAgain(a, BigCall(a, pos, end, 0, DEFAULTS), end, r);
    }
  }

  lemma {:induction false} SeeFulls(a: Buffer, p: Place, n: nat, rest: seq<Member>)
    requires p.pos <= |a| && a[p.pos..] == Joined(FullFiles(n) + rest)
    requires p.pos + n * FULL < p.read.end <= |a| && p.open + n * BLOCK < BLOCK * 16
    ensures var q := Place(p.pos + n * FULL, p.open + n * BLOCK, p.read);
            && Bare(SeenFrom(a, p, DEFAULTS)) == FullFiles(n) + Bare(SeenFrom(a, q, DEFAULTS))
            && (Legible(a, q, DEFAULTS) ==> Legible(a, p, DEFAULTS)) && a[q.pos..] == Joined(rest)
    decreases n
  {
    hide FullFile, Zeros, Joined, See, MemberOk, MemberShape, HeaderFits, Legible, SeenFrom, IsBig;
    if n == 0 {
      assert FullFiles(0) + rest == rest
             && FullFiles(0) + Bare(SeenFrom(a, p, DEFAULTS)) == Bare(SeenFrom(a, p, DEFAULTS));
    } else {
      var m := FullFile(Zeros(CONTAINER_MAX_SIZE));
      FullIs(Zeros(CONTAINER_MAX_SIZE));
      assert FullFiles(n) == [m] + FullFiles(n - 1);
      assert FullFiles(n) + rest == [m] + (FullFiles(n - 1) + rest);
      SeeWhole(a, p, m, FullFiles(n - 1) + rest);
      SeenCons(a, p, DEFAULTS);
      var next := See(a, p, DEFAULTS).next;
      SeeFulls(a, next, n - 1, rest);
      var q := Place(p.pos + n * FULL, p.open + n * BLOCK, p.read);
      assert q == Place(next.pos + (n - 1) * FULL, next.open + (n - 1) * BLOCK, next.read);
      assert [m] + (FullFiles(n - 1) + Bare(SeenFrom(a, q, DEFAULTS))) == FullFiles(n) + Bare(SeenFrom(a, q, DEFAULTS));
    }
  }

  // The buffer ends inside the last body.
  lemma SeeShort(a: Buffer, p: Place)
    requires p.pos <= |a| && a[p.pos..] == Joined([LastFull()] + [FileMember()])
    requires p.read.end == p.pos + BLOCK + SHORT && !p.read.last
    ensures var end := p.read.end;
            && HeaderFits(a, p, DEFAULTS) && end <= |a| && |a| - end == 16 * BLOCK + BLOCK + 1024
            && See(a, p, DEFAULTS) == Sight(Seen(FullFile(Zeros(SHORT)), true), Place(end, 0, Read(|a|, true)))
            && a[end..] == Tail() + Joined([FileMember()])
  {
    hide FullFile, FileMember, Zeros, Tail, Joined, CutHeader, RoundUp, MemberShape, ReadAlike, MemberOk;
    var last := Zeros(SHORT) + Tail();
    LastFullSize();
    FullIs(last);
    FullIs(Zeros(SHORT));
    FullSameHeader(last, Zeros(SHORT));
    SmallIs();
    JoinedCons(LastFull(), [FileMember()]);
    JoinedCons(FileMember(), []);
    assert [FileMember()] + [] == [FileMember()];
    NothingJoined();
    ShortBody(a, p.pos, LastFull().header, Zeros(SHORT), Tail(), Joined([FileMember()]));
  }

  lemma NothingJoined()
    ensures Joined([]) == []
  {
  }

  lemma ShortBody(a: Buffer, pos: nat, h: Buffer, body: Buffer, tail: Buffer, rest: Buffer)
    requires pos <= |a| && |h| == BLOCK && a[pos..] == h + (body + tail) + rest
    ensures var at, end := pos + BLOCK, pos + BLOCK + |body|;
            && end <= |a| && a[pos..at] == h && a[at..end] == body && a[end..] == tail + rest
            && |a| - end == |tail| + |rest|
  {
  }

  lemma {:induction false} FullsSize(n: nat, rest: seq<Member>)
    ensures |Joined(FullFiles(n) + rest)| == n * FULL + |Joined(rest)|
  {
    hide FullFile, Zeros, Joined, MemberShape, ReadAlike, MemberOk;
    if n == 0 {
      assert FullFiles(0) + rest == rest;
    } else {
      var m := FullFile(Zeros(CONTAINER_MAX_SIZE));
      FullIs(Zeros(CONTAINER_MAX_SIZE));
      FullsSize(n - 1, rest);
      assert FullFiles(n) + rest == [m] + (FullFiles(n - 1) + rest);
      JoinedCons(m, FullFiles(n - 1) + rest);
    }
  }

  lemma ArchiveSize()
    ensures |Joined(Archive())| == BUFFER + 16 * BLOCK + BLOCK + 1024
  {
    hide BigFile, FullFile, FileMember, Tail, Zeros, Joined, MemberShape, ReadAlike, MemberOk;
    BigIs();
    SmallIs();
    LastFullSize();
    FullIs(Zeros(SHORT) + Tail());
    JoinedCons(BigFile(), FullFiles(15) + ([LastFull()] + [FileMember()]));
    FullsSize(15, [LastFull()] + [FileMember()]);
    JoinedCons(LastFull(), [FileMember()]);
    JoinedCons(FileMember(), []);
    assert [FileMember()] + [] == [FileMember()];
    NothingJoined();
  }

  lemma {:induction false} JoinedEnds(n: nat, rest: seq<Member>)
    ensures Joined(EndBlocks(n) + rest) == Zeros(n * BLOCK) + Joined(rest)
  {
    hide Joined;
    if n == 0 {
      assert EndBlocks(0) + rest == rest && Zeros(0) == [];
    } else {
      JoinedEnds(n - 1, rest);
      assert EndBlocks(n) + rest == [EndBlock()] + (EndBlocks(n - 1) + rest);
      JoinedCons(EndBlock(), EndBlocks(n - 1) + rest);
      assert Zeros(n * BLOCK) == Zeros(BLOCK) + Zeros((n - 1) * BLOCK);
    }
  }

  lemma TailIsMembers()
    ensures Joined(TailMembers()) == Tail() + Joined([FileMember()])
    ensures forall i :: 0 <= i < |TailMembers()| ==>
              MemberOk(TailMembers()[i], CONTAINER_MAX_SIZE, i == |TailMembers()| - 1)
  {
    hide NulFlagged, EndBlock, FileMember, Zeros, Joined, CutHeader, NulSize, OctalSize, ReadAlike;
    JoinedCons(NulFlagged(), EndBlocks(15) + [FileMember()]);
    NulFlaggedIs();
    NulHeaderIs(CONTAINER_MAX_SIZE);
    EndBlockIs(CONTAINER_MAX_SIZE);
    SmallIs();
    JoinedEnds(15, [FileMember()]);
    assert NulFlagged().header + [] + (Zeros(15 * BLOCK) + Joined([FileMember()])) == Tail() + Joined([FileMember()]);
    forall i | 0 <= i < |TailMembers()|
      ensures MemberOk(TailMembers()[i], CONTAINER_MAX_SIZE, i == |TailMembers()| - 1)
    {
      assert TailMembers()[i] in {NulFlagged(), EndBlock(), FileMember()};
    }
  }

  // The members seen.
  lemma SeenIs()
    ensures var a := Joined(Archive());
            Legible(a, Start(a, DEFAULTS), DEFAULTS) && Bare(SeenMembers(a, DEFAULTS)) == SeenArchive()
  {
    hide BigFile, FullFile, FileMember, Tail, Zeros, Joined, MemberShape, ReadAlike, MemberOk, IsBig, TailMembers;
    hide SeenFrom, Legible, See, HeaderFits, WellFormed, Members, FullFiles;
    var a := Joined(Archive());
    var rest := [LastFull()] + [FileMember()];
    ArchiveSize();
    BigIs();
    var p0 := Start(a, DEFAULTS);
    var r := Read(BUFFER, false);
    assert p0 == Place(0, 0, r) && a[0..] == a;
    SeeBig(a, p0, BigFile(), FullFiles(15) + rest);
    SeenCons(a, p0, DEFAULTS);
    var p1 := Place(FastCdc.READ_FILE_SIZE, 0, r);
    SeeFulls(a, p1, 15, rest);
    var p2 := Place(FastCdc.READ_FILE_SIZE + 15 * FULL, 15 * BLOCK, r);
    SeeShort(a, p2);
    SeenCons(a, p2, DEFAULTS);
    var p3 := Place(BUFFER, 0, Read(|a|, true));
    TailIsMembers();
    JoinedMembers(a, BUFFER, TailMembers(), CONTAINER_MAX_SIZE);
    SeenToTheEnd(a, p3, DEFAULTS);
  }

  // ---------------------------------------------------------------------------------------------
  // What is restored of it
  // ---------------------------------------------------------------------------------------------

  // Members that are read alike whatever comes after take their own chunks, and leave the rest to the rest.
  lemma {:induction false} MergedBefore(members: seq<Member>, headers: Buffer, data: seq<Buffer>,
                                        cuts: seq<seq<Buffer>>)
    requires forall i :: 0 <= i < |members| ==> Known(members[i])
    requires Merged(headers, data) == Some(cuts)
    ensures Merged(HeaderBytes(members) + headers, Concat(AllCuts(members, DEFAULTS)) + data)
            == Some(AllCuts(members, DEFAULTS) + cuts)
    ensures Written(HeaderBytes(members) + headers, AllCuts(members, DEFAULTS) + cuts)
            == Joined(members) + Written(headers, cuts)
  {
    hide MemberShape, ReadAlike, BodyCuts, Merged, Written;
    var all := AllCuts(members, DEFAULTS);
    if members == [] {
      assert all == [] && [] + headers == headers && [] + data == data && [] + cuts == cuts;
      assert [] + Written(headers, cuts) == Written(headers, cuts);
    } else {
      var m, rest := members[0], members[1..];
      var first, more := BodyCuts(m, DEFAULTS), AllCuts(rest, DEFAULTS);
      MergedBefore(rest, headers, data, cuts);
      assert all == [first] + more && all[1..] == more;
      Reassociated(m.header, HeaderBytes(rest), headers);
      Reassociated(m.header + m.body, Joined(rest), Written(headers, cuts));
      assert first + (Concat(more) + data) == Concat(all) + data && [first] + (more + cuts) == all + cuts;
      MergedOne(m, HeaderBytes(rest) + headers, Concat(more) + data, more + cuts);
    }
  }

  lemma Reassociated(x: Buffer, y: Buffer, z: Buffer)
    ensures x + (y + z) == x + y + z
  {
  }

  // The first of them.
  lemma MergedOne(m: Member, headers: Buffer, data: seq<Buffer>, cuts: seq<seq<Buffer>>)
    requires Known(m) && Merged(headers, data) == Some(cuts)
    ensures var first := BodyCuts(m, DEFAULTS);
            && Merged(m.header + headers, first + data) == Some([first] + cuts)
            && Written(m.header + headers, [first] + cuts) == m.header + m.body + Written(headers, cuts)
  {
    hide MemberShape, ReadAlike, BodyCuts, Taken, Flat, Merged, Written;
    KnownMeans(m);
    MoreAlike(m, data == []);
    TakenIs(m, DEFAULTS, data);
    MergedFirst(m.header, headers, BodyCuts(m, DEFAULTS), data, cuts);
    CutsAre(m, DEFAULTS);
    WrittenFirst(m.header, headers, BodyCuts(m, DEFAULTS), cuts);
  }

  lemma KnownMeans(m: Member)
    requires Known(m)
    ensures MemberShape(m, CONTAINER_MAX_SIZE) && |m.header| == BLOCK
  {
    hide CutHeader, RoundUp;
  }

  lemma WrittenFirst(h: Buffer, headers: Buffer, first: seq<Buffer>, cuts: seq<seq<Buffer>>)
    requires |h| == BLOCK
    ensures Written(h + headers, [first] + cuts) == h + Flat(first) + Written(headers, cuts)
  {
    hide Flat;
    assert (h + headers)[..BLOCK] == h && (h + headers)[BLOCK..] == headers && ([first] + cuts)[1..] == cuts;
  }

  // Headers with no data left get none.
  lemma {:induction false} HeadersAlone(headers: Buffer, n: nat)
    requires |headers| == n * BLOCK
    ensures Merged(headers, []) == Some(Nothings(n)) && Written(headers, Nothings(n)) == headers
  {
    hide Taken;
    if n == 0 {
    } else {
      var h, rest, none: seq<Buffer> := headers[..BLOCK], headers[BLOCK..], [];
      HeadersAlone(rest, n - 1);
      assert headers == h + rest && none + none == none && Nothings(n) == [none] + Nothings(n - 1);
      NothingTaken(h);
      MergedFirst(h, rest, none, none, Nothings(n - 1));
      NothingFlat();
      WrittenFirst(h, rest, none, Nothings(n - 1));
    }
  }

  lemma NothingTaken(h: Buffer)
    requires |h| == BLOCK
    ensures Taken(h, []) == Some(0)
  {
    hide MergeHeader, Take;
  }

  lemma {:induction false} HeaderBytesAfter(members: seq<Member>, more: seq<Member>)
    ensures HeaderBytes(members + more) == HeaderBytes(members) + HeaderBytes(more)
  {
    if members == [] {
      assert members + more == more && [] + HeaderBytes(more) == HeaderBytes(more);
    } else {
      HeaderBytesAfter(members[1..], more);
      assert (members + more)[1..] == members[1..] + more;
      Reassociated(members[0].header, HeaderBytes(members[1..]), HeaderBytes(more));
    }
  }

  lemma CutsAfter(members: seq<Member>, more: seq<Member>, c: Config)
    ensures AllCuts(members + more, c) == AllCuts(members, c) + AllCuts(more, c)
    ensures Concat(AllCuts(members + more, c)) == Concat(AllCuts(members, c)) + Concat(AllCuts(more, c))
  {
    hide BodyCuts, Concat;
    assert AllCuts(members + more, c) == AllCuts(members, c) + AllCuts(more, c);
    ConcatAfter(AllCuts(members, c), AllCuts(more, c));
  }

  lemma {:induction false} ConcatAfter(cuts: seq<seq<Buffer>>, more: seq<seq<Buffer>>)
    ensures Concat(cuts + more) == Concat(cuts) + Concat(more)
  {
    if cuts == [] {
      assert cuts + more == more && [] + Concat(more) == Concat(more);
    } else {
      ConcatAfter(cuts[1..], more);
      assert (cuts + more)[1..] == cuts[1..] + more;
      assert cuts[0] + (Concat(cuts[1..]) + Concat(more)) == cuts[0] + Concat(cuts[1..]) + Concat(more);
    }
  }

  // The members seen before the tail.
  function BeforeTail(): seq<Member> {
    [BigFile()] + (FullFiles(15) + [FullFile(Zeros(SHORT))])
  }

  lemma ThreeParts(x: seq<Member>, y: seq<Member>, z: seq<Member>, tail: seq<Member>)
    ensures x + (y + (z + tail)) == x + (y + z) + tail
  {
  }

  lemma SeenBeforeTail()
    ensures SeenArchive() == BeforeTail() + TailMembers()
  {
    hide BigFile, FullFile, FullFiles, Zeros, TailMembers;
    ThreeParts([BigFile()], FullFiles(15), [FullFile(Zeros(SHORT))], TailMembers());
  }

  lemma BeforeTailKnown()
    ensures forall i :: 0 <= i < |BeforeTail()| ==> Known(BeforeTail()[i])
  {
    hide BigFile, FullFile, Zeros, Known, IsBig;
    BigIs();
    FullIs(Zeros(CONTAINER_MAX_SIZE));
    FullIs(Zeros(SHORT));
    forall i | 0 <= i < |BeforeTail()| ensures Known(BeforeTail()[i]) {
      assert BeforeTail()[i] in {BigFile(), FullFile(Zeros(CONTAINER_MAX_SIZE)), FullFile(Zeros(SHORT))};
    }
  }

  lemma ArchiveJoins()
    ensures Joined(Archive()) == Joined(BeforeTail()) + (Tail() + (FileMember().header + FileMember().body))
  {
    hide BeforeTail, FileMember, Tail, Joined, TailMembers, SeenArchive, Archive, Legible, SeenFrom, MemberOk, Start;
    SeenBeforeTail();
    SeenIs();
    var a := Joined(Archive());
    StartsAtZero(a, DEFAULTS);
    SeenJoin(a, Start(a, DEFAULTS), DEFAULTS);
    assert a[0..] == a;
    JoinedAfter(BeforeTail(), TailMembers());
    TailIsMembers();
    OneJoined(FileMember());
  }

  lemma OneJoined(m: Member)
    ensures Joined([m]) == m.header + m.body
  {
    assert [m][1..] == [] && m.header + m.body + [] == m.header + m.body;
  }

  lemma {:induction false} JoinedAfter(members: seq<Member>, more: seq<Member>)
    ensures Joined(members + more) == Joined(members) + Joined(more)
  {
    if members == [] {
      assert members + more == more && [] + Joined(more) == Joined(more);
    } else {
      JoinedAfter(members[1..], more);
      assert (members + more)[1..] == members[1..] + more;
      Reassociated(members[0].header + members[0].body, Joined(members[1..]), Joined(more));
    }
  }

  // The tail: the block with type flag NUL takes the body of the small file.
  lemma TailMerged()
    ensures var z, f, cuts := Zeros(1024), FileMember().header, [[Zeros(1024)]] + Nothings(16);
            && HeaderBytes(TailMembers()) == Tail() + f && Concat(AllCuts(TailMembers(), DEFAULTS)) == [z]
            && Merged(Tail() + f, [z]) == Some(cuts)
            && Written(Tail() + f, cuts) == NulFlagged().header + z + (Zeros(15 * BLOCK) + f)
  {
    hide FileMember, NulFlagged, Zeros, MergeHeader, Take, BodyCuts, EndBlock, Known, CutHeader;
    var z, v, f, rest := Zeros(1024), NulFlagged().header, FileMember().header, Zeros(15 * BLOCK) + FileMember().header;
    NulFlaggedIs();
    NulHeaderIs(CONTAINER_MAX_SIZE);
    FileCuts();
    FileMemberIs();
    TailHeaders();
    TailCuts();
    HeadersAlone(rest, 16);
    Reassociated(v, Zeros(15 * BLOCK), f);
    NulTakesOne(v, z);
    MergedFirst(v, rest, [z], [], Nothings(16));
    assert [z] + [] == [z];
    FlatOne(z);
    WrittenFirst(v, rest, [z], Nothings(16));
  }

  lemma NulTakesOne(v: Buffer, z: Buffer)
    requires |v| == BLOCK && MergeHeader(v) == (FileChunk, 49)
    ensures Taken(v, [z]) == Some(1)
  {
  }

  lemma {:induction false} EndHeaders(n: nat)
    ensures HeaderBytes(EndBlocks(n)) == Zeros(n * BLOCK)
    ensures Concat(AllCuts(EndBlocks(n), DEFAULTS)) == []
  {
    if n == 0 {
    } else {
      EndHeaders(n - 1);
      assert EndBlocks(n)[1..] == EndBlocks(n - 1);
      assert AllCuts(EndBlocks(n), DEFAULTS)[1..] == AllCuts(EndBlocks(n - 1), DEFAULTS);
      assert Zeros(n * BLOCK) == Zeros(BLOCK) + Zeros((n - 1) * BLOCK);
    }
  }

  lemma TailHeaders()
    ensures HeaderBytes(TailMembers()) == Tail() + FileMember().header
  {
    hide FileMember, NulFlagged, Zeros;
    EndHeaders(15);
    HeaderBytesAfter([NulFlagged()], EndBlocks(15) + [FileMember()]);
    HeaderBytesAfter(EndBlocks(15), [FileMember()]);
    Reassociated(NulFlagged().header, Zeros(15 * BLOCK), FileMember().header);
    OneHeader(NulFlagged());
    OneHeader(FileMember());
  }

  lemma OneHeader(m: Member)
    ensures HeaderBytes([m]) == m.header
  {
    assert [m][1..] == [];
  }

  lemma TailCuts()
    ensures Concat(AllCuts(TailMembers(), DEFAULTS)) == [Zeros(1024)]
  {
    hide FileMember, NulFlagged, Zeros, BodyCuts, EndBlocks;
    EndHeaders(15);
    FileCuts();
    NulFlaggedIs();
    NothingCut(NulFlagged());
    CutsAfter([NulFlagged()], EndBlocks(15) + [FileMember()], DEFAULTS);
    CutsAfter(EndBlocks(15), [FileMember()], DEFAULTS);
    OneCut(NulFlagged());
    OneCut(FileMember());
  }

  lemma NothingCut(m: Member)
    requires m.body == []
    ensures BodyCuts(m, DEFAULTS) == []
  {
  }

  lemma OneCut(m: Member)
    ensures Concat(AllCuts([m], DEFAULTS)) == BodyCuts(m, DEFAULTS)
  {
    hide BodyCuts;
    var cuts := AllCuts([m], DEFAULTS);
    assert cuts == [BodyCuts(m, DEFAULTS)] && cuts[1..] == [];
  }

  // With nothing wrong with its members, the archive is restored as another file: the blocks that the last large file
  // ends with are read as headers, the first of them takes the body of the small file, and its header comes last.
  lemma ReadInsideBody()
    ensures var a, c, members := Joined(Archive()), DEFAULTS, Archive();
            && WellFormed(a, 0, c.big) && Members(a, 0, c.big) == members
            && BodiesFit(members, c.big, CONTAINER_MAX_SIZE) && AllReadAlike(members, c.big)
            && Legible(a, Start(a, c), c) && !AllReadAlike(Bare(SeenMembers(a, c)), c.big)
            && var headers, data := Flat(Pieces(Pushed(a, c), true)), Pieces(Pushed(a, c), false);
            && Merged(headers, data).Some? && Written(headers, Merged(headers, data).value) != a
  {
    hide BigFile, FullFile, FileMember, NulFlagged, Tail, Zeros, Joined, Known, TailMembers, SeenFrom, Legible, Split;
    hide WellFormed, Members, AllReadAlike, Merged, Written, HeaderBytes, Concat, AllCuts, Flat, Pieces, BodiesFit;
    hide SeenArchive, BeforeTail, Archive, Nothings, Start;
    var a, c := Joined(Archive()), DEFAULTS;
    ArchiveIs();
    SeenIs();
    SplitIs(SeenMembers(a, c), c);
    SplitMerges(a, c);
    SeenBeforeTail();
    BeforeTailKnown();
    ArchiveJoins();
    TailMerged();
    var before, tail, f, z := BeforeTail(), Tail() + FileMember().header, FileMember().header, Zeros(1024);
    var cuts := [[z]] + Nothings(16);
    HeaderBytesAfter(before, TailMembers());
    CutsAfter(before, TailMembers(), c);
    MergedBefore(before, tail, [z], cuts);
    OtherFile(Joined(before));
  }

  lemma OtherFile(before: Buffer)
    ensures before + (NulFlagged().header + Zeros(1024) + (Zeros(15 * BLOCK) + FileMember().header))
            != before + (Tail() + (FileMember().header + FileMember().body))
  {
    hide FileMember, NulFlagged;
    FileMemberIs();
    NulFlaggedIs();
    var x := before + (NulFlagged().header + Zeros(1024) + (Zeros(15 * BLOCK) + FileMember().header));
    var y := before + (Tail() + (FileMember().header + FileMember().body));
    assert x[|before| + 16 * BLOCK + TYPE_AT] == 0;
    assert y[|before| + 16 * BLOCK + TYPE_AT] == FileMember().header[TYPE_AT];
  }
}
