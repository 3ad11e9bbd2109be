// Archives in one read that do not come back: why the end-to-end statement has the conditions it has.
module BackupExamples {
  import opened Bytes
  import opened Packing
  import opened Tar
  import opened TarReads
  import opened TarSplit
  import opened TarRestore
  import opened BiSearchMethod
  import opened Backups

  const DIRTYPE: byte := 53      // '5'
  const ZERO: byte := 48         // '0'

  function Zeros(n: nat): (z: Buffer)
    ensures |z| == n && forall k :: 0 <= k < n ==> z[k] == 0
  {
    seq(n, _ => 0)
  }

  // A header block with this size field and type flag, and nothing else.
  function HeaderBlock(size: seq<byte>, typeFlag: byte): (h: Buffer)
    requires |size| == SIZE_DIGITS
    ensures |h| == BLOCK && h[TYPE_AT] == typeFlag && h[SIZE_AT..SIZE_AT + SIZE_DIGITS] == size && h[0] == 0
  {
    var f := Fields(Zeros(100), Zeros(8), Zeros(8), Zeros(8), size, 0, Zeros(12), Zeros(8), typeFlag, Zeros(355));
    BlockIs(f);
    Block(f)
  }

  lemma {:induction false} LeadingZeros(h: Buffer, digits: nat)
    requires |h| == BLOCK && digits <= SIZE_DIGITS && forall k :: SIZE_AT <= k < SIZE_AT + digits ==> h[k] == ZERO
    ensures OctalSize(h, digits) == 0
  {
    if digits > 0 {
      LeadingZeros(h, digits - 1);
    }
  }

  // A file of 1024 NUL bytes: its size is octal 2000.
  function FileMember(): Member {
    Member(HeaderBlock([ZERO, ZERO, ZERO, ZERO, ZERO, ZERO, ZERO, 50, ZERO, ZERO, ZERO], REGTYPE), Zeros(1024))
  }

  function Directory(): Member {
    Member(HeaderBlock(seq(SIZE_DIGITS, _ => ZERO), DIRTYPE), [])
  }

  // One of the two blocks of NUL bytes an archive ends with.
  function EndBlock(): Member {
    Member(Zeros(BLOCK), [])
  }

  // A type flag NUL with a size field that is not NUL.
  function NulFlagged(): Member {
    Member(HeaderBlock([0, 0, 0, 0, 0, 0, 0, 0, 0, 0, 49], AREGTYPE), [])
  }

  lemma FileHeaderIs(big: nat)
    requires 1024 <= big
    ensures CutHeader(FileMember().header, big) == (FileChunk, 1024) == MergeHeader(FileMember().header)
    ensures RoundUp(1024) == 1024
  {
    hide OctalSize, FileMember;
    var h := FileMember().header;
    FileHeaderBytes();
    LeadingZeros(h, 7);
    NextDigit(h, 7, 2);
    NextDigit(h, 8, 0);
    NextDigit(h, 9, 0);
    NextDigit(h, 10, 0);
  }

  lemma FileHeaderBytes()
    ensures var h := FileMember().header;
            && |h| == BLOCK && h[TYPE_AT] == REGTYPE && h[SIZE_AT + 7] == 50
            && forall k :: SIZE_AT <= k < SIZE_AT + SIZE_DIGITS && k != SIZE_AT + 7 ==> h[k] == ZERO
  {
    var h := FileMember().header;
    var size := h[SIZE_AT..SIZE_AT + SIZE_DIGITS];
    assert forall k :: SIZE_AT <= k < SIZE_AT + SIZE_DIGITS ==> h[k] == size[k - SIZE_AT];
  }

  lemma NextDigit(h: Buffer, digits: nat, digit: nat)
    requires |h| == BLOCK && digits < SIZE_DIGITS && h[SIZE_AT + digits] == ZERO + digit
    requires OctalSize(h, digits) * 8 + digit < U64
    ensures OctalSize(h, digits + 1) == OctalSize(h, digits) * 8 + digit
  {
  }

  lemma NulHeaderBytes()
    ensures var h := NulFlagged().header;
            && |h| == BLOCK && h[TYPE_AT] == AREGTYPE && h[SIZE_AT + 10] == 49
            && forall k :: SIZE_AT <= k < SIZE_AT + 10 ==> h[k] == 0
  {
    var h := NulFlagged().header;
    var size := h[SIZE_AT..SIZE_AT + SIZE_DIGITS];
    assert forall k :: SIZE_AT <= k < SIZE_AT + SIZE_DIGITS ==> h[k] == size[k - SIZE_AT];
  }

  lemma NulHeaderIs(big: nat)
    ensures CutHeader(NulFlagged().header, big) == (FileChunk, 0)
    ensures MergeHeader(NulFlagged().header) == (FileChunk, 49)
  {
    hide NulFlagged, OctalSize, RawSize;
    NulHeaderBytes();
    RawIsZero(NulFlagged().header, 10);
    OneMoreDigit(NulFlagged().header, 10);
  }

  lemma OneMoreDigit(h: Buffer, digits: nat)
    requires |h| == BLOCK && digits < SIZE_DIGITS
    ensures RawSize(h, digits + 1) == (RawSize(h, digits) * 8 + h[SIZE_AT + digits]) % U64
  {
  }

  const DEFAULTS: Config := Config(CONTAINER_MAX_SIZE, 16, 2048)

  // ---------------------------------------------------------------------------------------------
  // A type flag NUL with a size
  // ---------------------------------------------------------------------------------------------

  lemma FileCuts()
    ensures BodyCuts(FileMember(), DEFAULTS) == [Zeros(1024)]
    ensures forall last :: MemberOk(FileMember(), CONTAINER_MAX_SIZE, last)
    ensures !IsBig(FileMember().header, CONTAINER_MAX_SIZE)
  {
    hide FileMember, CutHeader, BigCuts;
    FileHeaderIs(CONTAINER_MAX_SIZE);
    FileMemberIs();
  }

  lemma FileMemberIs()
    ensures |FileMember().header| == BLOCK && FileMember().body == Zeros(1024)
    ensures FileMember().header[TYPE_AT] == REGTYPE
  {
  }

  // A header with no data left gets none, whatever it is.
  lemma HeaderAlone(h: Buffer)
    requires |h| == BLOCK
    ensures Merged(h, []) == Some([[]]) && Written(h, [[]]) == h
  {
    hide MergeHeader, Take;
    NothingFlat();
    var none: seq<Buffer> := [];
    assert h[..BLOCK] == h && h[BLOCK..] == [] && none[..0] == none[0..] == none;
    assert Merged([], none) == Some([]) && [none] + [] == [none];
  }

  // Two members, the first without a body.
  lemma TwoMembers(x: Member, y: Member)
    requires x.body == []
    ensures HeaderBytes([x, y]) == x.header + y.header && Joined([x, y]) == x.header + y.header + y.body
  {
    assert [x, y][1..] == [y] && [y][1..] == [];
    assert Joined([y]) == y.header + y.body && HeaderBytes([y]) == y.header;
  }

  // Before a file, the block takes the file's body from it: the archive is well formed, the chunker splits it, and what
  // the restorer writes is another file.
  lemma BodyMisplaced()
    ensures var v, f, c := NulFlagged(), FileMember(), DEFAULTS;
            var a := Joined([v, f]);
            && WellFormed(a, 0, c.big) && Members(a, 0, c.big) == [v, f] && !AllReadAlike([v, f], c.big)
            && Legible(a, Start(a, c), c) && Bare(SeenMembers(a, c)) == [v, f]
            && CutHeader(v.header, c.big) != MergeHeader(v.header)
            && var headers, data := Flat(Pieces(Pushed(a, c), true)), Pieces(Pushed(a, c), false);
            && Merged(headers, data) == Some([[f.body], []])
            && Written(headers, [[f.body], []]) == v.header + f.body + f.header != a
  {
    hide FileMember, NulFlagged, Flat, Pieces, Split, OctalSize, RawSize, Take, AllReadAlike, WellFormed, Members;
    hide AllCuts, Merged, Written, Joined, HeaderBytes, Concat, Legible, SeenFrom;
    var v, f, c := NulFlagged(), FileMember(), DEFAULTS;
    NulHeaderIs(c.big);
    FileCuts();
    FileMemberIs();
    NulFlaggedIs();
    TwoMembers(v, f);
    var a := Joined([v, f]);
    assert a[0..] == a;
    JoinedMembers(a, 0, [v, f], c.big);
    OneRead(a, c);
    SplitMerges(a, c);
    SplitIs(SeenMembers(a, c), c);
    TwoCuts(v, f, c);
    MisplacedIn(v.header, f.header, f.body);
    assert [[f.body], []] != [[], [f.body]];
    assert (v.header + f.body + f.header)[BLOCK + TYPE_AT] != a[BLOCK + TYPE_AT];
  }

  lemma TwoCuts(v: Member, f: Member, c: Config)
    requires v.body == [] && BodyCuts(f, c) == [f.body]
    ensures AllCuts([v, f], c) == [[], [f.body]] && Concat(AllCuts([v, f], c)) == [f.body]
  {
    assert AllCuts([v, f], c) == [[], [f.body]];
    assert [[], [f.body]][1..] == [[f.body]] && [[f.body]][1..] == [];
    assert Concat([[f.body]]) == [f.body] + [];
    assert Concat([[], [f.body]]) == [] + Concat([[f.body]]);
  }

  lemma MisplacedIn(v: Buffer, f: Buffer, body: Buffer)
    requires |v| == |f| == BLOCK && MergeHeader(v) == (FileChunk, 49)
    ensures Merged(v + f, [body]) == Some([[body], []]) && Written(v + f, [[body], []]) == v + body + f
  {
    hide MergeHeader;
    var all := v + f;
    assert all[..BLOCK] == v && all[BLOCK..] == f && [body][..1] == [body] && [body][1..] == [];
    HeaderAlone(f);
    FlatOne(body);
    assert [[body], []][1..] == [[]] && [[body]] + [[]] == [[body], []];
  }

  lemma NulFlaggedIs()
    ensures |NulFlagged().header| == BLOCK && NulFlagged().body == []
  {
  }

  // ---------------------------------------------------------------------------------------------
  // A group of header blocks that is a data chunk too
  // ---------------------------------------------------------------------------------------------

  function Directories(n: nat): seq<Member> {
    seq(n, _ => Directory())
  }

  // The file, fifteen directories, and the end of the archive: the end is a group of its own.
  function FullGroup(n: nat): seq<Member> {
    [FileMember()] + Directories(n)
  }

  function SharedMembers(): seq<Member> {
    FullGroup(15) + [EndBlock()] + [EndBlock()]
  }

  lemma DirectoryIs(big: nat)
    ensures |Directory().header| == BLOCK && Directory().body == [] && Directory().header[TYPE_AT] == DIRTYPE
    ensures CutHeader(Directory().header, big).0 == FileHeader == MergeHeader(Directory().header).0
  {
    hide OctalSize;
  }

  lemma EndBlockIs(big: nat)
    ensures |EndBlock().header| == BLOCK && EndBlock().body == [] && NulSize(EndBlock().header)
    ensures CutHeader(EndBlock().header, big) == (FileChunk, 0) && EndBlock().header[TYPE_AT] == AREGTYPE
  {
    hide OctalSize;
  }

  lemma NextWithoutBody(g: Gathered, m: Member, c: Config)
    requires m.body == [] && !IsBig(m.header, c.big)
    ensures Next(g, Seen(m, false), c)
            == if |g.open + m.header| >= BLOCK * c.multi then Gathered(g.queue + [Group(g.open + m.header)], [])
               else Gathered(g.queue, g.open + m.header)
  {
    hide IsBig;
    NoPieces(g.queue, false);
  }

  function FilePiece(): Piece {
    Piece(Zeros(1024), false, false)
  }

  // The headers are gathered, up to the sixteenth.
  lemma {:induction false} GroupFills(n: nat)
    requires n <= 15
    ensures |HeaderBytes(FullGroup(n))| == BLOCK * (n + 1)
    ensures Gather(Unended(FullGroup(n)), DEFAULTS)
            == if n < 15 then Gathered([FilePiece()], HeaderBytes(FullGroup(n)))
               else Gathered([FilePiece(), Group(HeaderBytes(FullGroup(n)))], [])
  {
    hide FileMember, Directory, IsBig, BodyCuts, Next, Unended;
    DirectoryIs(CONTAINER_MAX_SIZE);
    if n == 0 {
      assert FullGroup(0) == [] + [FileMember()];
      FirstMember();
    } else {
      GroupFills(n - 1);
      assert FullGroup(n) == FullGroup(n - 1) + [Directory()];
      HeaderBytesSnoc(FullGroup(n - 1), Directory());
      NotBig(Directory().header);
      UnendedSnoc(FullGroup(n - 1), Directory(), DEFAULTS);
      NextWithoutBody(Gather(Unended(FullGroup(n - 1)), DEFAULTS), Directory(), DEFAULTS);
    }
  }

  lemma UnendedSnoc(members: seq<Member>, m: Member, c: Config)
    ensures Gather(Unended(members + [m]), c) == Next(Gather(Unended(members), c), Seen(m, false), c)
  {
    assert Unended(members + [m]) == Unended(members) + [Seen(m, false)];
    GatherSnoc(Unended(members), Seen(m, false), c);
  }

  lemma NotBig(h: Buffer)
    requires |h| == BLOCK && !CutHeader(h, CONTAINER_MAX_SIZE).0.BigChunk?
    ensures !IsBig(h, DEFAULTS.big)
  {
  }

  lemma FirstMember()
    ensures Gather(Unended([] + [FileMember()]), DEFAULTS)
            == Gathered([FilePiece()], HeaderBytes([] + [FileMember()]))
    ensures |HeaderBytes([] + [FileMember()])| == BLOCK
  {
    hide FileMember, IsBig, BodyCuts;
    FileCuts();
    FileMemberIs();
    HeaderBytesSnoc([], FileMember());
    UnendedSnoc([], FileMember(), DEFAULTS);
    assert Unended([]) == [] && [] + DataPieces([Zeros(1024)], false) == [FilePiece()];
  }

  function FirstGroup(): Buffer {
    HeaderBytes(FullGroup(15))
  }

  // What is pushed: the file, the group of sixteen headers, and the group of the two end blocks, which has the
  // content of the file.
  lemma SharedSplit()
    ensures Split(Unended(SharedMembers()), DEFAULTS) == [FilePiece(), Group(FirstGroup()), Group(Zeros(1024))]
    ensures |FirstGroup()| == 8192
  {
    hide FullGroup, EndBlock, IsBig, Next, HeaderBytes, Zeros;
    GroupFills(15);
    var start := FullGroup(15);
    EndBlockIs(CONTAINER_MAX_SIZE);
    NotBig(EndBlock().header);
    UnendedSnoc(start, EndBlock(), DEFAULTS);
    NextWithoutBody(Gather(Unended(start), DEFAULTS), EndBlock(), DEFAULTS);
    UnendedSnoc(start + [EndBlock()], EndBlock(), DEFAULTS);
    NextWithoutBody(Gather(Unended(start + [EndBlock()]), DEFAULTS), EndBlock(), DEFAULTS);
    TwoEnds();
    assert [FilePiece(), Group(FirstGroup())] + [Group(Zeros(1024))]
        == [FilePiece(), Group(FirstGroup()), Group(Zeros(1024))];
  }

  lemma TwoEnds()
    ensures [] + EndBlock().header == EndBlock().header && EndBlock().header + EndBlock().header == Zeros(1024)
    ensures |EndBlock().header| == BLOCK
  {
  }

  // The archive is one the chunker splits, with nothing the restorer reads otherwise.
  lemma SharedArchiveOk()
    ensures var a := Joined(SharedMembers());
            ArchiveOk(a, DEFAULTS) && Pushed(a, DEFAULTS) == Split(Unended(SharedMembers()), DEFAULTS)
  {
    hide FileMember, Directory, EndBlock, OctalSize, CutHeader, WellFormed, Members, Split, HeaderBytes, Joined;
    hide NulSize, Legible, SeenFrom, IsBig;
    var a, members := Joined(SharedMembers()), SharedMembers();
    FileHeaderIs(CONTAINER_MAX_SIZE);
    FileMemberIs();
    DirectoryIs(CONTAINER_MAX_SIZE);
    EndBlockIs(CONTAINER_MAX_SIZE);
    forall i | 0 <= i < |members|
      ensures MemberOk(members[i], CONTAINER_MAX_SIZE, i == |members| - 1) && |members[i].body| <= 1024
      ensures ReadAlike(members[i], NoBodies(members[i + 1..]), CONTAINER_MAX_SIZE)
    {
      assert members[i] in {FileMember(), Directory(), EndBlock()};
      FileSize();
    }
    assert a[0..] == a;
    JoinedMembers(a, 0, members, CONTAINER_MAX_SIZE);
    JoinedSize(members, 1536);
    OkAsItIs(a, DEFAULTS);
    OneReadSplit(a, DEFAULTS);
  }

  lemma FileSize()
    ensures OctalSize(FileMember().header, SIZE_DIGITS) == 1024
  {
    hide OctalSize;
    FileHeaderIs(CONTAINER_MAX_SIZE);
  }

  lemma {:induction false} JoinedSize(members: seq<Member>, max: nat)
    requires forall i :: 0 <= i < |members| ==> |members[i].header| + |members[i].body| <= max
    ensures |Joined(members)| <= max * |members|
  {
    if members != [] {
      JoinedSize(members[1..], max);
    }
  }

  function Nothings(n: nat): seq<seq<Buffer>> {
    seq(n, _ => [])
  }

  lemma {:induction false} AfterDirectories(n: nat, data: seq<Buffer>)
    ensures Merged(HeaderBytes(Directories(n)), data) == Some(Nothings(n))
    ensures Written(HeaderBytes(Directories(n)), Nothings(n)) == HeaderBytes(Directories(n))
  {
    hide Directory, MergeHeader, Take;
    if n > 0 {
      AfterDirectories(n - 1, data);
      DirectoryIs(0);
      NothingFlat();
      assert Directories(n)[0] == Directory() && Directories(n)[1..] == Directories(n - 1);
      assert Nothings(n)[1..] == Nothings(n - 1);
      var h, rest, none: seq<Buffer> := Directory().header, HeaderBytes(Directories(n - 1)), [];
      var all := HeaderBytes(Directories(n));
      assert all == h + rest && all[..BLOCK] == h && all[BLOCK..] == rest;
      MergedFirst(h, rest, none, data, Nothings(n - 1));
      assert none + data == data && [none] + Nothings(n - 1) == Nothings(n);
    } else {
      assert Merged([], data) == Some([]) && Nothings(0) == [];
    }
  }

  // The archive is taken as a backup. Its last group is a duplicate of the file, so it goes where the file went: into
  // the recipe of data chunks. With no header left for it, it is not restored: the file written lacks the last 1024
  // bytes.
  lemma EndIsLost(notes: (nat, nat) -> Note)
    ensures var a, c := Joined(SharedMembers()), DEFAULTS;
            var sessions, z := Sessions([a], c, notes), Zeros(1024);
            && ArchiveOk(a, c) && !NothingShared([a], c)
            && Sorted(sessions[0], Flags(sessions), true) == [FirstGroup()]
            && Sorted(sessions[0], Flags(sessions), false) == [z, z]
            && Merged(FirstGroup(), [z, z]) == Some([[z]] + Nothings(15))
            && |a| >= 1024 && Written(FirstGroup(), [[z]] + Nothings(15)) == a[..|a| - 1024]
  {
    hide ArchiveOk, NothingShared, Flags, Sorted, FullGroup, Zeros, Joined, HeaderBytes, Merged, Written, Pushed, Split;
    var a, c := Joined(SharedMembers()), DEFAULTS;
    SharedArchiveOk();
    SharedSplit();
    SharedSorted(a, notes);
    SharedNot(a, notes);
    FileGoesFirst();
    AllButTheEnd();
  }

  lemma SharedSorted(a: Buffer, notes: (nat, nat) -> Note)
    requires Pushed(a, DEFAULTS) == [FilePiece(), Group(FirstGroup()), Group(Zeros(1024))] && |FirstGroup()| == 8192
    ensures var sessions := Sessions([a], DEFAULTS, notes);
            && Sorted(sessions[0], Flags(sessions), true) == [FirstGroup()]
            && Sorted(sessions[0], Flags(sessions), false) == [Zeros(1024), Zeros(1024)]
  {
    hide Pushed, FirstGroup, Zeros, Stream, Sorted, Sessions, Annotated, Arrived;
    var sessions := Sessions([a], DEFAULTS, notes);
    var arrivals := sessions[0];
    ThreeArrivals(a, notes);
    FirstFlagAt(arrivals, 0);
    FirstFlagAt(arrivals, 1);
    SortedOfThree(arrivals[0], arrivals[1], arrivals[2], Flags(sessions));
  }

  lemma ThreeArrivals(a: Buffer, notes: (nat, nat) -> Note)
    requires Pushed(a, DEFAULTS) == [FilePiece(), Group(FirstGroup()), Group(Zeros(1024))]
    ensures var sessions := Sessions([a], DEFAULTS, notes);
            var arrivals := sessions[0];
            && Arrived(sessions, 1) == arrivals && |arrivals| == 3
            && arrivals == [arrivals[0], arrivals[1], arrivals[2]]
            && !arrivals[0].headerFlag && arrivals[1].headerFlag && arrivals[1].content == FirstGroup()
            && arrivals[0].content == arrivals[2].content == Zeros(1024)
  {
    hide Pushed, FirstGroup, Zeros;
    var sessions := Sessions([a], DEFAULTS, notes);
    assert Arrived(sessions, 1) == [] + sessions[0];
  }

  // A group between two arrivals of the same chunk.
  lemma SortedOfThree(x: Arrival, y: Arrival, z: Arrival, flag: Buffer -> bool)
    requires !flag(x.content) && flag(y.content) && x.content == z.content
    ensures Sorted([x, y, z], flag, true) == [y.content]
    ensures Sorted([x, y, z], flag, false) == [x.content, x.content]
  {
    assert [x, y, z][..2] == [x, y] && [x, y][..1] == [x] && [x][..0] == [];
    assert Sorted([x], flag, true) == [] && Sorted([x], flag, false) == [x.content];
    assert Sorted([x, y], flag, true) == [y.content] && Sorted([x, y], flag, false) == [x.content];
  }

  lemma SharedNot(a: Buffer, notes: (nat, nat) -> Note)
    requires Pushed(a, DEFAULTS) == [FilePiece(), Group(FirstGroup()), Group(Zeros(1024))]
    ensures !NothingShared([a], DEFAULTS)
  {
    hide Pushed, FirstGroup, Zeros;
    var queue := Pushed([a][0], DEFAULTS);
    PieceIn(queue, true, Zeros(1024));
    PieceIn(queue, false, Zeros(1024));
    assert queue[0].bytes == queue[2].bytes == Zeros(1024);
  }

  lemma FileGoesFirst()
    ensures var z := Zeros(1024);
            && Merged(FirstGroup(), [z, z]) == Some([[z]] + Nothings(15))
            && Written(FirstGroup(), [[z]] + Nothings(15)) == FileMember().header + z + HeaderBytes(Directories(15))
  {
    hide FileMember, Directories, Zeros, MergeHeader, Take, Nothings;
    var z, h, dirs := Zeros(1024), FileMember().header, HeaderBytes(Directories(15));
    FileHeaderIs(CONTAINER_MAX_SIZE);
    FileMemberIs();
    assert FullGroup(15)[1..] == Directories(15);
    var all := FirstGroup();
    assert all[..BLOCK] == h && all[BLOCK..] == dirs && [z, z][..1] == [z] && [z, z][1..] == [z];
    AfterDirectories(15, [z]);
    FlatOne(z);
    assert ([[z]] + Nothings(15))[1..] == Nothings(15);
  }

  lemma AllButTheEnd()
    ensures var a := Joined(SharedMembers());
            |a| >= 1024 && a[..|a| - 1024] == FileMember().header + Zeros(1024) + HeaderBytes(Directories(15))
  {
    hide FileMember, EndBlock, FullGroup, Zeros, Joined, HeaderBytes;
    var start, e := FullGroup(15), EndBlock().header;
    JoinedSnoc(start, EndBlock());
    JoinedSnoc(start + [EndBlock()], EndBlock());
    EndBlockIs(0);
    WithoutTheEnd();
    assert Joined(SharedMembers()) == Joined(start) + (e + e);
  }

  lemma WithoutTheEnd()
    ensures Joined(FullGroup(15)) == FileMember().header + Zeros(1024) + HeaderBytes(Directories(15))
  {
    hide FileMember, Directories, Zeros;
    FileMemberIs();
    assert FullGroup(15)[1..] == Directories(15);
    JoinedDirectories(15);
  }

  lemma {:induction false} JoinedDirectories(n: nat)
    ensures Joined(Directories(n)) == HeaderBytes(Directories(n))
  {
    hide Directory;
    if n > 0 {
      JoinedDirectories(n - 1);
      DirectoryIs(0);
      assert Directories(n)[1..] == Directories(n - 1);
    }
  }
}
