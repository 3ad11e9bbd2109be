// A tar archive as the chunker gets to see it: through a buffer that is filled from the file again and again. A read
// that ends inside the body of a member cuts it short, and what is left of it is taken for header blocks.
module TarReads {
  import opened Bytes
  import opened Tar
  import FastCdc

  // BigChunkSize, MULTI_HEADER_CHUNK and the normal size of FastCDC.
  datatype Config = Config(big: nat, multi: nat, normal: nat)

  ghost predicate IsBig(h: Buffer, big: nat) {
    |h| == BLOCK && CutHeader(h, big).0.BigChunk?
  }

  // A call that cuts a group is made only with this much in the buffer, or at the end of the file.
  function Reserve(c: Config): nat {
    CONTAINER_MAX_SIZE * c.multi
  }

  function BufferSize(c: Config): nat {
    FastCdc.READ_FILE_SIZE + Reserve(c)
  }

  // What a read brought: up to where in the archive, and whether it met the end of the file.
  datatype Read = Read(end: nat, last: bool)

  function ReadFrom(a: Buffer, pos: nat, c: Config): Read
    requires pos <= |a|
  {
    Read(pos + Min(BufferSize(c), |a| - pos), |a| - pos < BufferSize(c))
  }

  // Between two calls the buffer is filled again, from where the last call got to, unless there is enough in it.
  function Again(a: Buffer, pos: nat, r: Read, c: Config): Read
    requires pos <= |a|
  {
    if r.last || r.end - pos >= Reserve(c) then r else ReadFrom(a, pos, c)
  }

  lemma AgainTwice(a: Buffer, pos: nat, r: Read, c: Config)
    requires pos <= |a|
    ensures Again(a, pos, Again(a, pos, r, c), c) == Again(a, pos, r, c)
  {
  }

  // The next piece of a big body that goes up to `end`.
  ghost function NextCut(a: Buffer, pos: nat, end: nat, c: Config): (n: nat)
    requires pos <= end <= |a|
    ensures n <= end - pos && n <= FastCdc.MAX_CHUNK_SIZE && (pos < end ==> n > 0)
  {
    if end - pos > FastCdc.MAX_CHUNK_SIZE then FastCdc.CutLength(a[pos..end], c.normal) else end - pos
  }

  // How far one call gets in a big body, with `used` bytes of its room used up.
  ghost function BigCall(a: Buffer, pos: nat, end: nat, used: nat, c: Config): (next: nat)
    requires pos <= end <= |a|
    ensures pos <= next <= end
    ensures pos < end && used < CONTAINER_MAX_SIZE - FastCdc.MAX_CHUNK_SIZE ==> pos < next
    ensures next == pos || used + next - pos <= CONTAINER_MAX_SIZE
    decreases end - pos
  {
    if pos == end || used >= CONTAINER_MAX_SIZE - FastCdc.MAX_CHUNK_SIZE then pos
    else
      var n := NextCut(a, pos, end, c);
      BigCall(a, pos + n, end, used + n, c)
  }

  // The read that is in the buffer after the calls for a big body.
  ghost function BigReads(a: Buffer, pos: nat, end: nat, r: Read, c: Config): Read
    requires pos <= end <= |a|
    decreases end - pos
  {
    if pos == end then r
    else
      var next := BigCall(a, pos, end, 0, c);
      BigReads(a, next, end, Again(a, next, r, c), c)
  }

  // Where the chunker is before a header: how many bytes of headers the open group has, and what is in the buffer.
  datatype Place = Place(pos: nat, open: nat, read: Read)

  // A member as it is seen, and whether the buffer ends with it.
  datatype Seen = Seen(member: Member, ended: bool)

  datatype Sight = Sight(seen: Seen, next: Place)

  // One member. Of a big body all is seen, in as many reads as it takes, unless the buffer ends with its header; of
  // another one what the buffer has.
  ghost function See(a: Buffer, p: Place, c: Config): (s: Sight)
    requires p.pos + BLOCK <= p.read.end <= |a|
    ensures p.pos + BLOCK <= s.next.pos <= |a|
  {
    var at := p.pos + BLOCK;
    var h := a[p.pos..at];
    var (kind, size) := CutHeader(h, c.big);
    if kind.BigChunk? && at < p.read.end then
      var end := at + Min(RoundUp(size), |a| - at);
      Sight(Seen(Member(h, a[at..end]), false), Place(end, 0, BigReads(a, at, end, Again(a, at, p.read, c), c)))
    else
      var end := at + if kind.FileChunk? then Min(RoundUp(size), p.read.end - at) else 0;
      var ended := end == p.read.end;
      Sight(Seen(Member(h, a[at..end]), ended),
            if ended || p.open + BLOCK >= BLOCK * c.multi then Place(end, 0, Again(a, end, p.read, c))
            else Place(end, p.open + BLOCK, p.read))
  }

  ghost function SeenFrom(a: Buffer, p: Place, c: Config): seq<Seen>
    decreases |a| - p.pos
  {
    if p.pos + BLOCK <= p.read.end <= |a| then [See(a, p, c).seen] + SeenFrom(a, See(a, p, c).next, c) else []
  }

  function Start(a: Buffer, c: Config): Place {
    Place(0, 0, ReadFrom(a, 0, c))
  }

  // The members of an archive as the chunker sees them.
  ghost function SeenMembers(a: Buffer, c: Config): seq<Seen> {
    SeenFrom(a, Start(a, c), c)
  }

  function Bare(seen: seq<Seen>): (members: seq<Member>)
    ensures |members| == |seen|
  {
    seq(|seen|, i requires 0 <= i < |seen| => seen[i].member)
  }

  // What the chunker needs of the header it comes to: all of the block is in the buffer, the size does not wrap, and a
  // big body is there in full.
  ghost predicate HeaderFits(a: Buffer, p: Place, c: Config) {
    && p.pos + BLOCK <= p.read.end <= |a|
    && var (kind, size) := CutHeader(a[p.pos..p.pos + BLOCK], c.big);
    && (!kind.FileHeader? ==> size + 511 < U64)
    && (kind.BigChunk? && p.pos + BLOCK < p.read.end ==> RoundUp(size) <= |a| - p.pos - BLOCK)
  }

  ghost predicate Legible(a: Buffer, p: Place, c: Config)
    decreases |a| - p.pos
  {
    p.pos == |a| || (HeaderFits(a, p, c) && Legible(a, See(a, p, c).next, c))
  }

  lemma BareCons(seen: seq<Seen>)
    requires seen != []
    ensures Bare(seen) == [seen[0].member] + Bare(seen[1..]) && Bare(seen)[1..] == Bare(seen[1..])
  {
  }

  lemma NothingSeen(a: Buffer, p: Place, c: Config)
    requires p.pos == |a|
    ensures SeenFrom(a, p, c) == []
  {
  }

  // The member seen is what the archive has from its header to the next.
  lemma SeeIs(a: Buffer, p: Place, c: Config)
    requires p.pos + BLOCK <= p.read.end <= |a|
    ensures var s := See(a, p, c);
            s.seen.member == Member(a[p.pos..p.pos + BLOCK], a[p.pos + BLOCK..s.next.pos])
  {
    hide CutHeader, RoundUp, BigReads, Again;
  }

  // What is seen is all of the archive, in order, however the reads cut it.
  lemma {:induction false} SeenJoin(a: Buffer, p: Place, c: Config)
    requires p.pos <= |a| && Legible(a, p, c)
    ensures Joined(Bare(SeenFrom(a, p, c))) == a[p.pos..]
    decreases |a| - p.pos
  {
    hide See, HeaderFits;
    if p.pos == |a| {
      NothingSeen(a, p, c);
    } else {
      HeaderIsThere(a, p, c);
      SeeIs(a, p, c);
      var s := See(a, p, c);
      SeenJoin(a, s.next, c);
      BareCons(SeenFrom(a, p, c));
      assert a[p.pos..] == a[p.pos..p.pos + BLOCK] + a[p.pos + BLOCK..s.next.pos] + a[s.next.pos..];
    }
  }

  ghost predicate Shapes(members: seq<Member>, big: nat) {
    forall i :: 0 <= i < |members| ==> MemberShape(members[i], big)
  }

  lemma SeenShape(a: Buffer, p: Place, c: Config)
    requires HeaderFits(a, p, c)
    ensures MemberShape(See(a, p, c).seen.member, c.big)
  {
    hide CutHeader, RoundUp, BigReads, Again;
  }

  lemma {:induction false} SeenShapes(a: Buffer, p: Place, c: Config)
    requires Legible(a, p, c)
    ensures Shapes(Bare(SeenFrom(a, p, c)), c.big)
    decreases |a| - p.pos
  {
    hide CutHeader, MemberShape, HeaderFits, See;
    if p.pos == |a| {
      NothingSeen(a, p, c);
    } else {
      HeaderIsThere(a, p, c);
      SeenShape(a, p, c);
      SeenShapes(a, See(a, p, c).next, c);
      BareCons(SeenFrom(a, p, c));
    }
  }

  lemma HeaderIsThere(a: Buffer, p: Place, c: Config)
    requires HeaderFits(a, p, c)
    ensures p.pos + BLOCK <= p.read.end <= |a|
  {
  }

  // ---------------------------------------------------------------------------------------------
  // Archives that are seen as they are
  // ---------------------------------------------------------------------------------------------

  // The members seen are those of the archive if and only if no body is short but the last.
  lemma SeenAsTheyAre(a: Buffer, c: Config)
    requires Legible(a, Start(a, c), c)
    ensures var seen := Bare(SeenMembers(a, c));
            WellFormed(a, 0, c.big) && Members(a, 0, c.big) == seen
            <==> forall i :: 0 <= i < |seen| ==> MemberOk(seen[i], c.big, i == |seen| - 1)
  {
    hide Members, WellFormed, MemberOk, SeenFrom, Legible;
    var seen := Bare(SeenMembers(a, c));
    SeenJoin(a, Start(a, c), c);
    assert a[0..] == a;
    if forall i :: 0 <= i < |seen| ==> MemberOk(seen[i], c.big, i == |seen| - 1) {
      JoinedMembers(a, 0, seen, c.big);
    }
    if WellFormed(a, 0, c.big) && Members(a, 0, c.big) == seen {
      forall i | 0 <= i < |seen| ensures MemberOk(seen[i], c.big, i == |seen| - 1) {
        MembersOk(a, 0, c.big, i);
      }
    }
  }

  // The bodies that are not cut are no larger than this.
  ghost predicate BodiesFit(members: seq<Member>, big: nat, max: nat) {
    forall i :: 0 <= i < |members| && !IsBig(members[i].header, big) ==> |members[i].body| <= max
  }

  // What a group takes with that many bytes of headers in it: a container for each header and its body, or, if
  // `wide`, a container for the body and a block for the header.
  function GroupBytes(open: nat, wide: bool): nat {
    open * (CONTAINER_MAX_SIZE / BLOCK) + if wide then open else 0
  }

  // The buffer has all that is left of the archive, or room for the rest of the group.
  ghost predicate Enough(a: Buffer, p: Place, wide: bool, c: Config) {
    && p.pos <= p.read.end <= |a| && p.open % BLOCK == 0 && p.open < BLOCK * c.multi
    && (p.read.last ==> p.read.end == |a|)
    && (p.read.end == |a| || p.read.end - p.pos >= Reserve(c) - GroupBytes(p.open, wide))
  }

  lemma AgainEnough(a: Buffer, pos: nat, r: Read, wide: bool, c: Config)
    requires pos <= |a| && r.end <= |a| && (r.last ==> r.end == |a|) && c.multi >= 1
    ensures Enough(a, Place(pos, 0, Again(a, pos, r, c)), wide, c)
  {
  }

  lemma EnoughWithin(a: Buffer, p: Place, wide: bool, c: Config)
    requires Enough(a, p, wide, c)
    ensures p.read.end <= |a| && (p.read.last ==> p.read.end == |a|)
  {
  }

  lemma {:induction false} BigReadsEnough(a: Buffer, pos: nat, end: nat, r: Read, wide: bool, c: Config)
    requires pos <= end <= |a| && c.multi >= 1 && Enough(a, Place(pos, 0, r), wide, c)
    ensures Enough(a, Place(end, 0, BigReads(a, pos, end, r, c)), wide, c)
    decreases end - pos
  {
    hide BigCall, Enough, Again;
    if pos < end {
      var next := BigCall(a, pos, end, 0, c);
      EnoughWithin(a, Place(pos, 0, r), wide, c);
      AgainEnough(a, next, r, wide, c);
      BigReadsEnough(a, next, end, Again(a, next, r, c), wide, c);
    }
  }

  // The next member leaves enough for those after it.
  lemma SeeEnough(a: Buffer, p: Place, wide: bool, c: Config)
    requires HeaderFits(a, p, c) && Enough(a, p, wide, c) && c.multi >= 1
    requires var m := See(a, p, c).seen.member;
             !IsBig(m.header, c.big) ==> |m.body| <= CONTAINER_MAX_SIZE - if wide then 0 else BLOCK
    ensures Enough(a, See(a, p, c).next, wide, c)
  {
    hide CutHeader, RoundUp, BigReads, Again, Enough;
    var at := p.pos + BLOCK;
    var s := See(a, p, c);
    EnoughWithin(a, p, wide, c);
    AgainEnough(a, s.next.pos, p.read, wide, c);
    if IsBig(s.seen.member.header, c.big) && at < p.read.end {
      AgainEnough(a, at, p.read, wide, c);
      BigReadsEnough(a, at, s.next.pos, Again(a, at, p.read, c), wide, c);
    } else if s.next.open != 0 {
      RoomInGroup(a, p, s.next.pos, wide, c);
    }
  }

  lemma RoomInGroup(a: Buffer, p: Place, pos: nat, wide: bool, c: Config)
    requires Enough(a, p, wide, c) && p.open + BLOCK < BLOCK * c.multi && p.pos + BLOCK <= pos <= p.read.end
    requires pos - p.pos <= CONTAINER_MAX_SIZE + if wide then BLOCK else 0
    ensures Enough(a, Place(pos, p.open + BLOCK, p.read), wide, c)
  {
  }

  // With the body in the buffer, or a big one, the member seen is the member there is.
  lemma SeesMember(a: Buffer, p: Place, c: Config)
    requires p.pos + BLOCK <= p.read.end <= |a| && HeaderOk(a, p.pos, c.big)
    requires var at, n := p.pos + BLOCK, BodyLength(a, p.pos, c.big);
             at + n <= p.read.end || (at < p.read.end && CutHeader(a[p.pos..at], c.big).0.BigChunk?)
    ensures var at := p.pos + BLOCK;
            var end := at + BodyLength(a, p.pos, c.big);
            HeaderFits(a, p, c) && See(a, p, c).seen.member == Member(a[p.pos..at], a[at..end])
            && See(a, p, c).next.pos == end
  {
    hide CutHeader, BigReads, Again;
    match CutHeader(a[p.pos..p.pos + BLOCK], c.big).0
    case FileHeader =>
    case FileChunk =>
    case BigChunk => RoundUpHolds(CutHeader(a[p.pos..p.pos + BLOCK], c.big).1);
  }

  // The first member of what is seen, and of what there is.
  lemma SeenCons(a: Buffer, p: Place, c: Config)
    requires HeaderFits(a, p, c)
    ensures var s := See(a, p, c);
            && SeenFrom(a, p, c) == [s.seen] + SeenFrom(a, s.next, c)
            && Bare(SeenFrom(a, p, c)) == [s.seen.member] + Bare(SeenFrom(a, s.next, c))
            && (Legible(a, s.next, c) ==> Legible(a, p, c))
  {
    hide CutHeader, See;
    HeaderIsThere(a, p, c);
    BareCons(SeenFrom(a, p, c));
  }

  lemma MembersCons(a: Buffer, at: nat, big: nat)
    requires at < |a| && WellFormed(a, at, big)
    ensures at + BLOCK <= |a| && HeaderOk(a, at, big)
    ensures var next := at + BLOCK + BodyLength(a, at, big);
            && WellFormed(a, next, big)
            && Members(a, at, big) == [Member(a[at..at + BLOCK], a[at + BLOCK..next])] + Members(a, next, big)
            && Members(a, at, big)[1..] == Members(a, next, big)
  {
    hide CutHeader, HeaderOk, BodyLength;
  }

  lemma {:induction false} BigReadsEnd(a: Buffer, pos: nat, end: nat, r: Read, c: Config)
    requires pos <= end <= |a| && r.end == |a|
    ensures BigReads(a, pos, end, r, c).end == |a|
    decreases end - pos
  {
    hide BigCall;
    if pos < end {
      var next := BigCall(a, pos, end, 0, c);
      BigReadsEnd(a, next, end, Again(a, next, r, c), c);
    }
  }

  lemma EndStays(a: Buffer, p: Place, c: Config)
    requires p.pos + BLOCK <= p.read.end == |a|
    ensures See(a, p, c).next.read.end == |a|
  {
    hide CutHeader, RoundUp, BigReads;
    var at, s := p.pos + BLOCK, See(a, p, c);
    if IsBig(s.seen.member.header, c.big) && at < p.read.end {
      BigReadsEnd(a, at, s.next.pos, Again(a, at, p.read, c), c);
    }
  }

  // Once the buffer reaches the end of the archive, it is seen as it is.
  lemma {:induction false} SeenToTheEnd(a: Buffer, p: Place, c: Config)
    requires p.pos <= p.read.end == |a| && WellFormed(a, p.pos, c.big)
    ensures Legible(a, p, c) && Bare(SeenFrom(a, p, c)) == Members(a, p.pos, c.big)
    decreases |a| - p.pos
  {
    hide CutHeader, See, HeaderOk, BodyLength, HeaderFits;
    if p.pos < |a| {
      MembersCons(a, p.pos, c.big);
      BigBegins(a, p.pos, c.big);
      SeesMember(a, p, c);
      EndStays(a, p, c);
      SeenToTheEnd(a, See(a, p, c).next, c);
      SeenCons(a, p, c);
    } else {
      NothingSeen(a, p, c);
    }
  }

  lemma BigBegins(a: Buffer, at: nat, big: nat)
    requires at + BLOCK <= |a| && HeaderOk(a, at, big)
    ensures CutHeader(a[at..at + BLOCK], big).0.BigChunk? ==> at + BLOCK < |a|
    ensures at + BLOCK + BodyLength(a, at, big) <= |a|
  {
    hide OctalSize;
    var (kind, size) := CutHeader(a[at..at + BLOCK], big);
    if kind.BigChunk? {
      RoundUpHolds(size);
    }
  }

  // An archive that fits in the buffer is seen as it is.
  lemma OneRead(a: Buffer, c: Config)
    requires WellFormed(a, 0, c.big) && |a| <= BufferSize(c)
    ensures Legible(a, Start(a, c), c) && Bare(SeenMembers(a, c)) == Members(a, 0, c.big)
  {
    SeenToTheEnd(a, Start(a, c), c);
  }

  // Only its last member ends the buffer.
  lemma {:induction false} EndedIsLast(a: Buffer, p: Place, c: Config, i: nat)
    requires p.pos <= p.read.end == |a| && WellFormed(a, p.pos, c.big) && i < |SeenFrom(a, p, c)|
    requires SeenFrom(a, p, c)[i].ended
    ensures i == |SeenFrom(a, p, c)| - 1
    decreases i
  {
    hide CutHeader, See, HeaderOk, BodyLength, HeaderFits, Legible;
    if p.pos == |a| {
      NothingSeen(a, p, c);
    } else {
      MembersCons(a, p.pos, c.big);
      BigBegins(a, p.pos, c.big);
      SeesMember(a, p, c);
      EndStays(a, p, c);
      SeenCons(a, p, c);
      if i == 0 {
        EndedAtEnd(a, p, c);
        NothingSeen(a, See(a, p, c).next, c);
      } else {
        EndedIsLast(a, See(a, p, c).next, c, i - 1);
      }
    }
  }

  lemma EndedAtEnd(a: Buffer, p: Place, c: Config)
    requires p.pos + BLOCK <= p.read.end <= |a| && See(a, p, c).seen.ended
    ensures See(a, p, c).next.pos == p.read.end
  {
    hide CutHeader, RoundUp, BigReads;
  }

  // So is one of any size with bodies that leave room for their headers in a container.
  lemma {:induction false} SmallBodiesFrom(a: Buffer, p: Place, c: Config)
    requires p.pos <= |a| && WellFormed(a, p.pos, c.big) && Enough(a, p, false, c) && c.multi >= 1
    requires BodiesFit(Members(a, p.pos, c.big), c.big, CONTAINER_MAX_SIZE - BLOCK)
    ensures Legible(a, p, c) && Bare(SeenFrom(a, p, c)) == Members(a, p.pos, c.big)
    decreases |a| - p.pos
  {
    hide CutHeader, See, HeaderOk, BodyLength, HeaderFits, IsBig;
    if p.pos < |a| {
      MembersCons(a, p.pos, c.big);
      FirstSmall(a, p, c);
      SeesMember(a, p, c);
      SeeEnough(a, p, false, c);
      SmallBodiesFrom(a, See(a, p, c).next, c);
      SeenCons(a, p, c);
    } else {
      NothingSeen(a, p, c);
    }
  }

  // The first member of the rest, with room for it.
  lemma FirstSmall(a: Buffer, p: Place, c: Config)
    requires p.pos + BLOCK <= |a| && WellFormed(a, p.pos, c.big) && Enough(a, p, false, c) && c.multi >= 1
    requires HeaderOk(a, p.pos, c.big)
    requires BodiesFit(Members(a, p.pos, c.big), c.big, CONTAINER_MAX_SIZE - BLOCK)
    ensures var at, n := p.pos + BLOCK, BodyLength(a, p.pos, c.big);
            var m := Member(a[p.pos..at], a[at..at + n]);
            && at <= p.read.end && (!IsBig(m.header, c.big) ==> |m.body| <= CONTAINER_MAX_SIZE - BLOCK)
            && (at + n <= p.read.end || (at < p.read.end && CutHeader(a[p.pos..at], c.big).0.BigChunk?))
            && BodiesFit(Members(a, at + n, c.big), c.big, CONTAINER_MAX_SIZE - BLOCK)
  {
    hide CutHeader, HeaderOk, BodyLength;
    MembersCons(a, p.pos, c.big);
    BigBegins(a, p.pos, c.big);
    var rest := Members(a, p.pos + BLOCK + BodyLength(a, p.pos, c.big), c.big);
    assert Members(a, p.pos, c.big)[0].body == a[p.pos + BLOCK..p.pos + BLOCK + BodyLength(a, p.pos, c.big)];
    forall i | 0 <= i < |rest| && !IsBig(rest[i].header, c.big) ensures |rest[i].body| <= CONTAINER_MAX_SIZE - BLOCK {
      assert rest[i] == Members(a, p.pos, c.big)[i + 1];
    }
  }

  lemma SmallBodies(a: Buffer, c: Config)
    requires WellFormed(a, 0, c.big) && c.multi >= 1
    requires BodiesFit(Members(a, 0, c.big), c.big, CONTAINER_MAX_SIZE - BLOCK)
    ensures Legible(a, Start(a, c), c) && Bare(SeenMembers(a, c)) == Members(a, 0, c.big)
  {
    hide WellFormed, Members, Legible, SeenFrom, BodiesFit;
    SmallBodiesFrom(a, Start(a, c), c);
  }

  // A body is expected, and none is seen.
  ghost predicate Missing(m: Member, big: nat) {
    |m.header| == BLOCK && m.body == [] && var (kind, size) := CutHeader(m.header, big); !kind.FileHeader? && size != 0
  }

  // With bodies that fit in a container, no read ends right after the header of one: it is only at the end of the
  // archive that a body can be missing.
  lemma {:induction false} BodiesBeginFrom(a: Buffer, p: Place, c: Config, i: nat)
    requires Legible(a, p, c) && Enough(a, p, true, c) && 1 <= c.multi < CONTAINER_MAX_SIZE / BLOCK
    requires BodiesFit(Bare(SeenFrom(a, p, c)), c.big, CONTAINER_MAX_SIZE)
    requires i < |SeenFrom(a, p, c)| && Missing(SeenFrom(a, p, c)[i].member, c.big)
    ensures i == |SeenFrom(a, p, c)| - 1
    decreases i
  {
    hide CutHeader, See, IsBig, HeaderFits, Missing, Enough;
    if p.pos == |a| {
      NothingSeen(a, p, c);
    } else {
      var s := See(a, p, c);
      SeenCons(a, p, c);
      BareCons(SeenFrom(a, p, c));
      if i == 0 {
        BodyBegins(a, p, c);
        NothingSeen(a, s.next, c);
      } else {
        assert Bare(SeenFrom(a, p, c))[0] == s.seen.member;
        SeeEnough(a, p, true, c);
        RestFits(s.seen.member, Bare(SeenFrom(a, s.next, c)), c.big);
        BodiesBeginFrom(a, s.next, c, i - 1);
      }
    }
  }

  lemma BodiesBegin(a: Buffer, c: Config, i: nat)
    requires Legible(a, Start(a, c), c) && 1 <= c.multi < CONTAINER_MAX_SIZE / BLOCK
    requires BodiesFit(Bare(SeenMembers(a, c)), c.big, CONTAINER_MAX_SIZE)
    requires i < |SeenMembers(a, c)| && Missing(Bare(SeenMembers(a, c))[i], c.big)
    ensures i == |SeenMembers(a, c)| - 1
  {
    hide Legible, SeenFrom, BodiesFit, Missing;
    BodiesBeginFrom(a, Start(a, c), c, i);
  }

  lemma RestFits(m: Member, rest: seq<Member>, big: nat)
    requires BodiesFit([m] + rest, big, CONTAINER_MAX_SIZE)
    ensures BodiesFit(rest, big, CONTAINER_MAX_SIZE)
  {
    hide IsBig;
    forall i | 0 <= i < |rest| && !IsBig(rest[i].header, big) ensures |rest[i].body| <= CONTAINER_MAX_SIZE {
      assert ([m] + rest)[i + 1] == rest[i];
    }
  }

  lemma BodyBegins(a: Buffer, p: Place, c: Config)
    requires HeaderFits(a, p, c) && Enough(a, p, true, c) && 1 <= c.multi < CONTAINER_MAX_SIZE / BLOCK
    requires Missing(See(a, p, c).seen.member, c.big)
    ensures See(a, p, c).next.pos == |a|
  {
    hide CutHeader, BigReads, Again;
    RoundUpHolds(CutHeader(a[p.pos..p.pos + BLOCK], c.big).1);
  }
}
