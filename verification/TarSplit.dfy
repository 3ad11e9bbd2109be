// What the tar-aware chunker makes of the members it sees: the pieces, in the order they are pushed.
module TarSplit {
  import opened Bytes
  import opened Packing
  import opened Tar
  import opened TarReads
  import FastCdc
  import Words

  // What is pushed into the queue: a group of header blocks, or a chunk of data.
  datatype Piece = Piece(bytes: Buffer, headerFlag: bool, cdcFlag: bool)

  // A big body is cut by FastCDC, until what is left is no larger than a chunk may be.
  ghost function BigCuts(body: Buffer, normal: nat): (cuts: seq<Buffer>)
    ensures cuts != []
  {
    if |body| <= FastCdc.MAX_CHUNK_SIZE then [body]
    else
      var n := FastCdc.CutLength(body, normal);
      [body[..n]] + BigCuts(body[n..], normal)
  }

  // Another body is one chunk, unless it is empty.
  ghost function BodyCuts(m: Member, c: Config): seq<Buffer> {
    if m.body == [] then [] else if IsBig(m.header, c.big) then BigCuts(m.body, c.normal) else [m.body]
  }

  ghost function AllCuts(members: seq<Member>, c: Config): seq<seq<Buffer>> {
    seq(|members|, i requires 0 <= i < |members| => BodyCuts(members[i], c))
  }

  ghost function DataPieces(cuts: seq<Buffer>, cdcFlag: bool): seq<Piece> {
    seq(|cuts|, i requires 0 <= i < |cuts| => Piece(cuts[i], false, cdcFlag))
  }

  lemma NoPieces(queue: seq<Piece>, cdcFlag: bool)
    ensures queue + DataPieces([], cdcFlag) == queue
  {
  }

  function Group(headers: Buffer): Piece {
    Piece(headers, true, false)
  }

  // The pieces so far, and the header blocks of the group that is still open.
  datatype Gathered = Gathered(queue: seq<Piece>, open: Buffer)

  // A group ends with the header of a big body, before the body, or after the body of the last header it has room for
  // or of the last one in the buffer.
  ghost function Next(g: Gathered, s: Seen, c: Config): Gathered {
    var m := s.member;
    var open, body := g.open + m.header, DataPieces(BodyCuts(m, c), IsBig(m.header, c.big));
    if IsBig(m.header, c.big) then Gathered(g.queue + [Group(open)] + body, [])
    else if s.ended || |open| >= BLOCK * c.multi then Gathered(g.queue + body + [Group(open)], [])
    else Gathered(g.queue + body, open)
  }

  ghost function Gather(seen: seq<Seen>, c: Config): Gathered {
    if seen == [] then Gathered([], [])
    else Next(Gather(seen[..|seen| - 1], c), seen[|seen| - 1], c)
  }

  lemma GatherSnoc(done: seq<Seen>, s: Seen, c: Config)
    ensures Gather(done + [s], c) == Next(Gather(done, c), s, c)
  {
    assert (done + [s])[..|done|] == done;
  }

  // All pieces; what is open in the end is a group too.
  ghost function Split(seen: seq<Seen>, c: Config): seq<Piece> {
    var g := Gather(seen, c);
    g.queue + if g.open == [] then [] else [Group(g.open)]
  }

  // The header groups, or the data chunks, among the pieces.
  ghost function Pieces(queue: seq<Piece>, headers: bool): seq<Buffer> {
    if queue == [] then []
    else
      var last := queue[|queue| - 1];
      Pieces(queue[..|queue| - 1], headers) + if last.headerFlag == headers then [last.bytes] else []
  }

  lemma PiecesSnoc(queue: seq<Piece>, piece: Piece, headers: bool)
    ensures Pieces(queue + [piece], headers)
            == Pieces(queue, headers) + if piece.headerFlag == headers then [piece.bytes] else []
  {
    assert (queue + [piece])[..|queue|] == queue;
  }

  lemma OneMorePiece(queue: seq<Piece>, cuts: seq<Buffer>, last: Buffer, cdcFlag: bool)
    ensures queue + DataPieces(cuts + [last], cdcFlag)
            == queue + DataPieces(cuts, cdcFlag) + [Piece(last, false, cdcFlag)]
  {
  }

  lemma {:induction false} PiecesMore(queue: seq<Piece>, cuts: seq<Buffer>, cdcFlag: bool)
    ensures Pieces(queue + DataPieces(cuts, cdcFlag), true) == Pieces(queue, true)
    ensures Pieces(queue + DataPieces(cuts, cdcFlag), false) == Pieces(queue, false) + cuts
  {
    hide DataPieces, Pieces;
    if cuts == [] {
      NoPieces(queue, cdcFlag);
    } else {
      var n := |cuts| - 1;
      PiecesMore(queue, cuts[..n], cdcFlag);
      OneMorePiece(queue, cuts[..n], cuts[n], cdcFlag);
      assert cuts == cuts[..n] + [cuts[n]];
      PiecesSnoc(queue + DataPieces(cuts[..n], cdcFlag), Piece(cuts[n], false, cdcFlag), true);
      PiecesSnoc(queue + DataPieces(cuts[..n], cdcFlag), Piece(cuts[n], false, cdcFlag), false);
    }
  }

  lemma {:induction false} PieceIn(queue: seq<Piece>, headers: bool, bytes: Buffer)
    ensures bytes in Pieces(queue, headers)
            <==> exists k :: 0 <= k < |queue| && queue[k].headerFlag == headers && queue[k].bytes == bytes
  {
    if queue != [] {
      var n := |queue| - 1;
      PieceIn(queue[..n], headers, bytes);
      assert queue == queue[..n] + [queue[n]];
    }
  }

  // What one more member adds to the two streams of pieces.
  lemma NextAdds(g: Gathered, s: Seen, c: Config)
    ensures var g' := Next(g, s, c);
            && Flat(Pieces(g'.queue, true)) + g'.open == Flat(Pieces(g.queue, true)) + g.open + s.member.header
            && Pieces(g'.queue, false) == Pieces(g.queue, false) + BodyCuts(s.member, c)
  {
    hide IsBig, BodyCuts, Flat, Pieces, DataPieces;
    var m := s.member;
    var open, cuts, cdc := g.open + m.header, BodyCuts(m, c), IsBig(m.header, c.big);
    var start := if cdc then g.queue + [Group(open)] else g.queue;
    PiecesMore(start, cuts, cdc);
    PiecesSnoc(g.queue, Group(open), true);
    PiecesSnoc(g.queue, Group(open), false);
    PiecesSnoc(start + DataPieces(cuts, cdc), Group(open), true);
    PiecesSnoc(start + DataPieces(cuts, cdc), Group(open), false);
    FlatSnoc(Pieces(g.queue, true), open);
    assert Flat(Pieces(g.queue, true)) + open == Flat(Pieces(g.queue, true)) + g.open + m.header;
  }

  lemma {:induction false} GatherIs(seen: seq<Seen>, c: Config)
    ensures var g := Gather(seen, c);
            && Flat(Pieces(g.queue, true)) + g.open == HeaderBytes(Bare(seen))
            && Pieces(g.queue, false) == Concat(AllCuts(Bare(seen), c))
  {
    hide Next, BodyCuts, Flat, IsBig;
    if seen == [] {
      NothingFlat();
    } else {
      var n := |seen| - 1;
      var members := Bare(seen[..n]);
      GatherIs(seen[..n], c);
      NextAdds(Gather(seen[..n], c), seen[n], c);
      HeaderBytesSnoc(members, seen[n].member);
      ConcatSnoc(AllCuts(members, c), BodyCuts(seen[n].member, c));
      assert Bare(seen) == members + [seen[n].member];
      assert AllCuts(Bare(seen), c) == AllCuts(members, c) + [BodyCuts(seen[n].member, c)];
    }
  }

  lemma NothingFlat()
    ensures Flat([]) == []
  {
  }

  // The split loses nothing: its groups are the header blocks, its data chunks the pieces of the bodies, both in order.
  lemma SplitIs(seen: seq<Seen>, c: Config)
    ensures Flat(Pieces(Split(seen, c), true)) == HeaderBytes(Bare(seen))
    ensures Pieces(Split(seen, c), false) == Concat(AllCuts(Bare(seen), c))
  {
    hide Gather, Flat, AllCuts, HeaderBytes;
    GatherIs(seen, c);
    var g := Gather(seen, c);
    PiecesSnoc(g.queue, Group(g.open), true);
    PiecesSnoc(g.queue, Group(g.open), false);
    FlatSnoc(Pieces(g.queue, true), g.open);
    assert g.queue + [] == g.queue;
  }

  // Members none of which ends the buffer.
  function Unended(members: seq<Member>): (seen: seq<Seen>)
    ensures Bare(seen) == members
  {
    seq(|members|, i requires 0 <= i < |members| => Seen(members[i], false))
  }

  // Whether the last member ends the buffer does not matter: its group is the last one.
  lemma LastEnded(done: seq<Seen>, m: Member, c: Config)
    requires m.header != []
    ensures Split(done + [Seen(m, true)], c) == Split(done + [Seen(m, false)], c)
  {
    hide Gather, DataPieces, IsBig;
    GatherSnoc(done, Seen(m, true), c);
    GatherSnoc(done, Seen(m, false), c);
  }

  lemma SplitUnended(seen: seq<Seen>, c: Config)
    requires forall i :: 0 <= i < |seen| && seen[i].ended ==> i == |seen| - 1
    requires WholeHeaders(Bare(seen))
    ensures Split(seen, c) == Split(Unended(Bare(seen)), c)
  {
    hide Split;
    if seen == [] {
      assert Unended(Bare(seen)) == seen;
    } else {
      var n := |seen| - 1;
      assert Bare(seen)[n] == seen[n].member;
      LastEnded(seen[..n], seen[n].member, c);
      assert seen == seen[..n] + [Seen(seen[n].member, seen[n].ended)];
      assert Unended(Bare(seen)) == seen[..n] + [Seen(seen[n].member, false)];
    }
  }

  // The split of an archive that fits in the buffer: groups end when they are full or a big body begins, and with it.
  lemma OneReadSplit(a: Buffer, c: Config)
    requires WellFormed(a, 0, c.big) && |a| <= BufferSize(c)
    ensures Split(SeenMembers(a, c), c) == Split(Unended(Members(a, 0, c.big)), c)
  {
    hide SeenFrom, WellFormed, Members, Split, Unended, Legible;
    var seen := SeenMembers(a, c);
    OneRead(a, c);
    HeadersAreWhole(a, 0, c.big);
    forall i | 0 <= i < |seen| && seen[i].ended ensures i == |seen| - 1 {
      EndedIsLast(a, Start(a, c), c, i);
    }
    SplitUnended(seen, c);
  }

  // ---------------------------------------------------------------------------------------------
  // Sizes
  // ---------------------------------------------------------------------------------------------

  // Groups are whole numbers of blocks, and no larger than configured.
  ghost predicate GroupSizes(queue: seq<Piece>, multi: nat) {
    forall k :: 0 <= k < |queue| && queue[k].headerFlag ==>
      0 < |queue[k].bytes| <= BLOCK * multi && |queue[k].bytes| % BLOCK == 0
  }

  ghost predicate ChunkSizes(queue: seq<Piece>, max: nat) {
    forall k :: 0 <= k < |queue| && !queue[k].headerFlag ==> 0 < |queue[k].bytes| <= max
  }

  ghost predicate WholeHeaders(members: seq<Member>) {
    forall i :: 0 <= i < |members| ==> |members[i].header| == BLOCK
  }

  lemma {:induction false} GatherSizes(seen: seq<Seen>, c: Config)
    requires WholeHeaders(Bare(seen)) && c.multi >= 1
    ensures var g := Gather(seen, c);
            && GroupSizes(g.queue, c.multi) && |g.open| < BLOCK * c.multi && |g.open| % BLOCK == 0
  {
    hide BodyCuts, IsBig;
    if seen != [] {
      var n := |seen| - 1;
      BareSnoc(seen, c.big, 0);
      GatherSizes(seen[..n], c);
    }
  }

  // What holds of all members holds of those before the last, and of the last.
  lemma BareSnoc(seen: seq<Seen>, big: nat, max: nat)
    requires seen != []
    ensures var n := |seen| - 1;
            && (WholeHeaders(Bare(seen)) ==> WholeHeaders(Bare(seen[..n])) && |seen[n].member.header| == BLOCK)
            && (BodiesFit(Bare(seen), big, max) ==>
                  BodiesFit(Bare(seen[..n]), big, max)
                  && (!IsBig(seen[n].member.header, big) ==> |seen[n].member.body| <= max))
  {
    hide IsBig;
    var n := |seen| - 1;
    assert Bare(seen)[n] == seen[n].member;
    assert forall k :: 0 <= k < n ==> Bare(seen[..n])[k] == Bare(seen)[k];
  }

  lemma {:induction false} BigCutSizes(body: Buffer, normal: nat)
    requires body != []
    ensures forall k :: 0 <= k < |BigCuts(body, normal)| ==> 0 < |BigCuts(body, normal)[k]| <= FastCdc.MAX_CHUNK_SIZE
    ensures |BigCuts(body, normal)| == 1 <==> |body| <= FastCdc.MAX_CHUNK_SIZE
    decreases |body|
  {
    hide FastCdc.CutLength;
    if |body| > FastCdc.MAX_CHUNK_SIZE {
      BigCutSizes(body[FastCdc.CutLength(body, normal)..], normal);
    }
  }

  lemma {:induction false} BigCutsJoin(body: Buffer, normal: nat)
    ensures Flat(BigCuts(body, normal)) == body
    decreases |body|
  {
    hide FastCdc.CutLength, Flat;
    if |body| > FastCdc.MAX_CHUNK_SIZE {
      var n := FastCdc.CutLength(body, normal);
      BigCutsJoin(body[n..], normal);
      FlatCons([body[..n]] + BigCuts(body[n..], normal));
      assert ([body[..n]] + BigCuts(body[n..], normal))[1..] == BigCuts(body[n..], normal);
      assert body == body[..n] + body[n..];
    } else {
      FlatOne(body);
    }
  }

  lemma {:induction false} GatherChunkSizes(seen: seq<Seen>, c: Config, max: nat)
    requires BodiesFit(Bare(seen), c.big, max) && max >= FastCdc.MAX_CHUNK_SIZE
    ensures ChunkSizes(Gather(seen, c).queue, max)
  {
    hide IsBig, BigCuts;
    if seen != [] {
      var n := |seen| - 1;
      BareSnoc(seen, c.big, max);
      GatherChunkSizes(seen[..n], c, max);
      if seen[n].member.body != [] {
        BigCutSizes(seen[n].member.body, c.normal);
      }
    }
  }

  // Every piece of a split is as large as it may be.
  lemma SplitSizes(seen: seq<Seen>, c: Config, max: nat)
    requires WholeHeaders(Bare(seen)) && c.multi >= 1
    ensures GroupSizes(Split(seen, c), c.multi)
    ensures BodiesFit(Bare(seen), c.big, max) && max >= FastCdc.MAX_CHUNK_SIZE ==> ChunkSizes(Split(seen, c), max)
  {
    hide Gather;
    GatherSizes(seen, c);
    if BodiesFit(Bare(seen), c.big, max) && max >= FastCdc.MAX_CHUNK_SIZE {
      GatherChunkSizes(seen, c, max);
    }
  }

  // Members that nothing closes a group for.
  ghost predicate Ordinary(s: Seen, c: Config) {
    |s.member.header| == BLOCK && !IsBig(s.member.header, c.big) && !s.ended
  }

  // So many full groups, and so many headers in the open one.
  ghost predicate FullGroups(g: Gathered, c: Config, groups: nat, headers: nat) {
    && |g.open| == BLOCK * headers && headers < c.multi && |Pieces(g.queue, true)| == groups
    && forall k :: 0 <= k < groups ==> |Pieces(g.queue, true)[k]| == BLOCK * c.multi
  }

  // Among such members every group is full but the last.
  lemma {:induction false} GroupsAreFull(seen: seq<Seen>, c: Config)
    requires c.multi >= 1 && forall i :: 0 <= i < |seen| ==> Ordinary(seen[i], c)
    ensures FullGroups(Gather(seen, c), c, |seen| / c.multi, |seen| % c.multi)
  {
    hide IsBig, BodyCuts, Pieces, DataPieces, Next, Gather, Ordinary, FullGroups;
    if seen == [] {
      NoHeaders(c);
    } else {
      var n := |seen| - 1;
      GroupsAreFull(seen[..n], c);
      GatherSnoc(seen[..n], seen[n], c);
      assert seen == seen[..n] + [seen[n]];
      OneMoreFull(Gather(seen[..n], c), seen[n], c, n / c.multi, n % c.multi);
      OneMoreOf(n, c.multi);
    }
  }

  lemma OneMoreFull(g: Gathered, s: Seen, c: Config, groups: nat, headers: nat)
    requires Ordinary(s, c) && FullGroups(g, c, groups, headers)
    ensures if headers + 1 == c.multi then FullGroups(Next(g, s, c), c, groups + 1, 0)
            else FullGroups(Next(g, s, c), c, groups, headers + 1)
  {
    hide IsBig, BodyCuts, Pieces, DataPieces, Next;
    NextOrdinary(g, s, c);
  }

  lemma NoHeaders(c: Config)
    ensures c.multi >= 1 ==> FullGroups(Gather([], c), c, 0, 0)
  {
  }

  lemma NextOrdinary(g: Gathered, s: Seen, c: Config)
    requires Ordinary(s, c)
    ensures var g' := Next(g, s, c);
            if |g.open| + BLOCK >= BLOCK * c.multi
            then Pieces(g'.queue, true) == Pieces(g.queue, true) + [g.open + s.member.header] && g'.open == []
            else Pieces(g'.queue, true) == Pieces(g.queue, true) && g'.open == g.open + s.member.header
  {
    hide IsBig, BodyCuts, Pieces, DataPieces;
    var cuts := BodyCuts(s.member, c);
    PiecesMore(g.queue, cuts, false);
    PiecesSnoc(g.queue + DataPieces(cuts, false), Group(g.open + s.member.header), true);
  }

  lemma OneMoreOf(n: nat, m: nat)
    requires m >= 1
    ensures if n % m + 1 == m then (n + 1) % m == 0 && (n + 1) / m == n / m + 1
            else (n + 1) % m == n % m + 1 && (n + 1) / m == n / m
  {
    var q, r := n / m, n % m;
    assert n == q * m + r;
    if r + 1 == m {
      assert n + 1 == (q + 1) * m;
      Words.QuotientIs(n + 1, m, q + 1);
    } else {
      Words.QuotientIs(n + 1, m, q);
    }
  }

  // How a body is cut: into pieces that are not empty and join to it.
  lemma CutsAre(m: Member, c: Config)
    ensures Flat(BodyCuts(m, c)) == m.body
    ensures forall i :: 0 <= i < |BodyCuts(m, c)| ==> BodyCuts(m, c)[i] != []
    ensures BodyCuts(m, c) == [] <==> m.body == []
    ensures !IsBig(m.header, c.big) && m.body != [] ==> BodyCuts(m, c) == [m.body]
    ensures IsBig(m.header, c.big) && m.body != [] ==>
              (|BodyCuts(m, c)| == 1 <==> |m.body| <= FastCdc.MAX_CHUNK_SIZE)
  {
    hide BigCuts, CutHeader, Flat;
    NothingFlat();
    if m.body != [] {
      BigCutSizes(m.body, c.normal);
      BigCutsJoin(m.body, c.normal);
      FlatOne(m.body);
    }
  }
}
