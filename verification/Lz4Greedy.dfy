// What LZ4_compress_fast finds, as a function of its input: the positions the search looks at, the first of them whose
// table entry is a match, and the sequences that come of it. The block is then determined, byte by byte.
module Lz4Greedy {
  import opened Bytes
  import opened Lz4Format

  const MAX_INPUT_SIZE: nat := 0x7E000000
  const LIMIT_64K: nat := 0x10000 + (MFLIMIT - 1)
  const MIN_LENGTH: nat := MFLIMIT + 1
  const SKIP_STEPS: nat := 64        // 1 << LZ4_skipTrigger
  const ACCELERATION_MAX: nat := 65537

  datatype TableType = ByU32 | ByU16

  // The table takes 16 KB, whatever the width of its entries.
  function HashEntries(tableType: TableType): nat {
    if tableType.ByU16? then 8192 else 4096
  }

  // ---------------------------------------------------------------------------------------------
  // Bytes that are the same
  // ---------------------------------------------------------------------------------------------

  // The len bytes at m and at p are the same.
  predicate Same(src: Buffer, m: nat, p: nat, len: nat)
    requires m <= p && p + len <= |src|
  {
    src[m..m + len] == src[p..p + len]
  }

  lemma SameAt(src: Buffer, m: nat, p: nat, len: nat, k: nat)
    requires m <= p && p + len <= |src| && k < len
    requires Same(src, m, p, len)
    ensures src[m + k] == src[p + k]
  {
    assert src[m + k] == src[m..m + len][k] == src[p..p + len][k] == src[p + k];
  }

  lemma EmptySame(src: Buffer, m: nat, p: nat)
    requires m <= p <= |src|
    ensures Same(src, m, p, 0)
  {
  }

  lemma Extend(src: Buffer, m: nat, p: nat, r: nat, more: nat)
    requires m <= p && p + r + more <= |src|
    requires Same(src, m, p, r) && Same(src, m + r, p + r, more)
    ensures Same(src, m, p, r + more)
  {
    assert src[m..m + r + more] == src[m..m + r] + src[m + r..m + r + more];
    assert src[p..p + r + more] == src[p..p + r] + src[p + r..p + r + more];
  }

  lemma ExtendOne(src: Buffer, m: nat, p: nat, r: nat)
    requires m <= p && p + r < |src|
    requires Same(src, m, p, r) && src[m + r] == src[p + r]
    ensures Same(src, m, p, r + 1)
  {
    assert src[m..m + r + 1] == src[m..m + r] + [src[m + r]];
    assert src[p..p + r + 1] == src[p..p + r] + [src[p + r]];
  }

  lemma SamePrefix(src: Buffer, m: nat, p: nat, len: nat, less: nat)
    requires m <= p && p + len <= |src| && less <= len && Same(src, m, p, len)
    ensures Same(src, m, p, less)
  {
    assert src[m..m + less] == src[m..m + len][..less];
    assert src[p..p + less] == src[p..p + len][..less];
  }

  lemma ExtendFront(src: Buffer, m: nat, p: nat, len: nat)
    requires 0 < m <= p && p + len <= |src|
    requires Same(src, m, p, len) && src[m - 1] == src[p - 1]
    ensures Same(src, m - 1, p - 1, len + 1)
  {
    assert src[m - 1..m] == [src[m - 1]] == [src[p - 1]] == src[p - 1..p];
    Extend(src, m - 1, p - 1, 1, len);
  }

  // ---------------------------------------------------------------------------------------------
  // The search
  // ---------------------------------------------------------------------------------------------

  // LZ4_hashPosition is only known to depend on the position; the table has a fixed number of entries.
  function Bucket(hash: nat -> nat, p: nat, tableType: TableType): (h: nat)
    ensures h < HashEntries(tableType)
  {
    hash(p) % HashEntries(tableType)
  }

  // The indices of an input of this size are stored exactly, and no two of them are too far apart for 16 bits.
  predicate Fits(n: nat, tableType: TableType) {
    n <= MAX_INPUT_SIZE && (tableType.ByU16? ==> n < LIMIT_64K)
  }

  // What a search depends on besides its input.
  datatype Finder = Finder(hash: nat -> nat, tableType: TableType, acceleration: nat)

  ghost predicate FinderOk(f: Finder, src: Buffer, table: seq<nat>) {
    f.acceleration >= 1 && |table| == HashEntries(f.tableType) && Fits(|src|, f.tableType)
  }

  // The distance from the i-th position looked at to the next: one at first, and one more every 64 steps.
  function Stride(f: Finder, i: nat): (n: nat)
    ensures f.acceleration >= 1 ==> n >= 1
  {
    if i == 0 then 1 else (f.acceleration * SKIP_STEPS + i - 1) / SKIP_STEPS
  }

  function Probe(f: Finder, start: nat, i: nat): (p: nat)
    ensures p >= start
  {
    if i == 0 then start else Probe(f, start, i - 1) + Stride(f, i - 1)
  }

  // The first position is the one after; then, up to the 64th, each is `acceleration` further.
  lemma {:induction false} ProbeIs(f: Finder, start: nat, i: nat)
    requires i <= 1 + SKIP_STEPS
    ensures Probe(f, start, i) == start + if i == 0 then 0 else 1 + f.acceleration * (i - 1)
  {
    if i > 0 {
      ProbeIs(f, start, i - 1);
      if i > 1 {
        assert Stride(f, i - 1) == f.acceleration;
        assert f.acceleration * (i - 1) == f.acceleration * (i - 2) + f.acceleration;
      }
    }
  }

  // The table when the i-th position is looked at: those before it are entered.
  function Entered(f: Finder, table: seq<nat>, start: nat, i: nat): (t: seq<nat>)
    requires |table| == HashEntries(f.tableType)
    ensures |t| == |table|
  {
    if i == 0 then table
    else
      var p := Probe(f, start, i - 1);
      Entered(f, table, start, i - 1)[Bucket(f.hash, p, f.tableType) := p]
  }

  // Four bytes are the same, and not too far back.
  predicate Matches(src: Buffer, f: Finder, m: nat, p: nat) {
    m < p && p + MINMATCH <= |src| && (f.tableType == ByU16 || p <= m + DISTANCE_MAX) && Same(src, m, p, MINMATCH)
  }

  function Candidate(f: Finder, table: seq<nat>, start: nat, i: nat): nat
    requires |table| == HashEntries(f.tableType)
  {
    Entered(f, table, start, i)[Bucket(f.hash, Probe(f, start, i), f.tableType)]
  }

  // The i-th position is looked at only if the next one is not past the last where a match may start.
  predicate InReach(src: Buffer, f: Finder, start: nat, i: nat) {
    Probe(f, start, i + 1) + MFLIMIT <= |src| + 1
  }

  datatype Hit = NoHit | Hit(p: nat, m: nat, table: seq<nat>)

  // The first hit from the i-th position on.
  ghost function Search(src: Buffer, f: Finder, table: seq<nat>, start: nat, i: nat): (h: Hit)
    requires FinderOk(f, src, table)
    ensures h.Hit? ==> start <= h.p && h.p + MFLIMIT <= |src| && Matches(src, f, h.m, h.p) && |h.table| == |table|
    decreases |src| + 1 - Probe(f, start, i)
  {
    if !InReach(src, f, start, i) then NoHit
    else
      var p, m := Probe(f, start, i), Candidate(f, table, start, i);
      if Matches(src, f, m, p) then Hit(p, m, Entered(f, table, start, i + 1)) else Search(src, f, table, start, i + 1)
  }

  ghost predicate Misses(src: Buffer, f: Finder, table: seq<nat>, start: nat, i: nat)
    requires |table| == HashEntries(f.tableType)
  {
    InReach(src, f, start, i) && !Matches(src, f, Candidate(f, table, start, i), Probe(f, start, i))
  }

  // Positions that miss are passed over.
  lemma {:induction false} SearchPast(src: Buffer, f: Finder, table: seq<nat>, start: nat, n: nat)
    requires FinderOk(f, src, table) && forall j :: 0 <= j < n ==> Misses(src, f, table, start, j)
    ensures Search(src, f, table, start, 0) == Search(src, f, table, start, n)
  {
    hide Matches, Candidate, Entered, InReach;
    if n > 0 {
      SearchPast(src, f, table, start, n - 1);
      assert Misses(src, f, table, start, n - 1);
    }
  }

  // A search finds the first position, in the order they are looked at, whose entry is a match, and that entry.
  lemma SearchIs(src: Buffer, f: Finder, table: seq<nat>, start: nat, n: nat)
    requires FinderOk(f, src, table) && forall j :: 0 <= j < n ==> Misses(src, f, table, start, j)
    requires !Misses(src, f, table, start, n)
    ensures Search(src, f, table, start, 0)
            == if InReach(src, f, start, n)
               then Hit(Probe(f, start, n), Candidate(f, table, start, n), Entered(f, table, start, n + 1))
               else NoHit
  {
    hide Entered, Probe, Matches;
    SearchPast(src, f, table, start, n);
  }

  // ---------------------------------------------------------------------------------------------
  // The sequences
  // ---------------------------------------------------------------------------------------------

  // How far a match extends backwards, down to the anchor.
  function Back(src: Buffer, m: nat, p: nat, anchor: nat): (n: nat)
    requires m < p <= |src| && anchor <= p
    ensures n <= m && n <= p - anchor
    ensures n > 0 ==> src[m - n] == src[p - n]
  {
    if p > anchor && m > 0 && src[p - 1] == src[m - 1] then 1 + Back(src, m - 1, p - 1, anchor) else 0
  }

  // The length of the common run, up to a limit.
  function Common(src: Buffer, m: nat, p: nat, limit: nat): (n: nat)
    requires m <= p <= limit <= |src|
    ensures p + n <= limit && (p < limit && src[m] == src[p] ==> n > 0)
    decreases limit - p
  {
    if p < limit && src[m] == src[p] then 1 + Common(src, m + 1, p + 1, limit) else 0
  }

  // The output so far renders sequences that describe the input up to anchor.
  predicate Emitted(out: Buffer, seqs: seq<Sequence>, src: Buffer, anchor: nat) {
    && Valid(seqs) && Restricted(seqs, |src|) && out == RenderAll(seqs)
    && anchor <= |src| && Expand(seqs) == src[..anchor]
  }

  // The sequence that covers the input from anchor to ip + len with a match at m.
  function Covering(src: Buffer, anchor: nat, ip: nat, m: nat, len: nat): (q: Sequence)
    requires anchor <= ip <= |src| && m < ip
  {
    Sequence(src[anchor..ip], ip - m, len)
  }

  lemma MatchIsCopy(src: Buffer, ip: nat, m: nat, len: nat)
    requires m < ip && ip + len <= |src| && Same(src, m, ip, len)
    ensures CopyMatch(src[..ip], ip - m, len) == src[..ip + len]
  {
    var s := src[..ip + len];
    forall k | ip <= k < |s| ensures s[k] == s[k - (ip - m)] {
      SameAt(src, m, ip, len, k - ip);
    }
    assert s[..ip] == src[..ip];
    CopyMatchUnique(src[..ip], ip - m, len, s);
  }

  lemma AppendSequence(seqs: seq<Sequence>, q: Sequence, n: nat)
    requires Valid(seqs) && Encodable(q) && q.offset <= |Expand(seqs)| + |q.literals|
    requires Restricted(seqs, n)
    ensures Valid(seqs + [q])
    ensures Expand(seqs + [q]) == CopyMatch(Expand(seqs) + q.literals, q.offset, q.matchLength)
    ensures RenderAll(seqs + [q]) == RenderAll(seqs) + Render(q)
    ensures Restricted(seqs + [q], n) <==>
            |Expand(seqs)| + |q.literals| + MFLIMIT <= n && |Expand(seqs + [q])| + LASTLITERALS <= n
  {
    hide CopyMatch, Render;
    assert (seqs + [q])[..|seqs|] == seqs;
  }

  lemma Emit(out: Buffer, seqs: seq<Sequence>, src: Buffer, anchor: nat, ip: nat, m: nat, len: nat)
    requires Emitted(out, seqs, src, anchor)
    requires anchor <= ip && ip + MFLIMIT <= |src| && ip + len + LASTLITERALS <= |src|
    requires m < ip <= m + DISTANCE_MAX && len >= MINMATCH && Same(src, m, ip, len)
    ensures var q := Covering(src, anchor, ip, m, len);
            Encodable(q) && (Emitted(out + Render(q), seqs + [q], src, ip + len) <==> true)
  {
    hide CopyMatch, Render, RenderAll, Expand, Valid, Restricted, Same;
    var q := Covering(src, anchor, ip, m, len);
    assert src[..anchor] + src[anchor..ip] == src[..ip];
    AppendSequence(seqs, q, |src|);
    MatchIsCopy(src, ip, m, len);
  }

  // What the search gives the encoder: a match after the anchor, far enough from the end.
  predicate Findable(src: Buffer, f: Finder, anchor: nat, p: nat, m: nat) {
    anchor <= p && p + MFLIMIT <= |src| && Matches(src, f, m, p)
  }

  // After a match: the position two before its end is entered, then its end.
  function EnteredAt(f: Finder, table: seq<nat>, anchor: nat): (t: seq<nat>)
    requires |table| == HashEntries(f.tableType) && anchor >= 2
    ensures |t| == |table|
  {
    table[Bucket(f.hash, anchor - 2, f.tableType) := anchor - 2]
  }

  function NextTable(f: Finder, table: seq<nat>, anchor: nat): (t: seq<nat>)
    requires |table| == HashEntries(f.tableType) && anchor >= 2
    ensures |t| == |table|
  {
    EnteredAt(f, table, anchor)[Bucket(f.hash, anchor, f.tableType) := anchor]
  }

  // The next match from the anchor on: right there, if the entry of that position is one; else the search goes on.
  ghost function NextHit(src: Buffer, f: Finder, table: seq<nat>, anchor: nat): (h: Hit)
    requires FinderOk(f, src, table)
    ensures h.Hit? ==> Findable(src, f, anchor, h.p, h.m) && |h.table| == |table|
  {
    if anchor < 2 then Search(src, f, table, 1, 0)
    else if anchor + MFLIMIT > |src| then NoHit
    else
      var m := EnteredAt(f, table, anchor)[Bucket(f.hash, anchor, f.tableType)];
      var t := NextTable(f, table, anchor);
      if Matches(src, f, m, anchor) then Hit(anchor, m, t) else Search(src, f, t, anchor + 1, 0)
  }

  // The sequence of a match: extended backwards, and as long as it can be.
  function MatchStart(src: Buffer, f: Finder, anchor: nat, p: nat, m: nat): (ip: nat)
    requires Findable(src, f, anchor, p, m)
    ensures anchor <= ip <= p && p - ip <= m
  {
    p - Back(src, m, p, anchor)
  }

  function MatchEnd(src: Buffer, f: Finder, anchor: nat, p: nat, m: nat): (end: nat)
    requires Findable(src, f, anchor, p, m)
    ensures anchor < end && end + LASTLITERALS <= |src|
  {
    var b := Back(src, m, p, anchor);
    SameAt(src, m, p, MINMATCH, 0);
    p - b + Common(src, m - b, p - b, |src| - LASTLITERALS)
  }

  function Found(src: Buffer, f: Finder, anchor: nat, p: nat, m: nat): Sequence
    requires Findable(src, f, anchor, p, m)
  {
    var ip := MatchStart(src, f, anchor, p, m);
    Covering(src, anchor, ip, m - (p - ip), MatchEnd(src, f, anchor, p, m) - ip)
  }

  // All sequences from the anchor on.
  ghost function Greedy(src: Buffer, f: Finder, table: seq<nat>, anchor: nat): seq<Sequence>
    requires FinderOk(f, src, table)
    decreases |src| - anchor
  {
    match NextHit(src, f, table, anchor)
    case NoHit => []
    case Hit(p, m, t) => [Found(src, f, anchor, p, m)] + Greedy(src, f, t, MatchEnd(src, f, anchor, p, m))
  }

  // ---------------------------------------------------------------------------------------------
  // They describe the input
  // ---------------------------------------------------------------------------------------------

  // The length of the common run is decided by where it ends.
  lemma {:induction false} CommonIs(src: Buffer, m: nat, p: nat, limit: nat, n: nat)
    requires m <= p && p + n <= limit <= |src| && Same(src, m, p, n)
    requires p + n == limit || src[m + n] != src[p + n]
    ensures Common(src, m, p, limit) == n
    decreases n
  {
    if n > 0 {
      SameAt(src, m, p, n, 0);
      SameTail(src, m, p, n);
      CommonIs(src, m + 1, p + 1, limit, n - 1);
    }
  }

  lemma SameTail(src: Buffer, m: nat, p: nat, n: nat)
    requires m <= p && 0 < n && p + n <= |src| && Same(src, m, p, n)
    ensures Same(src, m + 1, p + 1, n - 1)
  {
    assert src[m + 1..m + n] == src[m..m + n][1..];
    assert src[p + 1..p + n] == src[p..p + n][1..];
  }

  lemma {:induction false} CommonSame(src: Buffer, m: nat, p: nat, limit: nat)
    requires m <= p <= limit <= |src|
    ensures var n := Common(src, m, p, limit);
            Same(src, m, p, n) && (p + n == limit || src[m + n] != src[p + n])
    decreases limit - p
  {
    hide Same;
    if p < limit && src[m] == src[p] {
      CommonSame(src, m + 1, p + 1, limit);
      ExtendFront(src, m + 1, p + 1, Common(src, m + 1, p + 1, limit));
    } else {
      EmptySame(src, m, p);
    }
  }

  // Going back, bytes are the same; and the run goes on to where it was found, and four bytes more.
  lemma {:induction false} BackSame(src: Buffer, m: nat, p: nat, anchor: nat, len: nat)
    requires m < p && anchor <= p && p + len <= |src| && Same(src, m, p, len)
    ensures var b := Back(src, m, p, anchor);
            Same(src, m - b, p - b, b + len)
    decreases m
  {
    hide Same;
    if p > anchor && m > 0 && src[p - 1] == src[m - 1] {
      ExtendFront(src, m, p, len);
      BackSame(src, m - 1, p - 1, anchor, len + 1);
    }
  }

  lemma {:induction false} CommonAtLeast(src: Buffer, m: nat, p: nat, limit: nat, n: nat)
    requires m <= p && p + n <= limit <= |src| && Same(src, m, p, n)
    ensures Common(src, m, p, limit) >= n
    decreases n
  {
    if n > 0 {
      SameAt(src, m, p, n, 0);
      SameTail(src, m, p, n);
      CommonAtLeast(src, m + 1, p + 1, limit, n - 1);
    }
  }

  // What is known of the sequence of a match.
  lemma FoundIs(src: Buffer, f: Finder, anchor: nat, p: nat, m: nat)
    requires Findable(src, f, anchor, p, m) && Fits(|src|, f.tableType)
    ensures var ip, end := MatchStart(src, f, anchor, p, m), MatchEnd(src, f, anchor, p, m);
            var m' := m - (p - ip);
            && m' < ip <= m' + DISTANCE_MAX && ip + MINMATCH <= p + MINMATCH <= end
            && Same(src, m', ip, end - ip)
            && (end + LASTLITERALS == |src| || src[m' + (end - ip)] != src[end])
  {
    hide Same, Back, Common;
    var b := Back(src, m, p, anchor);
    BackSame(src, m, p, anchor, MINMATCH);
    CommonAtLeast(src, m - b, p - b, |src| - LASTLITERALS, b + MINMATCH);
    CommonSame(src, m - b, p - b, |src| - LASTLITERALS);
  }

  lemma FoundEmits(src: Buffer, f: Finder, seqs: seq<Sequence>, anchor: nat, p: nat, m: nat)
    requires Findable(src, f, anchor, p, m) && Fits(|src|, f.tableType)
    requires Valid(seqs) && Emitted(RenderAll(seqs), seqs, src, anchor)
    ensures var all := seqs + [Found(src, f, anchor, p, m)];
            Valid(all) && (Emitted(RenderAll(all), all, src, MatchEnd(src, f, anchor, p, m)) <==> true)
  {
    hide Same, MatchStart, MatchEnd, Render, RenderAll, Expand, Valid, Restricted, Findable, CopyMatch;
    FoundIs(src, f, anchor, p, m);
    var ip := MatchStart(src, f, anchor, p, m);
    var len := MatchEnd(src, f, anchor, p, m) - ip;
    FindableEnds(src, f, anchor, p, m);
    Emit(RenderAll(seqs), seqs, src, anchor, ip, m - (p - ip), len);
  }

  lemma FindableEnds(src: Buffer, f: Finder, anchor: nat, p: nat, m: nat)
    requires Findable(src, f, anchor, p, m)
    ensures anchor <= MatchStart(src, f, anchor, p, m) <= p && p + MFLIMIT <= |src|
    ensures MatchEnd(src, f, anchor, p, m) + LASTLITERALS <= |src|
  {
  }

  // With all the sequences that follow, the input up to the last literals is described.
  lemma {:induction false} GreedyEmits(src: Buffer, f: Finder, table: seq<nat>, seqs: seq<Sequence>, anchor: nat)
    requires FinderOk(f, src, table) && Valid(seqs) && Emitted(RenderAll(seqs), seqs, src, anchor)
    ensures var all := seqs + Greedy(src, f, table, anchor);
            Valid(all) && (Emitted(RenderAll(all), all, src, |Expand(all)|) <==> true)
    decreases |src| - anchor
  {
    hide NextHit, Found, MatchEnd, RenderAll, Expand, Restricted, Findable, Valid;
    match NextHit(src, f, table, anchor)
    case NoHit =>
      assert seqs + [] == seqs;
      EmittedUpTo(seqs, src, anchor);
    case Hit(p, m, t) =>
      var q, end := Found(src, f, anchor, p, m), MatchEnd(src, f, anchor, p, m);
      FoundEmits(src, f, seqs, anchor, p, m);
      GreedyEmits(src, f, t, seqs + [q], end);
      assert seqs + [q] + Greedy(src, f, t, end) == seqs + ([q] + Greedy(src, f, t, end));
  }

  lemma EmittedUpTo(seqs: seq<Sequence>, src: Buffer, anchor: nat)
    requires Valid(seqs) && Emitted(RenderAll(seqs), seqs, src, anchor)
    ensures |Expand(seqs)| == anchor
  {
  }

  lemma {:induction false} ExtraShape(v: nat)
    ensures Extra(v) == seq(v / 255, _ => 255 as byte) + [v % 255]
    decreases v
  {
    if v >= 255 {
      ExtraShape(v - 255);
      assert v / 255 == (v - 255) / 255 + 1 && v % 255 == (v - 255) % 255;
      assert seq(v / 255, _ => 255 as byte) == [255 as byte] + seq((v - 255) / 255, _ => 255 as byte);
    }
  }

  lemma LengthBytesAre(v: nat)
    ensures LengthBytes(v) == if v < 15 then [] else seq((v - 15) / 255, _ => 255 as byte) + [(v - 15) % 255]
  {
    hide Extra;
    if v >= 15 {
      ExtraShape(v - 15);
    }
  }

  // ---------------------------------------------------------------------------------------------
  // The block
  // ---------------------------------------------------------------------------------------------

  // The table before the first search: all zero, with the first position entered.
  function FirstTable(f: Finder): (t: seq<nat>)
    ensures |t| == HashEntries(f.tableType)
  {
    seq(HashEntries(f.tableType), _ => 0)[Bucket(f.hash, 0, f.tableType) := 0]
  }

  ghost function Parsed(src: Buffer, f: Finder): (all: seq<Sequence>)
    requires f.acceleration >= 1 && Fits(|src|, f.tableType)
    ensures Valid(all) && (Emitted(RenderAll(all), all, src, |Expand(all)|) <==> true)
  {
    NothingEmitted(src);
    if |src| < MIN_LENGTH then [] else
      GreedyEmits(src, f, FirstTable(f), [], 0);
      assert [] + Greedy(src, f, FirstTable(f), 0) == Greedy(src, f, FirstTable(f), 0);
      Greedy(src, f, FirstTable(f), 0)
  }

  lemma NothingEmitted(src: Buffer)
    ensures RenderAll([]) == Expand([]) == [] && (Emitted([], [], src, 0) <==> true)
  {
  }

  // The one block that is written for the input.
  ghost function Compressed(src: Buffer, f: Finder): Buffer
    requires f.acceleration >= 1 && Fits(|src|, f.tableType)
  {
    var all := Parsed(src, f);
    RenderAll(all) + RenderLast(src[|Expand(all)|..])
  }

  lemma CompressedIsBlock(src: Buffer, f: Finder)
    requires f.acceleration >= 1 && Fits(|src|, f.tableType)
    ensures IsBlockFor(Compressed(src, f), src) <==> true
  {
    hide Parsed, RenderAll, RenderLast, Expand, Restricted, IsBlockFor, Valid;
    var all := Parsed(src, f);
    var n := |Expand(all)|;
    assert src == src[..n] + src[n..];
    RenderedIsBlock(all, src[n..]);
  }

  // What comes before is part of the whole, and at least six bytes follow a match.
  lemma {:induction false} RenderedGrows(seqs: seq<Sequence>, more: seq<Sequence>)
    requires Valid(seqs + more)
    ensures Valid(seqs) && |RenderAll(seqs)| <= |RenderAll(seqs + more)|
    decreases |more|
  {
    hide Expand, Render;
    if more == [] {
      assert seqs + more == seqs;
    } else {
      var n := |more| - 1;
      assert (seqs + more)[..|seqs| + n] == seqs + more[..n];
      RenderedGrows(seqs, more[..n]);
    }
  }

  lemma CompressedAtLeast(src: Buffer, f: Finder, seqs: seq<Sequence>, q: Sequence, more: seq<Sequence>)
    requires f.acceleration >= 1 && Fits(|src|, f.tableType) && Parsed(src, f) == seqs + [q] + more
    ensures Valid(seqs) && Encodable(q) && |Compressed(src, f)| >= |RenderAll(seqs)| + |Render(q)| + 1 + LASTLITERALS
  {
    hide Parsed, Render, RenderLast, Restricted, Expand;
    var all := Parsed(src, f);
    RenderedGrows(seqs + [q], more);
    LastOf(seqs, q);
    LastLiteralsAre(src, all);
    RenderLastSize(src[|Expand(all)|..]);
  }

  lemma LastOf(seqs: seq<Sequence>, q: Sequence)
    requires Valid(seqs + [q])
    ensures Valid(seqs) && Encodable(q) && RenderAll(seqs + [q]) == RenderAll(seqs) + Render(q)
  {
    hide Render, Expand;
    assert (seqs + [q])[..|seqs|] == seqs;
  }

  lemma LastLiteralsAre(src: Buffer, all: seq<Sequence>)
    requires Valid(all) && all != [] && Emitted(RenderAll(all), all, src, |Expand(all)|)
    ensures |Expand(all)| + LASTLITERALS <= |src|
  {
    hide Expand, RenderAll;
  }

  lemma RenderLastSize(literals: Buffer)
    ensures |RenderLast(literals)| >= 1 + |literals|
  {
  }

  // ---------------------------------------------------------------------------------------------
  // A repeated byte
  // ---------------------------------------------------------------------------------------------

  // The block for n times the byte v: one literal, one match of all but the last five bytes, one byte back, and those.
  function RunBlock(v: byte, n: nat): Buffer
    requires n >= 13
  {
    [16 + if n - 10 < 15 then n - 10 else 15, v, 1, 0]
    + (if n - 10 < 15 then [] else seq((n - 25) / 255, _ => 255) + [(n - 25) % 255])
    + [0x50, v, v, v, v, v]
  }

  // Whatever the hash and the acceleration, the first position looked at matches: the table holds nothing but zeros.
  lemma FirstHitOfRun(src: Buffer, f: Finder, v: byte)
    requires f.acceleration >= 1 && Fits(|src|, f.tableType) && |src| >= 13
    requires forall k :: 0 <= k < |src| ==> src[k] == v
    ensures var h := NextHit(src, f, FirstTable(f), 0);
            h.Hit? && h.p == 1 && h.m == 0
  {
    var t := FirstTable(f);
    assert forall k :: 0 <= k < |t| ==> t[k] == 0;
    assert Probe(f, 1, 0) == 1 && Probe(f, 1, 1) == 2;
    assert Candidate(f, t, 1, 0) == 0;
    assert Same(src, 0, 1, MINMATCH);
  }

  lemma RunIsFound(src: Buffer, f: Finder, v: byte)
    requires f.acceleration >= 1 && Fits(|src|, f.tableType) && |src| >= 13
    requires forall k :: 0 <= k < |src| ==> src[k] == v
    ensures Findable(src, f, 0, 1, 0) && MatchEnd(src, f, 0, 1, 0) == |src| - LASTLITERALS
    ensures Found(src, f, 0, 1, 0) == Sequence([v], 1, |src| - 6)
  {
    assert Same(src, 0, 1, MINMATCH);
    assert Same(src, 0, 1, |src| - 6);
    CommonIs(src, 0, 1, |src| - LASTLITERALS, |src| - 6);
    assert src[0..1] == [v];
  }

  lemma RunIs(src: Buffer, f: Finder, v: byte)
    requires f.acceleration >= 1 && Fits(|src|, f.tableType) && |src| >= 13
    requires forall k :: 0 <= k < |src| ==> src[k] == v
    ensures Compressed(src, f) == RunBlock(v, |src|)
  {
    hide Found, MatchEnd, Findable, NextHit, FirstTable, RenderLast, Expand;
    var q := Sequence([v], 1, |src| - 6);
    FirstHitOfRun(src, f, v);
    RunIsFound(src, f, v);
    var t := NextHit(src, f, FirstTable(f), 0).table;
    NearTheEnd(src, f, t, |src| - LASTLITERALS);
    assert Greedy(src, f, t, |src| - LASTLITERALS) == [];
    assert Parsed(src, f) == [q];
    RunRendered(v, |src|, q);
    assert src[|src| - LASTLITERALS..] == [v, v, v, v, v];
  }

  lemma NearTheEnd(src: Buffer, f: Finder, table: seq<nat>, anchor: nat)
    requires FinderOk(f, src, table) && 2 <= anchor && anchor + MFLIMIT > |src|
    ensures NextHit(src, f, table, anchor).NoHit?
  {
  }

  lemma RunRendered(v: byte, n: nat, q: Sequence)
    requires n >= 13 && q == Sequence([v], 1, n - 6)
    ensures Valid([q]) && |Expand([q])| == n - LASTLITERALS
    ensures RenderAll([q]) + RenderLast([v, v, v, v, v]) == RunBlock(v, n)
  {
    hide CopyMatch;
    assert [q][..0] == [];
    LengthBytesAre(n - 10);
  }
}
