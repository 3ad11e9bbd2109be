// LZ4_compress_fast: the hash-table match finder and the sequence emitter, writing its output in place.
// Pointers are indices: into src for ip, match and anchor, into dst for op and token.
module Lz4Encoder {
  import opened Bytes
  import opened Lz4Format
  import opened Lz4Copies
  import opened Lz4Greedy

  // What becomes of an index stored in the table: entries have 16 or 32 bits.
  function Stored(index: nat, tableType: TableType): nat {
    if tableType.ByU16? then index % 0x1_0000 else index % 0x1_0000_0000
  }

  function CompressBound(n: nat): nat {
    if n > MAX_INPUT_SIZE then 0 else n + n / 255 + 16
  }

  // ---------------------------------------------------------------------------------------------
  // Emitting lengths and literals
  // ---------------------------------------------------------------------------------------------

  // The literal-length loop: 255 while it lasts, then the remainder.
  method PutRun(dst: array<byte>, start: nat, v: nat) returns (op: nat)
    requires start + v / 255 + 1 <= dst.Length
    modifies dst
    ensures op == start + v / 255 + 1
    ensures dst[..op] == old(dst[..start]) + Extra(v)
  {
    op := start;
    var len: nat := v;
    while len >= 255
      invariant start <= op <= dst.Length && len <= v && v == 255 * (op - start) + len
      invariant dst[..start] == old(dst[..start])
      invariant forall k :: start <= k < op ==> dst[k] == 255
    {
      dst[op] := 255;
      op := op + 1;
      len := len - 255;
    }
    dst[op] := len;
    op := op + 1;
    assert dst[..op][..start] == dst[..start];
    RunWritten(dst[..op], old(dst[..start]), v);
  }

  // A run of bytes of 255 at the end of some output, longer than the part of it that will be kept.
  method PutFour(dst: array<byte>, op: nat)
    requires op + 4 <= dst.Length
    modifies dst
    ensures dst[..op] == old(dst[..op])
    ensures forall k :: op <= k < op + 4 ==> dst[k] == 255
  {
    forall k | op <= k < op + 4 { dst[k] := 255; }
  }

  lemma RunWritten(out: Buffer, before: Buffer, v: nat)
    requires |out| == |before| + v / 255 + 1 && out[..|before|] == before
    requires forall k :: |before| <= k < |out| - 1 ==> out[k] == 255
    requires out[|out| - 1] == v % 255
    ensures out == before + Extra(v)
  {
    ExtraShape(v);
    assert out[|before|..] == Extra(v);
    assert out == out[..|before|] + out[|before|..];
  }

  // The match-length loop: four bytes of 255 at a time, ahead of what is needed.
  method PutMatchRun(dst: array<byte>, start: nat, v: nat) returns (op: nat)
    requires start + v / 255 + 4 <= dst.Length
    modifies dst
    ensures op == start + v / 255 + 1
    ensures dst[..op] == old(dst[..start]) + Extra(v)
  {
    hide Extra;
    ghost var before := dst[..start];
    op := start;
    var matchCode: nat := v;
    PutFour(dst, op);
    while matchCode >= 4 * 255
      invariant start <= op && matchCode <= v && v == 255 * (op - start) + matchCode
      invariant op + 4 <= dst.Length && dst[..start] == before
      invariant forall k :: start <= k < op + 4 ==> dst[k] == 255
    {
      ghost var prefix := dst[..op + 4];
      op := op + 4;
      PutFour(dst, op);
      assert dst[..start] == prefix[..start];
      assert forall k :: start <= k < op ==> dst[k] == dst[..op][k];
      matchCode := matchCode - 4 * 255;
    }
    op := op + matchCode / 255;
    dst[op] := matchCode % 255;
    op := op + 1;
    assert dst[..op][..start] == before;
    RunWritten(dst[..op], before, v);
  }

  // ---------------------------------------------------------------------------------------------
  // Output space
  // ---------------------------------------------------------------------------------------------

  // Where the output stands when everything before anchor has been emitted. With a limit, six bytes are kept for the
  // final token and literals; without one, the destination is assumed to hold CompressBound bytes, and the output
  // grows by at most 256 bytes for every 255 consumed.
  predicate HasRoom(limited: bool, olimit: nat, capacity: nat, op: nat, anchor: nat, n: nat) {
    if limited then op <= olimit <= capacity && (anchor > 0 ==> op + 6 <= olimit)
    else n + n / 255 + 16 <= capacity && 255 * op <= 256 * anchor && anchor <= n
  }

  // The number of bytes a length takes beyond its nibble in the token.
  function ExtraBytes(v: nat): (r: nat)
    ensures r == |LengthBytes(v)|
    ensures 255 * r <= v + 240
  {
    if v >= RUN_MASK then (v - RUN_MASK) / 255 + 1 else 0
  }

  method PutLiteralHead(dst: array<byte>, start: nat, len: nat) returns (op: nat)
    requires start + 1 + ExtraBytes(len) <= dst.Length
    modifies dst
    ensures op == start + 1 + ExtraBytes(len)
    ensures dst[..op] == old(dst[..start]) + LiteralHead(len)
  {
    ghost var before := dst[..start];
    op := start + 1;
    if len >= RUN_MASK {
      dst[start] := RUN_MASK * 16;
      assert dst[..op] == before + [16 * Nibble(len)];
      op := PutRun(dst, op, len - RUN_MASK);
    } else {
      dst[start] := len * 16;
    }
  }

  lemma RoomForLiterals(limited: bool, olimit: nat, capacity: nat, start: nat, anchor: nat, len: nat, n: nat)
    requires HasRoom(limited, olimit, capacity, start, anchor, n) && anchor + len + MFLIMIT <= n
    requires limited ==> start + 1 + len + (2 + 1 + LASTLITERALS) + len / 255 <= olimit
    ensures start + 1 + ExtraBytes(len) + len + (if len == 0 then 8 else 7) <= capacity
    ensures limited ==> start + 1 + ExtraBytes(len) + len + 7 <= olimit
  {
  }

  lemma RoomForLast(limited: bool, olimit: nat, capacity: nat, start: nat, anchor: nat, n: nat)
    requires HasRoom(limited, olimit, capacity, start, anchor, n) && anchor <= n
    requires var len := n - anchor; limited ==> start + len + 1 + (len + 255 - RUN_MASK) / 255 <= olimit
    ensures var op := start + 1 + ExtraBytes(n - anchor) + (n - anchor);
            op <= capacity && if limited then op <= olimit else op <= n + n / 255 + 16
  {
  }

  lemma HeadAndLiterals(before: Buffer, literals: Buffer)
    ensures before + LiteralHead(|literals|) + literals == before + RenderLast(literals)
  {
  }

  method EncodeLiterals(src: Buffer, anchor: nat, ip: nat, dst: array<byte>, start: nat, limited: bool, olimit: nat)
    returns (ok: bool, op: nat)
    requires anchor <= ip && ip + MFLIMIT <= |src|
    requires HasRoom(limited, olimit, dst.Length, start, anchor, |src|)
    modifies dst
    ensures !limited ==> ok
    ensures ok ==> op == start + 1 + ExtraBytes(ip - anchor) + (ip - anchor) <= dst.Length
    ensures ok ==> dst[..op] == old(dst[..start]) + RenderLast(src[anchor..ip])
    ensures ok && limited ==> op + 7 <= olimit
    ensures !ok ==> start + 1 + (ip - anchor) + (2 + 1 + LASTLITERALS) + (ip - anchor) / 255 > olimit
  {
    hide LiteralHead, HasRoom, ExtraBytes, RenderLast;
    var litLength := ip - anchor;
    op := start + 1;
    if limited && op + litLength + (2 + 1 + LASTLITERALS) + litLength / 255 > olimit {
      return false, op;
    }
    RoomForLiterals(limited, olimit, dst.Length, start, anchor, litLength, |src|);
    op := PutLiteralHead(dst, start, litLength);
    WildCopyLiterals(src, anchor, dst, op, op + litLength);
    HeadAndLiterals(old(dst[..start]), src[anchor..ip]);
    op := op + litLength;
    ok := true;
  }

  lemma LastSize(literals: Buffer)
    ensures |RenderLast(literals)| == 1 + (|literals| + 255 - RUN_MASK) / 255 + |literals|
  {
  }

  method EncodeLast(src: Buffer, anchor: nat, dst: array<byte>, start: nat, limited: bool, olimit: nat)
    returns (ok: bool, op: nat)
    requires anchor <= |src|
    requires HasRoom(limited, olimit, dst.Length, start, anchor, |src|)
    modifies dst
    ensures !limited ==> ok && op <= |src| + |src| / 255 + 16
    ensures ok ==> start < op <= dst.Length && dst[..op] == old(dst[..start]) + RenderLast(src[anchor..])
    ensures ok && limited ==> op <= olimit
    ensures !ok ==> start + |RenderLast(src[anchor..])| > olimit
  {
    hide LiteralHead, HasRoom, ExtraBytes, RenderLast;
    LastSize(src[anchor..]);
    var lastRun := |src| - anchor;
    op := start;
    if limited && op + lastRun + 1 + (lastRun + 255 - RUN_MASK) / 255 > olimit {
      return false, op;
    }
    RoomForLast(limited, olimit, dst.Length, start, anchor, |src|);
    op := PutLiteralHead(dst, start, lastRun);
    CopyLiterals(src, anchor, dst, op, lastRun);
    assert src[anchor..anchor + lastRun] == src[anchor..];
    HeadAndLiterals(old(dst[..start]), src[anchor..]);
    op := op + lastRun;
    ok := true;
  }

  // ---------------------------------------------------------------------------------------------
  // Finding matches
  // ---------------------------------------------------------------------------------------------

  // The first differing byte of two eight-byte words that differ: LZ4_NbCommonBytes of their exclusive or.
  method CommonBytes(src: Buffer, m: nat, p: nat) returns (r: nat)
    requires m <= p && p + 8 <= |src| && !Same(src, m, p, 8)
    ensures r < 8 && Same(src, m, p, r) && src[m + r] != src[p + r]
  {
    r := 0;
    while src[m + r] == src[p + r]
      invariant r < 8 && Same(src, m, p, r)
      decreases 8 - r
    {
      ExtendOne(src, m, p, r);
      r := r + 1;
    }
  }

  // LZ4_count: the length of the common run of src[m..] and src[p..] before limit, by words, then 4, 2 and 1 bytes.
  method Count(src: Buffer, p: nat, m: nat, limit: nat) returns (r: nat)
    requires m <= p <= limit <= |src|
    ensures p + r <= limit && Same(src, m, p, r)
    ensures p + r < limit ==> src[m + r] != src[p + r]
  {
    EmptySame(src, m, p);
    r := 0;
    var differ := false;
    while !differ && p + r + 7 < limit
      invariant p + r <= limit && Same(src, m, p, r)
      invariant differ ==> p + r < limit && src[m + r] != src[p + r]
      decreases !differ, limit - r
    {
      r, differ := CountWord(src, p, m, r);
    }
    if !differ {
      r := CountTail(src, p, m, limit, r);
    }
  }

  method CountWord(src: Buffer, p: nat, m: nat, start: nat) returns (r: nat, differ: bool)
    requires m <= p && p + start + 8 <= |src| && Same(src, m, p, start)
    ensures start <= r <= start + 8 && Same(src, m, p, r)
    ensures if differ then r < start + 8 && src[m + r] != src[p + r] else r == start + 8
  {
    hide Same;
    if Same(src, m + start, p + start, 8) {
      Extend(src, m, p, start, 8);
      return start + 8, false;
    }
    var common := CommonBytes(src, m + start, p + start);
    Extend(src, m, p, start, common);
    return start + common, true;
  }

  method CountTail(src: Buffer, p: nat, m: nat, limit: nat, start: nat) returns (r: nat)
    requires m <= p && p + start <= limit <= |src| && limit <= p + start + 7
    requires Same(src, m, p, start)
    ensures p + r <= limit && Same(src, m, p, r)
    ensures p + r < limit ==> src[m + r] != src[p + r]
  {
    hide Same;
    r := start;
    ghost var short := p + r + 3 < limit;
    if p + r + 3 < limit && Same(src, m + r, p + r, 4) {
      Extend(src, m, p, r, 4);
      r := r + 4;
      short := false;
    }
    r := CountLastThree(src, p, m, limit, r, short);
  }

  // At most three bytes are left, or the next four are known to differ.
  method CountLastThree(src: Buffer, p: nat, m: nat, limit: nat, start: nat, ghost fourDiffer: bool) returns (r: nat)
    requires m <= p && p + start <= limit <= |src|
    requires if fourDiffer then p + start + 3 < limit && !Same(src, m + start, p + start, 4) else limit <= p + start + 3
    requires Same(src, m, p, start)
    ensures p + r <= limit && Same(src, m, p, r)
    ensures p + r < limit ==> src[m + r] != src[p + r]
  {
    hide Same;
    r := start;
    ghost var twoDiffer := p + r + 1 < limit;
    if p + r + 1 < limit && Same(src, m + r, p + r, 2) {
      Extend(src, m, p, r, 2);
      r := r + 2;
      twoDiffer := false;
    }
    if p + r < limit && src[m + r] == src[p + r] {
      ExtendOne(src, m, p, r);
      r := r + 1;
    }
    Stopped(src, p, m, limit, start, r, fourDiffer, twoDiffer);
  }

  lemma Stopped(src: Buffer, p: nat, m: nat, limit: nat, start: nat, r: nat, fourDiffer: bool, twoDiffer: bool)
    requires m <= p && p + start <= limit <= |src| && start <= r <= start + 3 && p + r <= limit
    requires Same(src, m, p, r)
    requires if fourDiffer then p + start + 3 < limit && !Same(src, m + start, p + start, 4) else limit <= p + start + 3
    requires twoDiffer ==> p + start + 1 < limit && !Same(src, m + start, p + start, 2) && r <= start + 1
    requires r == start ==> (p + start < limit ==> src[m + r] != src[p + r])
    requires r == start + 1 ==> twoDiffer || p + start + 1 == limit
    requires r == start + 2 ==> (p + r < limit ==> src[m + r] != src[p + r])
    ensures p + r < limit ==> src[m + r] != src[p + r]
  {
    if p + r < limit && src[m + r] == src[p + r] {
      ExtendOne(src, m, p, r);
      var len := r + 1 - start;
      Suffix(src, m, p, start, len);
    }
  }

  lemma Suffix(src: Buffer, m: nat, p: nat, start: nat, len: nat)
    requires m <= p && p + start + len <= |src|
    requires Same(src, m, p, start + len)
    ensures Same(src, m + start, p + start, len)
  {
    assert src[m + start..m + start + len] == src[m..m + start + len][start..];
    assert src[p + start..p + start + len] == src[p..p + start + len][start..];
  }

  // Every index in the hash table is below the bound.
  predicate Below(entries: seq<nat>, bound: nat) {
    forall i :: 0 <= i < |entries| ==> entries[i] < bound
  }

  method PutPosition(table: array<nat>, hash: nat -> nat, p: nat, tableType: TableType, ghost bound: nat, ghost n: nat)
    requires table.Length == HashEntries(tableType) && p < bound && Below(table[..], bound)
    requires Fits(n, tableType) && p + MFLIMIT <= n
    modifies table
    ensures Below(table[..], bound)
    ensures table[..] == old(table[..])[Bucket(hash, p, tableType) := p]
  {
    StoredExactly(p, tableType, n);
    table[Bucket(hash, p, tableType)] := Stored(p, tableType);
  }

  lemma StoredExactly(p: nat, tableType: TableType, n: nat)
    requires Fits(n, tableType) && p + MFLIMIT <= n
    ensures Stored(p, tableType) == p
  {
  }

  // The search loop: try positions further and further apart until four bytes match an earlier position.
  method FindMatch(src: Buffer, start: nat, table: array<nat>, hash: nat -> nat, tableType: TableType,
                   acceleration: nat)
    returns (found: bool, ip: nat, m: nat)
    requires acceleration >= 1 && Fits(|src|, tableType)
    requires table.Length == HashEntries(tableType) && start > 0 && Below(table[..], start)
    requires start + MFLIMIT <= |src| + 1
    modifies table
    ensures found ==> start <= ip && ip + MFLIMIT <= |src|
    ensures found ==> m < ip <= m + DISTANCE_MAX && Same(src, m, ip, 4)
    ensures found ==> Below(table[..], ip + 1)
    ensures var f := Finder(hash, tableType, acceleration);
            FinderOk(f, src, old(table[..]))
            && Search(src, f, old(table[..]), start, 0) == if found then Hit(ip, m, table[..]) else NoHit
    ensures var first := old(table[..])[Bucket(hash, start, tableType)];
            start <= first + DISTANCE_MAX && start + MFLIMIT <= |src| && Same(src, first, start, 4)
            ==> found && ip == start && m == first
  {
    hide Entered, Search, Probe, Stride, Candidate;
    var mflimitPlusOne := |src| - MFLIMIT + 1;
    var forwardIp, step: nat := start, 1;
    var searchMatchNb := acceleration * SKIP_STEPS;
    var forwardH: nat := Bucket(hash, start, tableType);
    ghost var f, t, i: nat := Finder(hash, tableType, acceleration), table[..], 0;
    FirstProbe(src, f, t, start);
    while true
      invariant start <= forwardIp <= mflimitPlusOne && step >= 1 && searchMatchNb == acceleration * SKIP_STEPS + i
      invariant forwardH == Bucket(hash, forwardIp, tableType) && Below(table[..], forwardIp)
      invariant forwardIp == Probe(f, start, i) && step == Stride(f, i) && table[..] == Entered(f, t, start, i)
      invariant Search(src, f, t, start, 0) == Search(src, f, t, start, i)
      decreases mflimitPlusOne - forwardIp
    {
      var h, current, matchIndex := forwardH, forwardIp, table[forwardH];
      assert matchIndex == table[..][h];
      SearchStep(src, f, t, start, i);
      ip := forwardIp;
      forwardIp := forwardIp + step;
      step := searchMatchNb / SKIP_STEPS;
      searchMatchNb := searchMatchNb + 1;
      if forwardIp > mflimitPlusOne {
        return false, ip, 0;
      }
      m := matchIndex;
      forwardH := Bucket(hash, forwardIp, tableType);
      table[h] := Stored(current, tableType);
      assert table[h] == current by { StoredExactly(current, tableType, |src|); }
      assert Below(table[..], ip + 1);
      i := i + 1;
      if tableType != ByU16 && matchIndex + DISTANCE_MAX < current {
        continue;
      }
      if Same(src, m, ip, 4) {
        return true, ip, m;
      }
    }
  }

  lemma FirstProbe(src: Buffer, f: Finder, table: seq<nat>, start: nat)
    requires FinderOk(f, src, table) && start + MFLIMIT <= |src| + 1
    ensures Probe(f, start, 0) == start && Stride(f, 0) == 1 && Entered(f, table, start, 0) == table
    ensures var first := table[Bucket(f.hash, start, f.tableType)];
            start + MFLIMIT <= |src| && Matches(src, f, first, start)
            ==> Search(src, f, table, start, 0) == Hit(start, first, Entered(f, table, start, 1))
  {
    hide Matches;
    assert Probe(f, start, 1) == start + 1;
  }

  // One position of the search.
  lemma SearchStep(src: Buffer, f: Finder, table: seq<nat>, start: nat, i: nat)
    requires FinderOk(f, src, table)
    ensures var p, m := Probe(f, start, i), Candidate(f, table, start, i);
            && m == Entered(f, table, start, i)[Bucket(f.hash, p, f.tableType)]
            && Probe(f, start, i + 1) == p + Stride(f, i)
            && Stride(f, i + 1) == (f.acceleration * SKIP_STEPS + i) / SKIP_STEPS
            && Entered(f, table, start, i + 1)
               == Entered(f, table, start, i)[Bucket(f.hash, p, f.tableType) := p]
            && (InReach(src, f, start, i) <==> p + Stride(f, i) + MFLIMIT <= |src| + 1)
            && Search(src, f, table, start, i)
               == if !InReach(src, f, start, i) then NoHit
                  else if Matches(src, f, m, p) then Hit(p, m, Entered(f, table, start, i + 1))
                  else Search(src, f, table, start, i + 1)
  {
    hide Matches;
  }

  // Extend a match backwards, down to the last emitted byte.
  method CatchUp(src: Buffer, start: nat, from: nat, anchor: nat) returns (ip: nat, m: nat)
    requires from < start && start + 4 <= |src| && Same(src, from, start, 4) && anchor <= start
    ensures anchor <= ip <= start && m < ip && ip - m == start - from
    ensures Same(src, m, ip, start - ip + 4)
    ensures ip == anchor || m == 0 || src[ip - 1] != src[m - 1]
    ensures start - ip == Back(src, from, start, anchor)
  {
    hide Same, Back;
    ip, m := start, from;
    while ip > anchor && m > 0 && src[ip - 1] == src[m - 1]
      invariant anchor <= ip <= start && m < ip && ip - m == start - from
      invariant Back(src, from, start, anchor) == start - ip + Back(src, m, ip, anchor)
      invariant Same(src, m, ip, start - ip + 4)
    {
      BackStep(src, m, ip, anchor);
      ExtendFront(src, m, ip, start - ip + 4);
      ip, m := ip - 1, m - 1;
    }
    BackStep(src, m, ip, anchor);
  }

  lemma BackStep(src: Buffer, m: nat, p: nat, anchor: nat)
    requires m < p <= |src| && anchor <= p
    ensures Back(src, m, p, anchor)
            == if p > anchor && m > 0 && src[p - 1] == src[m - 1] then 1 + Back(src, m - 1, p - 1, anchor) else 0
  {
  }

  // The offset and length of a match. The literals of its sequence are already written after `before`.
  method EncodeMatch(src: Buffer, start: nat, m: nat, dst: array<byte>, token: nat, end: nat, limited: bool,
                     olimit: nat,
                     ghost before: Buffer, ghost lits: Buffer)
    returns (ok: bool, op: nat, ip: nat)
    requires start + MFLIMIT <= |src| && m < start <= m + DISTANCE_MAX && Same(src, m, start, 4)
    requires token == |before| && end <= dst.Length && dst[..end] == before + RenderLast(lits)
    requires if limited then end + 2 <= olimit <= dst.Length
             else end + 2 + (|src| - LASTLITERALS - start) / 255 + 4 <= dst.Length
    modifies dst
    ensures !limited ==> ok
    ensures start + MINMATCH <= ip && ip + LASTLITERALS <= |src| && (Same(src, m, start, ip - start) <==> true)
    ensures ip + LASTLITERALS == |src| || src[m + (ip - start)] != src[ip]
    ensures ok ==> op == end + 2 + ExtraBytes(ip - start - MINMATCH) <= dst.Length
    ensures ok ==> dst[..op] == before + Render(Sequence(lits, start - m, ip - start))
    ensures ok && limited ==> op + 6 <= olimit
    ensures !ok ==> end + 2 + ExtraBytes(ip - start - MINMATCH) + 6 > olimit
  {
    hide Render, RenderLast, Same;
    var offset := start - m;
    op := PutOffset(dst, end, offset);
    var matchCode := CountBeyond(src, start, m);
    ip := start + matchCode + MINMATCH;
    if limited && op + (1 + LASTLITERALS) + (matchCode + 240) / 255 > olimit {
      return false, op, ip;
    }
    op := PutMatchLength(dst, token, op, matchCode, before, lits, offset);
    ok := true;
  }

  // The length of a match beyond its first four bytes.
  method CountBeyond(src: Buffer, start: nat, m: nat) returns (matchCode: nat)
    requires start + MFLIMIT <= |src| && m < start && Same(src, m, start, MINMATCH)
    ensures var ip := start + matchCode + MINMATCH;
            && ip + LASTLITERALS <= |src| && (Same(src, m, start, matchCode + MINMATCH) <==> true)
            && (ip + LASTLITERALS == |src| || src[m + (ip - start)] != src[ip])
  {
    matchCode := Count(src, start + MINMATCH, m + MINMATCH, |src| - LASTLITERALS);
    Extend(src, m, start, MINMATCH, matchCode);
  }

  method PutOffset(dst: array<byte>, start: nat, offset: nat) returns (op: nat)
    requires start + 2 <= dst.Length && offset <= DISTANCE_MAX
    modifies dst
    ensures op == start + 2 && dst[..op] == old(dst[..start]) + [offset % 256, offset / 256]
  {
    dst[start], dst[start + 1] := offset % 256, offset / 256;
    op := start + 2;
  }

  method PutMatchLength(dst: array<byte>, token: nat, start: nat, matchCode: nat,
                        ghost before: Buffer, ghost lits: Buffer, ghost offset: nat)
    returns (op: nat)
    requires token == |before| && start + matchCode / 255 + 4 <= dst.Length && 0 < offset <= DISTANCE_MAX
    requires dst[..start] == before + RenderLast(lits) + [offset % 256, offset / 256]
    modifies dst
    ensures op == start + ExtraBytes(matchCode)
    ensures dst[..op] == before + Render(Sequence(lits, offset, matchCode + MINMATCH))
  {
    hide RenderHead, RenderLast, LengthBytes;
    var nibble := if matchCode >= RUN_MASK then RUN_MASK else matchCode;
    AddToToken(dst, token, start, nibble, before, lits, offset, matchCode + MINMATCH);
    op := PutMatchExtra(dst, start, matchCode);
  }

  method PutMatchExtra(dst: array<byte>, start: nat, matchCode: nat) returns (op: nat)
    requires start + matchCode / 255 + 4 <= dst.Length
    modifies dst
    ensures op == start + ExtraBytes(matchCode)
    ensures dst[..op] == old(dst[..start]) + LengthBytes(matchCode)
  {
    op := start;
    if matchCode >= RUN_MASK {
      op := PutMatchRun(dst, start, matchCode - RUN_MASK);
    }
  }

  // *token += nibble, on a token that had only its literal half.
  method AddToToken(dst: array<byte>, token: nat, op: nat, nibble: nat, ghost before: Buffer, ghost lits: Buffer,
                    ghost offset: nat, ghost matchLength: nat)
    requires token == |before| && op <= dst.Length && nibble <= RUN_MASK
    requires 0 < offset <= DISTANCE_MAX && matchLength >= MINMATCH && nibble == Nibble(matchLength - MINMATCH)
    requires dst[..op] == before + RenderLast(lits) + [offset % 256, offset / 256]
    modifies dst
    ensures dst[..op] == before + RenderHead(Sequence(lits, offset, matchLength)) + [offset % 256, offset / 256]
  {
    hide LengthBytes, Nibble;
    assert dst[token] == dst[..op][token] == 16 * Nibble(|lits|);
    dst[token] := dst[token] + nibble;
  }

  // ---------------------------------------------------------------------------------------------
  // The main loop
  // ---------------------------------------------------------------------------------------------

  lemma RoomAfter(start: nat, anchor: nat, litLength: nat, matchCode: nat)
    requires 255 * start <= 256 * anchor
    ensures 255 * (start + 1 + ExtraBytes(litLength) + litLength + 2 + ExtraBytes(matchCode))
            <= 256 * (anchor + litLength + matchCode + MINMATCH)
  {
  }

  lemma RoomForMatch(token: nat, lits: nat, start: nat, end: nat, n: nat)
    requires 255 * token <= 256 * lits && lits <= start && start + MFLIMIT <= n
    requires end == token + 1 + ExtraBytes(start - lits) + (start - lits)
    ensures end + 2 + (n - LASTLITERALS - start) / 255 + 4 <= n + n / 255 + 16
  {
    assert 255 * end <= 256 * start + 495;
  }

  // ---------------------------------------------------------------------------------------------
  // What is still to come
  // ---------------------------------------------------------------------------------------------

  // Of all the sequences, those from the anchor on are still to be found.
  ghost predicate Todo(src: Buffer, f: Finder, all: seq<Sequence>, seqs: seq<Sequence>, table: seq<nat>, anchor: nat) {
    FinderOk(f, src, table) && all == seqs + Greedy(src, f, table, anchor)
  }

  // They begin with what the search from ip on finds.
  ghost predicate Searching(src: Buffer, f: Finder, all: seq<Sequence>, seqs: seq<Sequence>, table: seq<nat>,
                            anchor: nat, ip: nat) {
    && FinderOk(f, src, table) && anchor <= ip
    && match Search(src, f, table, ip, 0)
       case NoHit => all == seqs
       case Hit(p, m, t) =>
         all == seqs + [Found(src, f, anchor, p, m)] + Greedy(src, f, t, MatchEnd(src, f, anchor, p, m))
  }

  // They begin with the match at ip, which is as long as it can be.
  ghost predicate Pending(src: Buffer, f: Finder, all: seq<Sequence>, seqs: seq<Sequence>, table: seq<nat>,
                          anchor: nat, ip: nat, m: nat) {
    && FinderOk(f, src, table) && anchor <= ip && m < ip <= m + DISTANCE_MAX && ip + LASTLITERALS <= |src|
    && var len := Common(src, m, ip, |src| - LASTLITERALS);
       len >= MINMATCH && all == seqs + [Covering(src, anchor, ip, m, len)] + Greedy(src, f, table, ip + len)
  }

  lemma PendingClosed(src: Buffer, f: Finder, all: seq<Sequence>, seqs: seq<Sequence>, table: seq<nat>,
                      anchor: nat, ip: nat, m: nat, end: nat)
    requires Pending(src, f, all, seqs, table, anchor, ip, m)
    requires end == ip + Common(src, m, ip, |src| - LASTLITERALS)
    ensures Todo(src, f, all, seqs + [Covering(src, anchor, ip, m, end - ip)], table, end)
  {
    hide Greedy, FinderOk, Common;
  }

  // Near the end of the input nothing is left to find.
  lemma NothingTodo(src: Buffer, f: Finder, all: seq<Sequence>, seqs: seq<Sequence>, table: seq<nat>, anchor: nat)
    requires Todo(src, f, all, seqs, table, anchor) && 2 <= anchor && anchor + MFLIMIT > |src|
    ensures all == seqs
  {
    hide Search, FinderOk;
    assert seqs + [] == seqs;
  }

  // At the end of a match, its position is looked at before the search goes on.
  lemma TodoNext(src: Buffer, f: Finder, all: seq<Sequence>, seqs: seq<Sequence>, table: seq<nat>, anchor: nat, m: nat)
    requires Todo(src, f, all, seqs, table, anchor) && 2 <= anchor && anchor + MFLIMIT <= |src|
    requires m == EnteredAt(f, table, anchor)[Bucket(f.hash, anchor, f.tableType)]
    ensures Matches(src, f, m, anchor) ==> Pending(src, f, all, seqs, NextTable(f, table, anchor), anchor, anchor, m)
    ensures !Matches(src, f, m, anchor) ==>
              Searching(src, f, all, seqs, NextTable(f, table, anchor), anchor, anchor + 1)
  {
    hide Search, Bucket, EnteredAt, NextTable, Matches;
    if Matches(src, f, m, anchor) {
      HitIsPending(src, f, all, seqs, NextTable(f, table, anchor), anchor, anchor, m);
    } else {
      GreedyIs(src, f, table, anchor);
      assert seqs + [] == seqs;
      SplitSecond(seqs, Greedy(src, f, table, anchor));
    }
  }

  lemma GreedyIs(src: Buffer, f: Finder, table: seq<nat>, anchor: nat)
    requires FinderOk(f, src, table)
    ensures Greedy(src, f, table, anchor)
            == match NextHit(src, f, table, anchor)
               case NoHit => []
               case Hit(p, m, t) =>
                 [Found(src, f, anchor, p, m)] + Greedy(src, f, t, MatchEnd(src, f, anchor, p, m))
  {
    hide NextHit, Found, MatchEnd, Findable;
  }

  lemma SplitSecond(seqs: seq<Sequence>, rest: seq<Sequence>)
    ensures rest != [] ==> seqs + rest == seqs + [rest[0]] + rest[1..]
  {
  }

  // From a hit on, extended backwards.
  lemma HitIsPending(src: Buffer, f: Finder, all: seq<Sequence>, seqs: seq<Sequence>, table: seq<nat>, anchor: nat,
                     p: nat, m: nat)
    requires FinderOk(f, src, table) && Findable(src, f, anchor, p, m)
    requires all == seqs + [Found(src, f, anchor, p, m)] + Greedy(src, f, table, MatchEnd(src, f, anchor, p, m))
    ensures var b := Back(src, m, p, anchor);
            Pending(src, f, all, seqs, table, anchor, p - b, m - b)
  {
    hide Greedy, Same, Back, Common;
    FoundIs(src, f, anchor, p, m);
  }

  // When there is no room for a sequence, there is none for the whole block.
  lemma NoRoom(src: Buffer, f: Finder, seqs: seq<Sequence>, table: seq<nat>, anchor: nat, ip: nat, m: nat, op: nat)
    requires Fits(|src|, f.tableType) && f.acceleration >= 1
    requires Pending(src, f, Parsed(src, f), seqs, table, anchor, ip, m)
    requires Valid(seqs) && op == |RenderAll(seqs)|
    ensures var q := Covering(src, anchor, ip, m, Common(src, m, ip, |src| - LASTLITERALS));
            |Compressed(src, f)| >= op + |Render(q)| + 1 + LASTLITERALS
  {
    hide Parsed, Compressed, Render, RenderAll, Common, Greedy, Expand;
    var len := Common(src, m, ip, |src| - LASTLITERALS);
    CompressedAtLeast(src, f, seqs, Covering(src, anchor, ip, m, len), Greedy(src, f, table, ip + len));
  }

  // A sequence is open: its token is at `token`, its literals src[lits..ip] are written, and a match for src[ip..far
  // + 4] has been found at m. The offset and the length of the match are still to come.
  predicate Open(src: Buffer, out: Buffer, token: nat, lits: nat, ip: nat, m: nat, far: nat,
                 limited: bool, olimit: nat, capacity: nat, seqs: seq<Sequence>)
  {
    && lits <= ip <= far && far + MFLIMIT <= |src|
    && m < ip <= m + DISTANCE_MAX && Same(src, m, ip, far - ip + MINMATCH)
    && token <= |out| <= capacity && HasRoom(limited, olimit, capacity, token, lits, |src|)
    && Emitted(out[..token], seqs, src, lits)
    && |out| == token + 1 + ExtraBytes(ip - lits) + (ip - lits) && (limited ==> |out| + 2 <= olimit)
    && out == out[..token] + RenderLast(src[lits..ip])
  }

  // Where a sequence ends.
  predicate Closed(src: Buffer, out: Buffer, ip: nat, limited: bool, olimit: nat, capacity: nat, seqs: seq<Sequence>) {
    && |out| <= capacity && HasRoom(limited, olimit, capacity, |out|, ip, |src|)
    && Emitted(out, seqs, src, ip)
  }

  // Close the open sequence. Its match reaches past every position entered in the table, up to `far`.
  method CloseSequence(src: Buffer, dst: array<byte>, token: nat, lits: nat, start: nat, m: nat, end: nat,
                       limited: bool, olimit: nat, ghost far: nat, ghost seqs: seq<Sequence>)
    returns (ok: bool, op: nat, ip: nat, ghost seqs': seq<Sequence>)
    requires end <= dst.Length && Open(src, dst[..end], token, lits, start, m, far, limited, olimit, dst.Length, seqs)
    modifies dst
    ensures !limited ==> ok
    ensures start + MINMATCH <= ip && ip + LASTLITERALS <= |src|
    ensures m < start && ip == start + Common(src, m, start, |src| - LASTLITERALS)
    ensures !ok ==> token + |Render(Covering(src, lits, start, m, ip - start))| + 6 > olimit
    ensures ok ==> seqs' == seqs + [Covering(src, lits, start, m, ip - start)]
    ensures ok ==> far < ip && op <= dst.Length
    ensures ok ==> (Closed(src, dst[..op], ip, limited, olimit, dst.Length, seqs') <==> true)
  {
    hide Emitted, RenderLast, Render, ExtraBytes, Same, Common, Open, Closed;
    ghost var open := dst[..end];
    OpenParts(src, open, token, lits, start, m, far, limited, olimit, dst.Length, seqs);
    ghost var out := open[..token];
    ok, op, ip := EncodeMatch(src, start, m, dst, token, end, limited, olimit, out, src[lits..start]);
    seqs' := seqs + [Covering(src, lits, start, m, ip - start)];
    CommonIs(src, m, start, |src| - LASTLITERALS, ip - start);
    OpenSize(src, open, token, lits, start, m, far, limited, olimit, dst.Length, seqs, ip);
    if ok {
      CloseLemma(src, open, dst[..op], token, lits, start, m, far, ip, limited, olimit, dst.Length, seqs);
    }
  }

  lemma OpenParts(src: Buffer, out: Buffer, token: nat, lits: nat, start: nat, m: nat, far: nat, limited: bool,
                  olimit: nat, capacity: nat, seqs: seq<Sequence>)
    requires Open(src, out, token, lits, start, m, far, limited, olimit, capacity, seqs)
    ensures lits <= start && start + MFLIMIT <= |src| && m < start <= m + DISTANCE_MAX && Same(src, m, start, MINMATCH)
    ensures token <= |out| && out == out[..token] + RenderLast(src[lits..start])
    ensures if limited then |out| + 2 <= olimit <= capacity
            else |out| + 2 + (|src| - LASTLITERALS - start) / 255 + 4 <= capacity
  {
    hide Emitted, RenderLast, ExtraBytes, Same;
    SamePrefix(src, m, start, far - start + MINMATCH, MINMATCH);
    if !limited {
      RoomForMatch(token, lits, start, |out|, |src|);
    }
  }

  lemma CoveringSize(src: Buffer, anchor: nat, ip: nat, m: nat, len: nat)
    requires anchor <= ip <= |src| && m < ip <= m + DISTANCE_MAX && len >= MINMATCH
    ensures |Render(Covering(src, anchor, ip, m, len))|
            == 1 + ExtraBytes(ip - anchor) + (ip - anchor) + 2 + ExtraBytes(len - MINMATCH)
  {
    hide LengthBytes;
  }

  // How long the output is when the open sequence is closed at ip.
  lemma OpenSize(src: Buffer, out: Buffer, token: nat, lits: nat, start: nat, m: nat, far: nat, limited: bool,
                 olimit: nat, capacity: nat, seqs: seq<Sequence>, ip: nat)
    requires Open(src, out, token, lits, start, m, far, limited, olimit, capacity, seqs) && start + MINMATCH <= ip
    ensures |out| + 2 + ExtraBytes(ip - start - MINMATCH)
            == token + |Render(Covering(src, lits, start, m, ip - start))|
  {
    hide Emitted, HasRoom, RenderLast, ExtraBytes, Render, Same;
    CoveringSize(src, lits, start, m, ip - start);
  }

  lemma CloseLemma(src: Buffer, open: Buffer, closed: Buffer, token: nat, lits: nat, start: nat, m: nat, far: nat,
                   ip: nat,
                   limited: bool, olimit: nat, capacity: nat, seqs: seq<Sequence>)
    requires Open(src, open, token, lits, start, m, far, limited, olimit, capacity, seqs)
    requires start + MINMATCH <= ip && ip + LASTLITERALS <= |src| && Same(src, m, start, ip - start)
    requires ip + LASTLITERALS == |src| || src[m + (ip - start)] != src[ip]
    requires |closed| == |open| + 2 + ExtraBytes(ip - start - MINMATCH) <= capacity
    requires closed == open[..token] + Render(Covering(src, lits, start, m, ip - start))
    requires limited ==> |closed| + 6 <= olimit
    ensures far < ip
    ensures Closed(src, closed, ip, limited, olimit, capacity, seqs + [Covering(src, lits, start, m, ip - start)])
            <==> true
  {
    hide Emitted, RenderLast, Render, ExtraBytes;
    Emit(open[..token], seqs, src, lits, start, m, ip - start);
    if !limited {
      RoomAfter(token, lits, start - lits, ip - start - MINMATCH);
    }
    ReachesFar(src, m, start, far, ip);
  }

  lemma ReachesFar(src: Buffer, m: nat, start: nat, far: nat, ip: nat)
    requires m < start <= far && far + MFLIMIT <= |src| && start <= ip && ip + LASTLITERALS <= |src|
    requires Same(src, m, start, far - start + MINMATCH)
    requires ip + LASTLITERALS == |src| || src[m + (ip - start)] != src[ip]
    ensures far < ip
  {
    if ip <= far {
      SameAt(src, m, start, far - start + MINMATCH, ip - start);
    }
  }

  // After a sequence: enter two positions in the table, and test for a match right here.
  method NextMatch(src: Buffer, table: array<nat>, hash: nat -> nat, tableType: TableType, ip: nat, ghost f: Finder)
    returns (found: bool, m: nat)
    requires f.hash == hash && f.tableType == tableType
    requires Fits(|src|, tableType) && table.Length == HashEntries(tableType)
    requires 2 < ip && ip + MFLIMIT <= |src| && Below(table[..], ip)
    modifies table
    ensures Below(table[..], ip + 1)
    ensures found ==> m < ip <= m + DISTANCE_MAX && Same(src, m, ip, MINMATCH)
    ensures m == EnteredAt(f, old(table[..]), ip)[Bucket(hash, ip, tableType)]
    ensures table[..] == NextTable(f, old(table[..]), ip) && (found <==> Matches(src, f, m, ip))
  {
    PutPosition(table, hash, ip - 2, tableType, ip, |src|);
    var h := Bucket(hash, ip, tableType);
    m := table[h];
    assert m == table[..][h];
    table[h] := Stored(ip, tableType);
    found := (tableType == ByU16 || m + DISTANCE_MAX >= ip) && Same(src, m, ip, MINMATCH);
  }

  // A sequence without literals: its token only.
  method OpenSequence(src: Buffer, dst: array<byte>, start: nat, ip: nat, m: nat,
                      limited: bool, olimit: nat, ghost seqs: seq<Sequence>)
    returns (op: nat)
    requires start <= dst.Length && Closed(src, dst[..start], ip, limited, olimit, dst.Length, seqs)
    requires 0 < ip && ip + MFLIMIT <= |src| && m < ip <= m + DISTANCE_MAX && Same(src, m, ip, MINMATCH)
    modifies dst
    ensures op == start + 1 <= dst.Length
    ensures Open(src, dst[..op], start, ip, ip, m, ip, limited, olimit, dst.Length, seqs) <==> true
  {
    hide Emitted;
    ghost var out := dst[..start];
    dst[start] := 0;
    op := start + 1;
    assert dst[..op] == out + [0];
    assert dst[..op][..start] == out;
    assert src[ip..ip] == [];
  }

  // From an open sequence: close it, then every sequence without literals that follows at once.
  method EmitMatches(src: Buffer, dst: array<byte>, table: array<nat>, hash: nat -> nat, tableType: TableType,
                     head: nat, anchor: nat, start: nat, from: nat, end: nat, limited: bool, olimit: nat,
                     ghost filled: nat, ghost seqs: seq<Sequence>, ghost f: Finder)
    returns (ok: bool, op: nat, ip: nat, ghost seqs': seq<Sequence>)
    requires Fits(|src|, tableType) && table.Length == HashEntries(tableType) && table as object != dst
    requires Below(table[..], filled + 1) && f.hash == hash && f.tableType == tableType && f.acceleration >= 1
    requires end <= dst.Length
             && Open(src, dst[..end], head, anchor, start, from, filled, limited, olimit, dst.Length, seqs)
    requires Pending(src, f, Parsed(src, f), seqs, table[..], anchor, start, from)
    modifies dst, table
    ensures !limited ==> ok
    ensures !ok ==> |Compressed(src, f)| > olimit
    ensures ok ==> op <= dst.Length && filled < ip && 2 <= ip
    ensures ok ==> (Closed(src, dst[..op], ip, limited, olimit, dst.Length, seqs') <==> true)
    ensures ok && ip + MFLIMIT <= |src| ==> Below(table[..], ip + 1)
    ensures ok ==> if ip + MFLIMIT > |src| then seqs' == Parsed(src, f)
                   else Searching(src, f, Parsed(src, f), seqs', table[..], ip, ip + 1)
  {
    hide Emitted, RenderLast, Render, ExtraBytes, HasRoom, Same, Parsed, Compressed, Greedy, Common, Pending, Todo;
    hide Searching, Matches, EnteredAt, NextTable, Closed, Open;
    seqs' := seqs;
    op, ip := end, start;
    var token, lits, m := head, anchor, from;
    ghost var far, all := filled, Parsed(src, f);
    while true
      invariant op <= dst.Length && filled <= far && Below(table[..], far + 1)
      invariant Open(src, dst[..op], token, lits, ip, m, far, limited, olimit, dst.Length, seqs')
      invariant Pending(src, f, all, seqs', table[..], lits, ip, m)
      decreases |src| - ip
    {
      OpenMeans(src, dst[..op], token, lits, ip, m, far, limited, olimit, dst.Length, seqs');
      NoRoom(src, f, seqs', table[..], lits, ip, m, token);
      ghost var was, open, before := ip, lits, seqs';
      ok, op, lits, seqs' := CloseSequence(src, dst, token, lits, ip, m, op, limited, olimit, far, seqs');
      ip := lits;
      if !ok { return; }
      PendingClosed(src, f, all, before, table[..], open, was, m, ip);
      if ip + MFLIMIT > |src| {
        NothingTodo(src, f, all, seqs', table[..], ip);
        return;
      }
      var found;
      ghost var t := table[..];
      found, m := NextMatch(src, table, hash, tableType, ip, f);
      TodoNext(src, f, all, seqs', t, ip, m);
      if !found { return; }
      token, far := op, ip;
      op := OpenSequence(src, dst, op, ip, m, limited, olimit, seqs');
    }
  }

  lemma OpenMeans(src: Buffer, out: Buffer, token: nat, lits: nat, ip: nat, m: nat, far: nat, limited: bool,
                  olimit: nat, capacity: nat, seqs: seq<Sequence>)
    requires Open(src, out, token, lits, ip, m, far, limited, olimit, capacity, seqs)
    ensures Valid(seqs) && token == |RenderAll(seqs)| && ip < |src|
  {
    hide RenderLast, Same, HasRoom, Restricted, Expand, RenderAll;
  }

  // After the search: extend the match backwards and write the literals before it.
  method OpenWithLiterals(src: Buffer, dst: array<byte>, head: nat, anchor: nat, filled: nat, from: nat,
                          limited: bool, olimit: nat, ghost seqs: seq<Sequence>, ghost f: Finder,
                          ghost table: seq<nat>)
    returns (ok: bool, op: nat, ip: nat, m: nat)
    requires head <= dst.Length && Closed(src, dst[..head], anchor, limited, olimit, dst.Length, seqs)
    requires anchor <= filled && filled + MFLIMIT <= |src| && from < filled <= from + DISTANCE_MAX
    requires Same(src, from, filled, MINMATCH)
    requires FinderOk(f, src, table) && Findable(src, f, anchor, filled, from)
    requires Parsed(src, f) == seqs + [Found(src, f, anchor, filled, from)]
                               + Greedy(src, f, table, MatchEnd(src, f, anchor, filled, from))
    modifies dst
    ensures !limited ==> ok
    ensures !ok ==> |Compressed(src, f)| > olimit
    ensures ok ==> op <= dst.Length && anchor <= ip
    ensures ok ==> (Open(src, dst[..op], head, anchor, ip, m, filled, limited, olimit, dst.Length, seqs) <==> true)
    ensures ok ==> (Pending(src, f, Parsed(src, f), seqs, table, anchor, ip, m) <==> true)
  {
    hide Emitted, RenderLast, Same, Parsed, Compressed, Greedy, Pending, Found, MatchEnd, Findable, Back, Open, Closed;
    hide HasRoom, ExtraBytes;
    ip, m := CatchUp(src, filled, from, anchor);
    HitIsPending(src, f, Parsed(src, f), seqs, table, anchor, filled, from);
    ghost var out := dst[..head];
    ClosedRoom(src, out, anchor, limited, olimit, dst.Length, seqs);
    ok, op := EncodeLiterals(src, anchor, ip, dst, head, limited, olimit);
    if ok {
      Opened(src, out, dst[..op], anchor, ip, m, filled, limited, olimit, dst.Length, seqs);
    } else {
      NoRoomForLiterals(src, f, out, seqs, table, anchor, ip, m, limited, olimit, dst.Length);
    }
  }

  lemma ClosedRoom(src: Buffer, out: Buffer, anchor: nat, limited: bool, olimit: nat, capacity: nat,
                   seqs: seq<Sequence>)
    requires Closed(src, out, anchor, limited, olimit, capacity, seqs)
    ensures HasRoom(limited, olimit, capacity, |out|, anchor, |src|)
  {
    hide Emitted, HasRoom;
  }

  lemma Opened(src: Buffer, out: Buffer, open: Buffer, anchor: nat, ip: nat, m: nat, far: nat, limited: bool,
               olimit: nat, capacity: nat, seqs: seq<Sequence>)
    requires Closed(src, out, anchor, limited, olimit, capacity, seqs)
    requires anchor <= ip <= far && far + MFLIMIT <= |src| && m < ip <= m + DISTANCE_MAX
    requires Same(src, m, ip, far - ip + MINMATCH)
    requires |open| == |out| + 1 + ExtraBytes(ip - anchor) + (ip - anchor) <= capacity
    requires open == out + RenderLast(src[anchor..ip]) && (limited ==> |open| + 7 <= olimit)
    ensures Open(src, open, |out|, anchor, ip, m, far, limited, olimit, capacity, seqs)
  {
    hide Emitted, HasRoom, RenderLast, Same, ExtraBytes;
    assert open[..|out|] == out;
  }

  lemma NoRoomForLiterals(src: Buffer, f: Finder, out: Buffer, seqs: seq<Sequence>, table: seq<nat>, anchor: nat,
                          ip: nat, m: nat, limited: bool, olimit: nat, capacity: nat)
    requires Fits(|src|, f.tableType) && f.acceleration >= 1
    requires Closed(src, out, anchor, limited, olimit, capacity, seqs)
    requires Pending(src, f, Parsed(src, f), seqs, table, anchor, ip, m)
    requires |out| + 1 + (ip - anchor) + (2 + 1 + LASTLITERALS) + (ip - anchor) / 255 > olimit
    ensures |Compressed(src, f)| > olimit
  {
    hide Parsed, Compressed, Render, RenderAll, Common, Greedy, Expand, HasRoom, Restricted;
    NoRoom(src, f, seqs, table, anchor, ip, m, |out|);
    CoveringSize(src, anchor, ip, m, Common(src, m, ip, |src| - LASTLITERALS));
  }

  // Every sequence with a match. What is left from anchor on are the last literals.
  method EncodeSequences(src: Buffer, dst: array<byte>, hash: nat -> nat, tableType: TableType, acceleration: nat,
                         limited: bool, olimit: nat)
    returns (ok: bool, op: nat, anchor: nat, ghost seqs: seq<Sequence>)
    requires Fits(|src|, tableType) && acceleration >= 1 && |src| >= MIN_LENGTH
    requires HasRoom(limited, olimit, dst.Length, 0, 0, |src|)
    modifies dst
    ensures !limited ==> ok
    ensures !ok ==> |Compressed(src, Finder(hash, tableType, acceleration))| > olimit
    ensures ok ==> op <= dst.Length && (Closed(src, dst[..op], anchor, limited, olimit, dst.Length, seqs) <==> true)
    ensures ok ==> seqs == Parsed(src, Finder(hash, tableType, acceleration))
  {
    hide RenderLast, Render, ExtraBytes, Same, Open, Parsed, Compressed, Greedy, Pending, Searching, Found, MatchEnd;
    hide Findable, Search, FirstTable;
    var table := new nat[HashEntries(tableType)](_ => 0);
    var ip: nat := 1;
    ok, op, anchor, seqs := true, 0, 0, [];
    ghost var f := Finder(hash, tableType, acceleration);
    assert Emitted(dst[..0], [], src, 0);
    PutPosition(table, hash, 0, tableType, 1, |src|);
    TableIsFirst(f, table[..]);
    StartSearching(src, f);
    while true
      invariant ok && op <= dst.Length && anchor <= ip && 0 < ip && ip + MFLIMIT <= |src| + 1
      invariant Below(table[..], ip)
      invariant Closed(src, dst[..op], anchor, limited, olimit, dst.Length, seqs)
      invariant Searching(src, f, Parsed(src, f), seqs, table[..], anchor, ip)
      decreases |src| - ip
    {
      hide Emitted;
      var head := op;
      ghost var t := table[..];
      var found, filled, m := FindMatch(src, ip, table, hash, tableType, acceleration);
      SearchingMeans(src, f, Parsed(src, f), seqs, t, anchor, ip);
      if !found { return; }
      ok, op, ip, m := OpenWithLiterals(src, dst, head, anchor, filled, m, limited, olimit, seqs, f, table[..]);
      if !ok { return; }
      ok, op, anchor, seqs :=
        EmitMatches(src, dst, table, hash, tableType, head, anchor, ip, m, op, limited, olimit, filled, seqs, f);
      if !ok || anchor + MFLIMIT > |src| { return; }
      ip := anchor + 1;
    }
  }

  lemma TableIsFirst(f: Finder, table: seq<nat>)
    requires |table| == HashEntries(f.tableType) && forall k :: 0 <= k < |table| ==> table[k] == 0
    ensures table == FirstTable(f)
  {
  }

  lemma StartSearching(src: Buffer, f: Finder)
    requires f.acceleration >= 1 && Fits(|src|, f.tableType) && |src| >= MIN_LENGTH
    ensures Searching(src, f, Parsed(src, f), [], FirstTable(f), 0, 1)
  {
    hide Search, Found, MatchEnd, Findable, FirstTable;
    GreedyIs(src, f, FirstTable(f), 0);
    SplitSecond([], Greedy(src, f, FirstTable(f), 0));
    assert [] + Greedy(src, f, FirstTable(f), 0) == Greedy(src, f, FirstTable(f), 0);
  }

  lemma SearchingMeans(src: Buffer, f: Finder, all: seq<Sequence>, seqs: seq<Sequence>, table: seq<nat>, anchor: nat,
                       ip: nat)
    requires Searching(src, f, all, seqs, table, anchor, ip)
    ensures match Search(src, f, table, ip, 0)
            case NoHit => all == seqs
            case Hit(p, m, t) =>
              && FinderOk(f, src, t) && Findable(src, f, anchor, p, m)
              && all == seqs + [Found(src, f, anchor, p, m)] + Greedy(src, f, t, MatchEnd(src, f, anchor, p, m))
  {
    hide Search, Found, MatchEnd, Greedy;
  }

  // LZ4_compress_generic. Zero means that the input was refused or did not fit.
  method CompressGeneric(src: Buffer, dst: array<byte>, hash: nat -> nat, tableType: TableType, acceleration: nat,
                         limited: bool, olimit: nat)
    returns (r: nat)
    requires acceleration >= 1 && (tableType.ByU16? ==> |src| < LIMIT_64K)
    requires if limited then olimit <= dst.Length else CompressBound(|src|) <= dst.Length
    modifies dst
    ensures r <= dst.Length && (r > 0 ==> (IsBlockFor(dst[..r], src) <==> true))
    ensures r > 0 && src == [] ==> dst[..r] == [0]
    ensures !limited ==> r <= CompressBound(|src|)
    ensures |src| > MAX_INPUT_SIZE ==> r == 0
    ensures |src| <= MAX_INPUT_SIZE ==>
              var block := Compressed(src, Finder(hash, tableType, acceleration));
              && r == (if !limited || |block| <= olimit then |block| else 0)
              && (r > 0 ==> dst[..r] == block)
  {
    hide Decode, Conforms, RenderAll, Expand, Valid, Restricted, Compressed, Parsed;
    if |src| > MAX_INPUT_SIZE { return 0; }
    if |src| == 0 {
      assert src == [];
      EmptyBlock([0]);
      CompressedNothing(Finder(hash, tableType, acceleration));
      if limited && olimit <= 0 { return 0; }
      dst[0] := 0;
      assert dst[..1] == [0];
      return 1;
    }
    var ok, op, anchor := true, 0, 0;
    ghost var seqs := [];
    if |src| >= MIN_LENGTH {
      ok, op, anchor, seqs := EncodeSequences(src, dst, hash, tableType, acceleration, limited, olimit);
      if !ok { return 0; }
    } else {
      NothingEmitted(src);
      NothingParsed(src, Finder(hash, tableType, acceleration));
      assert dst[..0] == [];
    }
    r := FinishBlock(src, dst, op, anchor, limited, olimit, seqs, Finder(hash, tableType, acceleration));
  }

  lemma EmptyBlock(block: Buffer)
    requires block == [0]
    ensures IsBlockFor(block, []) <==> true
  {
    assert ParseStep(block, 0) == Last(1, 0);
    assert block[1..] == [];
  }

  lemma NothingParsed(src: Buffer, f: Finder)
    requires f.acceleration >= 1 && Fits(|src|, f.tableType) && |src| < MIN_LENGTH
    ensures Parsed(src, f) == []
  {
  }

  lemma CompressedNothing(f: Finder)
    requires f.acceleration >= 1
    ensures Compressed([], f) == [0]
  {
    NothingParsed([], f);
  }

  method FinishBlock(src: Buffer, dst: array<byte>, start: nat, anchor: nat, limited: bool, olimit: nat,
                     ghost seqs: seq<Sequence>, ghost f: Finder)
    returns (r: nat)
    requires f.acceleration >= 1 && Fits(|src|, f.tableType) && seqs == Parsed(src, f)
    requires start <= dst.Length && Closed(src, dst[..start], anchor, limited, olimit, dst.Length, seqs)
    modifies dst
    ensures r <= dst.Length && (r > 0 ==> (IsBlockFor(dst[..r], src) <==> true))
    ensures limited ==> r <= olimit
    ensures !limited ==> 0 < r <= CompressBound(|src|)
    ensures r == (if !limited || |Compressed(src, f)| <= olimit then |Compressed(src, f)| else 0)
    ensures r > 0 ==> dst[..r] == Compressed(src, f)
  {
    hide Decode, Conforms, RenderLast, Render, RenderAll, Expand, Valid, Restricted, Parsed, Compressed;
    ghost var out := dst[..start];
    CompressedFrom(src, f, out, anchor, limited, olimit, dst.Length);
    var ok, op := EncodeLast(src, anchor, dst, start, limited, olimit);
    if !ok { return 0; }
    CompressedIsBlock(src, f);
    r := op;
  }

  lemma CompressedFrom(src: Buffer, f: Finder, out: Buffer, anchor: nat, limited: bool, olimit: nat, capacity: nat)
    requires f.acceleration >= 1 && Fits(|src|, f.tableType)
    requires Closed(src, out, anchor, limited, olimit, capacity, Parsed(src, f))
    ensures anchor <= |src| && Compressed(src, f) == out + RenderLast(src[anchor..])
  {
    hide Parsed, RenderAll, RenderLast, Restricted, HasRoom, Expand;
  }

  // What a call of LZ4_compress_fast searches with.
  function FinderFor(n: nat, hash: nat -> nat, acceleration: int): (f: Finder)
    ensures f.acceleration >= 1 && (n <= MAX_INPUT_SIZE ==> Fits(n, f.tableType))
  {
    Finder(hash, if n < LIMIT_64K then ByU16 else ByU32,
           if acceleration < 1 then 1 else if acceleration > ACCELERATION_MAX then ACCELERATION_MAX else acceleration)
  }

  // LZ4_compress_fast. The block is written exactly when it fits; it fits if there is room for the bound.
  method CompressFast(src: Buffer, dst: array<byte>, maxOutputSize: nat, acceleration: int, hash: nat -> nat)
    returns (r: nat)
    requires maxOutputSize <= dst.Length
    modifies dst
    ensures r <= maxOutputSize
    ensures r > 0 ==> |src| <= MAX_INPUT_SIZE && (IsBlockFor(dst[..r], src) <==> true)
    ensures r > 0 && src == [] ==> dst[..r] == [0]
    ensures |src| <= MAX_INPUT_SIZE && CompressBound(|src|) <= maxOutputSize ==> 0 < r <= CompressBound(|src|)
    ensures |src| <= MAX_INPUT_SIZE ==>
              var block := Compressed(src, FinderFor(|src|, hash, acceleration));
              r == (if |block| <= maxOutputSize then |block| else 0) && (r > 0 ==> dst[..r] == block)
    ensures 13 <= |src| <= MAX_INPUT_SIZE && |src| <= maxOutputSize && (forall k :: 0 <= k < |src| ==> src[k] == src[0])
            ==> r == 10 + (if |src| - 10 < 15 then 0 else (|src| - 25) / 255 + 1) && dst[..r] == RunBlock(src[0], |src|)
  {
    hide Decode, Conforms, Compressed, RunBlock;
    var a: nat :=
      if acceleration < 1 then 1 else if acceleration > ACCELERATION_MAX then ACCELERATION_MAX else acceleration;
    var tableType := if |src| < LIMIT_64K then ByU16 else ByU32;
    var limited := maxOutputSize < CompressBound(|src|);
    r := CompressGeneric(src, dst, hash, tableType, a, limited, if limited then maxOutputSize else 0);
    if |src| <= MAX_INPUT_SIZE {
      CompressedIsSome(src, FinderFor(|src|, hash, acceleration));
    }
    if 13 <= |src| <= MAX_INPUT_SIZE && forall k :: 0 <= k < |src| ==> src[k] == src[0] {
      RunIs(src, FinderFor(|src|, hash, acceleration), src[0]);
      RunBlockSize(src[0], |src|);
    }
  }

  lemma CompressedIsSome(src: Buffer, f: Finder)
    requires f.acceleration >= 1 && Fits(|src|, f.tableType)
    ensures |Compressed(src, f)| > 0
  {
    hide Parsed, RenderAll;
  }

  lemma RunBlockSize(v: byte, n: nat)
    requires n >= 13
    ensures |RunBlock(v, n)| == 10 + (if n - 10 < 15 then 0 else (n - 25) / 255 + 1) <= n
  {
  }
}
