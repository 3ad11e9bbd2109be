// The copies of the LZ4 decoder: 8, 16 or 32 bytes at a time, past the real end, with table lookups where the match
// overlaps its own output. All work in place on the destination buffer.
module Lz4Copies {
  import opened Bytes
  import opened Lz4Format

  const INC32: seq<nat> := [0, 1, 2, 1, 0, 4, 4, 4]
  const DEC64: seq<int> := [0, 0, 0, -1, -4, 1, 2, 3]

  // From `start` on, every byte repeats the one `dist` bytes before it.
  predicate Repeats(s: Buffer, start: nat, dist: nat)
    requires dist <= start
  {
    forall k :: start <= k < |s| ==> s[k] == s[k - dist]
  }

  lemma RepeatsIsCopy(s: Buffer, out: Buffer, offset: nat, len: nat)
    requires 0 < offset <= |out| && |s| == |out| + len && s[..|out|] == out
    requires Repeats(s, |out|, offset)
    ensures s == CopyMatch(out, offset, len)
  {
    CopyMatchUnique(out, offset, len, s);
  }

  // ---------------------------------------------------------------------------------------------
  // Periods
  // ---------------------------------------------------------------------------------------------

  // In a repeating stretch, going back j periods changes nothing.
  lemma {:induction false} BackPeriods(s: Buffer, start: nat, offset: nat, k: nat, j: nat)
    requires offset <= start && k < |s| && Repeats(s, start, offset)
    requires j > 0 ==> start + (j - 1) * offset <= k
    ensures j * offset <= k && s[k - j * offset] == s[k]
    decreases j
  {
    if j > 0 {
      assert j * offset == (j - 1) * offset + offset;
      if j > 1 {
        assert (j - 1) * offset == (j - 2) * offset + offset;
      }
      BackPeriods(s, start, offset, k, j - 1);
      assert start <= k - (j - 1) * offset;
    } else {
      assert j * offset == 0;
    }
  }

  // Eight bytes of period `offset`, continued with a longer period that is a multiple of it, have period `offset`.
  lemma {:induction false} LongerPeriod(s: Buffer, start: nat, offset: nat, times: nat)
    requires 0 < offset < 8 && offset <= start && start + 8 <= |s|
    requires 0 < times && 8 <= times * offset <= 8 + offset && times * offset <= start + 8
    requires Repeats(s[..start + 8], start, offset) && Repeats(s, start + 8, times * offset)
    ensures Repeats(s, start, offset)
  {
    var n := start + 8;
    while n < |s|
      invariant start + 8 <= n <= |s|
      invariant forall k :: start <= k < n ==> s[k] == s[k - offset]
    {
      PeriodStep(s, start, offset, times, n);
      n := n + 1;
    }
  }

  lemma PeriodStep(s: Buffer, start: nat, offset: nat, times: nat, n: nat)
    requires 0 < offset < 8 && offset <= start && start + 8 <= n < |s|
    requires 0 < times && 8 <= times * offset <= 8 + offset && times * offset <= start + 8
    requires s[n] == s[n - times * offset]
    requires forall k :: start <= k < n ==> s[k] == s[k - offset]
    ensures s[n] == s[n - offset]
  {
    var t := s[..n];
    assert Repeats(t, start, offset);
    assert (times - 1) * offset == times * offset - offset;
    if times > 1 {
      assert (times - 2) * offset == times * offset - 2 * offset;
    }
    BackPeriods(t, start, offset, n - offset, times - 1);
    assert t[n - times * offset] == t[n - offset];
  }

  // ---------------------------------------------------------------------------------------------
  // Literals
  // ---------------------------------------------------------------------------------------------

  // A memcpy of w bytes from the source, of which the first len count.
  method CopyLiteralUnit(src: Buffer, s: nat, dst: array<byte>, d: nat, w: nat, len: nat)
    requires len <= w && s + w <= |src| && d + w <= dst.Length
    modifies dst
    ensures dst[..d + len] == old(dst[..d]) + src[s..s + len]
  {
    forall k | d <= k < d + w { dst[k] := src[s + (k - d)]; }
    assert dst[d..d + len] == src[s..s + len];
    assert dst[..d + len] == dst[..d] + dst[d..d + len];
  }

  method CopyLiterals(src: Buffer, s: nat, dst: array<byte>, d: nat, len: nat)
    requires s + len <= |src| && d + len <= dst.Length
    modifies dst
    ensures dst[..d + len] == old(dst[..d]) + src[s..s + len]
  {
    CopyLiteralUnit(src, s, dst, d, len, len);
  }

  lemma Joined(before: Buffer, src: Buffer, s: nat, i: nat, w: nat)
    requires s + i + w <= |src|
    ensures before + src[s..s + i] + src[s + i..s + i + w] == before + src[s..s + i + w]
  {
    assert src[s..s + i] + src[s + i..s + i + w] == src[s..s + i + w];
  }

  lemma Cut(before: Buffer, src: Buffer, s: nat, i: nat, len: nat)
    requires s + i <= |src| && len <= i
    ensures (before + src[s..s + i])[..|before| + len] == before + src[s..s + len]
  {
  }

  // LZ4_wildCopy8 from the source: eight bytes at a time, possibly past the end e.
  method WildCopyLiterals(src: Buffer, s: nat, dst: array<byte>, d: nat, e: nat)
    requires d <= e && e + (if d == e then 8 else 7) <= dst.Length
    requires s + (e - d) + (if d == e then 8 else 7) <= |src|
    modifies dst
    ensures dst[..e] == old(dst[..d]) + src[s..s + (e - d)]
  {
    var i := 0;
    ghost var before := dst[..d];
    while true
      invariant 0 <= i && (i == 0 || d + i < e)
      invariant dst[..d + i] == before + src[s..s + i]
      decreases e - d - i
    {
      CopyLiteralUnit(src, s + i, dst, d + i, 8, 8);
      Joined(before, src, s, i, 8);
      i := i + 8;
      if d + i >= e { break; }
    }
    Cut(before, src, s, i, e - d);
    assert dst[..e] == dst[..d + i][..|before| + (e - d)];
  }

  method CopyLiteralPair(src: Buffer, s: nat, dst: array<byte>, d: nat)
    requires s + 32 <= |src| && d + 32 <= dst.Length
    modifies dst
    ensures dst[..d + 32] == old(dst[..d]) + src[s..s + 32]
  {
    Joined(dst[..d], src, s, 16, 16);
    CopyLiteralUnit(src, s, dst, d, 16, 16);
    CopyLiteralUnit(src, s + 16, dst, d + 16, 16, 16);
  }

  // LZ4_wildCopy32 from the source.
  method WildCopyLiterals32(src: Buffer, s: nat, dst: array<byte>, d: nat, e: nat)
    requires d < e && e + 31 <= dst.Length && s + (e - d) + 31 <= |src|
    modifies dst
    ensures dst[..e] == old(dst[..d]) + src[s..s + (e - d)]
  {
    var i := 0;
    ghost var before := dst[..d];
    while true
      invariant 0 <= i && (i == 0 || d + i < e)
      invariant dst[..d + i] == before + src[s..s + i]
      decreases e - d - i
    {
      CopyLiteralPair(src, s + i, dst, d + i);
      Joined(before, src, s, i, 32);
      i := i + 32;
      if d + i >= e { break; }
    }
    Cut(before, src, s, i, e - d);
    assert dst[..e] == dst[..d + i][..|before| + (e - d)];
  }

  // ---------------------------------------------------------------------------------------------
  // Copies
  // ---------------------------------------------------------------------------------------------

  // A memcpy of w bytes within the buffer, between stretches that do not overlap.
  method CopyUnit(dst: array<byte>, d: nat, m: nat, w: nat)
    requires m + w <= d && d + w <= dst.Length
    modifies dst
    ensures dst[..d] == old(dst[..d])
    ensures forall k :: d <= k < d + w ==> dst[k] == dst[k - (d - m)]
    ensures forall k :: d + w <= k < dst.Length ==> dst[k] == old(dst[k])
  {
    forall k | d <= k < d + w { dst[k] := dst[k - (d - m)]; }
  }

  // LZ4_wildCopy8 within the buffer.
  method WildCopy8(dst: array<byte>, d: nat, m: nat, e: nat)
    requires m + 8 <= d && d + 8 <= dst.Length && e + 7 <= dst.Length
    modifies dst
    ensures dst[..d] == old(dst[..d])
    ensures forall k :: d <= k < e ==> dst[k] == dst[k - (d - m)]
    ensures forall k :: e + 7 <= k < dst.Length && d + 8 <= k ==> dst[k] == old(dst[k])
  {
    var dist, cur := d - m, d;
    ghost var before := dst[..d];
    while true
      invariant d <= cur && (cur == d || cur < e) && dst[..d] == before
      invariant forall k :: cur <= k < dst.Length ==> dst[k] == old(dst[k])
      invariant forall k :: d <= k < cur ==> dst[k] == dst[k - dist]
      decreases e - cur
    {
      ghost var prefix := dst[..cur];
      CopyUnit(dst, cur, cur - dist, 8);
      Kept(dst, prefix, d, dist);
      assert dst[..d] == prefix[..d];
      cur := cur + 8;
      if cur >= e { break; }
    }
  }

  // What a copy leaves untouched keeps repeating.
  lemma Kept(dst: array<byte>, prefix: Buffer, d: nat, dist: nat)
    requires dist <= d <= |prefix| <= dst.Length && dst[..|prefix|] == prefix
    requires Repeats(prefix, d, dist)
    ensures forall k :: d <= k < |prefix| ==> dst[k] == dst[k - dist]
  {
    forall k | d <= k < |prefix| ensures dst[k] == dst[k - dist] {
      assert dst[k] == dst[..|prefix|][k] && dst[k - dist] == dst[..|prefix|][k - dist];
    }
  }

  // LZ4_wildCopy32: two copies of 16 bytes, so that any distance from 16 on is allowed.
  method WildCopy32(dst: array<byte>, d: nat, m: nat, e: nat)
    requires m + 16 <= d && d + 32 <= dst.Length && e + 31 <= dst.Length
    modifies dst
    ensures dst[..d] == old(dst[..d])
    ensures forall k :: d <= k < e ==> dst[k] == dst[k - (d - m)]
  {
    var dist, cur := d - m, d;
    ghost var before := dst[..d];
    while true
      invariant d <= cur && (cur == d || cur < e) && dst[..d] == before
      invariant forall k :: d <= k < cur ==> dst[k] == dst[k - dist]
      decreases e - cur
    {
      ghost var prefix := dst[..cur];
      CopyTwice16(dst, cur, cur - dist);
      Kept(dst, prefix, d, dist);
      assert dst[..d] == prefix[..d];
      cur := cur + 32;
      if cur >= e { break; }
    }
  }

  method CopyTwice16(dst: array<byte>, d: nat, m: nat)
    requires m + 16 <= d && d + 32 <= dst.Length
    modifies dst
    ensures dst[..d] == old(dst[..d])
    ensures forall k :: d <= k < d + 32 ==> dst[k] == dst[k - (d - m)]
  {
    CopyUnit(dst, d, m, 16);
    ghost var prefix := dst[..d + 16];
    CopyUnit(dst, d + 16, m + 16, 16);
    Kept(dst, prefix, d, d - m);
    assert dst[..d] == prefix[..d];
  }

  // The distance between the write and the read positions once the first eight bytes of a match are copied.
  function SecondDistance(offset: nat): (r: nat)
    ensures r >= 8 && (offset >= 8 ==> r == offset) && (offset < 8 ==> r <= 8 + offset)
  {
    if offset < 8 then [8, 8, 8, 9, 8, 10, 12, 14][offset] else offset
  }

  lemma SecondDistanceMultiple(offset: nat) returns (times: nat)
    requires 0 < offset < 8
    ensures 0 < times && times * offset == SecondDistance(offset)
  {
    times := [0, 8, 4, 3, 2, 2, 2, 2][offset];
  }

  // Four bytes one at a time, then four at once from a table-driven position; the read position moves by the tables.
  method FirstEight(dst: array<byte>, op: nat, offset: nat) returns (m: nat)
    requires offset <= op && op + 8 <= dst.Length
    modifies dst
    ensures dst[..op] == old(dst[..op])
    ensures m + SecondDistance(offset) == op + 8
    ensures offset > 0 ==> forall k :: op <= k < op + 8 ==> dst[k] == dst[k - offset]
  {
    m := op - offset;
    if offset < 8 {
      FirstFour(dst, op, offset);
      ghost var prefix := dst[..op + 4];
      m := m + INC32[offset];
      CopyUnit(dst, op + 4, m, 4);
      SecondFour(dst, prefix, op, offset);
      assert dst[..op] == prefix[..op];
      m := m - DEC64[offset];
    } else {
      CopyUnit(dst, op, m, 8);
      m := m + 8;
    }
  }

  method FirstFour(dst: array<byte>, op: nat, offset: nat)
    requires offset <= op && op + 4 <= dst.Length
    modifies dst
    ensures dst[..op] == old(dst[..op])
    ensures offset > 0 ==> forall k :: op <= k < op + 4 ==> dst[k] == dst[k - offset]
  {
    var m := op - offset;
    forall k | op <= k < op + 4 { dst[k] := 0; }
    dst[op] := dst[m];
    dst[op + 1] := dst[m + 1];
    dst[op + 2] := dst[m + 2];
    dst[op + 3] := dst[m + 3];
  }

  lemma SecondFour(dst: array<byte>, prefix: Buffer, op: nat, offset: nat)
    requires offset < 8 && offset <= op && op + 8 <= dst.Length && |prefix| == op + 4 && dst[..op + 4] == prefix
    requires offset > 0 ==> forall k :: op <= k < op + 4 ==> prefix[k] == prefix[k - offset]
    requires forall k :: op + 4 <= k < op + 8 ==> dst[k] == dst[k - (4 + offset - INC32[offset])]
    ensures offset > 0 ==> forall k :: op <= k < op + 8 ==> dst[k] == dst[k - offset]
  {
    if offset > 0 {
      assert forall k :: 0 <= k < op + 4 ==> dst[k] == prefix[k];
      var d := 4 + offset - INC32[offset];
      assert forall k :: op <= k < op + 4 ==> dst[k] == dst[k - offset];
      forall k | op + 4 <= k < op + 8 ensures dst[k] == dst[k - offset] {
        assert dst[k] == dst[k - d];
        if offset <= 2 {
          assert dst[op + 1] == dst[op + 1 - offset] && dst[op + 2] == dst[op + 2 - offset]
                 && dst[op + 3] == dst[op + 3 - offset];
          assert dst[op + 4] == dst[op] && dst[op + 5] == dst[op + 1] && dst[op + 6] == dst[op + 2];
        } else if offset == 3 {
          assert dst[op + 4] == dst[op - 2] && dst[k - 6] == dst[k - d];
        }
      }
    }
  }

  // The first eight bytes and what was copied after them together repeat with the offset.
  lemma Assembled(s: Buffer, out: Buffer, offset: nat, len: nat)
    requires 0 < offset <= |out| && |s| == |out| + len && s[..|out|] == out && len >= 8
    requires forall k :: |out| <= k < |out| + 8 ==> s[k] == s[k - offset]
    requires forall k :: |out| + 8 <= k < |s| ==> s[k] == s[k - SecondDistance(offset)]
    ensures s == CopyMatch(out, offset, len)
  {
    if offset < 8 {
      var times := SecondDistanceMultiple(offset);
      LongerPeriod(s, |out|, offset, times);
    } else {
      assert Repeats(s, |out|, offset);
    }
    RepeatsIsCopy(s, out, offset, len);
  }

  lemma AssembledPrefix(s: Buffer, out: Buffer, offset: nat, len: nat)
    requires 0 < offset <= |out| && |s| >= |out| + len && |s| >= |out| + 8 && s[..|out|] == out
    requires forall k :: |out| <= k < |out| + 8 ==> s[k] == s[k - offset]
    requires forall k :: |out| + 8 <= k < |out| + len ==> s[k] == s[k - SecondDistance(offset)]
    ensures s[..|out| + len] == CopyMatch(out, offset, len)
  {
    var t := s[..|out| + len];
    assert t[..|out|] == out;
    if len >= 8 {
      Assembled(t, out, offset, len);
    } else {
      RepeatsIsCopy(t, out, offset, len);
    }
  }

  // LZ4_memcpy_using_offset_base.
  method CopyUsingOffsetBase(dst: array<byte>, op: nat, offset: nat, len: nat)
    requires offset <= op && op + 16 <= dst.Length && op + len + 7 <= dst.Length
    modifies dst
    ensures dst[..op] == old(dst[..op])
    ensures offset > 0 ==> dst[..op + len] == CopyMatch(old(dst[..op]), offset, len)
  {
    hide CopyMatch;
    var m := FirstEight(dst, op, offset);
    ghost var prefix := dst[..op + 8];
    WildCopy8(dst, op + 8, m, op + len);
    assert dst[..op] == prefix[..op];
    if offset > 0 {
      Kept(dst, prefix, op, offset);
      AssembledPrefix(dst[..], prefix[..op], offset, len);
    }
  }

  // The pattern of offsets 1, 2 and 4, eight bytes long.
  function Pattern(dst: Buffer, m: nat, offset: nat): (v: Buffer)
    requires (offset == 1 || offset == 2 || offset == 4) && m + offset <= |dst|
    ensures |v| == 8
  {
    if offset == 1 then seq(8, _ => dst[m])
    else if offset == 2 then dst[m..m + 2] + dst[m..m + 2] + dst[m..m + 2] + dst[m..m + 2]
    else dst[m..m + 4] + dst[m..m + 4]
  }

  lemma PatternStays(was: Buffer, now: Buffer, op: nat, offset: nat)
    requires (offset == 1 || offset == 2 || offset == 4) && offset <= op <= |was| == |now| && was[..op] == now[..op]
    ensures Pattern(was, op - offset, offset) == Pattern(now, op - offset, offset)
  {
    assert forall k :: 0 <= k < op ==> was[k] == was[..op][k] == now[k];
  }

  lemma PatternRepeats(dst: Buffer, op: nat, offset: nat, k: nat)
    requires (offset == 1 || offset == 2 || offset == 4) && offset <= op <= |dst| && k < 8
    ensures Pattern(dst, op - offset, offset)[k]
            == if k < offset then dst[op - offset + k] else Pattern(dst, op - offset, offset)[k - offset]
  {
  }

  method PutPattern(dst: array<byte>, d: nat, v: Buffer)
    requires |v| == 8 && d + 8 <= dst.Length
    modifies dst
    ensures dst[..d] == old(dst[..d]) && dst[d..d + 8] == v
  {
    forall k | d <= k < d + 8 { dst[k] := v[k - d]; }
  }

  // LZ4_memcpy_using_offset, for offsets 1, 2 and 4: the pattern, over and over.
  method CopyPattern(dst: array<byte>, op: nat, offset: nat, len: nat)
    requires offset == 1 || offset == 2 || offset == 4
    requires offset <= op && op + 8 <= dst.Length && op + len + 7 <= dst.Length
    modifies dst
    ensures dst[..op] == old(dst[..op])
    ensures dst[..op + len] == CopyMatch(old(dst[..op]), offset, len)
  {
    hide CopyMatch, Repeats, Pattern;
    ghost var was, out := dst[..], dst[..op];
    var v := Pattern(dst[..], op - offset, offset);
    PutPattern(dst, op, v);
    assert was[..op] == out == dst[..][..op];
    PatternStays(was, dst[..], op, offset);
    FirstPattern(dst[..], out, offset, v);
    ghost var prefix := dst[..op + 8];
    RepeatPattern(dst, op + 8, v, op + len);
    assert dst[..op] == prefix[..op];
    Kept(dst, prefix, op, offset);
    AssembledPrefix(dst[..], out, offset, len);
  }

  method RepeatPattern(dst: array<byte>, d: nat, v: Buffer, e: nat)
    requires |v| == 8 && 8 <= d <= dst.Length && dst[d - 8..d] == v && e + 7 <= dst.Length
    modifies dst
    ensures dst[..d] == old(dst[..d])
    ensures forall k :: d <= k < e ==> dst[k] == dst[k - 8]
  {
    var cur := d;
    ghost var first := dst[..d];
    while cur < e
      invariant d <= cur <= dst.Length && dst[..d] == first
      invariant dst[cur - 8..cur] == v
      invariant Repeats(dst[..cur], d, 8)
    {
      ghost var before := dst[..cur];
      assert before[cur - 8..] == v;
      PutPattern(dst, cur, v);
      NextPattern(dst[..cur + 8], before, d, v);
      assert dst[..d] == before[..d];
      cur := cur + 8;
    }
  }

  lemma FirstPattern(s: Buffer, out: Buffer, offset: nat, v: Buffer)
    requires (offset == 1 || offset == 2 || offset == 4) && offset <= |out| && |out| + 8 <= |s|
    requires s[..|out|] == out && s[|out|..|out| + 8] == v && v == Pattern(s, |out| - offset, offset)
    ensures forall k :: |out| <= k < |out| + 8 ==> s[k] == s[k - offset]
  {
    forall k | |out| <= k < |out| + 8 ensures s[k] == s[k - offset] {
      PatternRepeats(s, |out|, offset, k - |out|);
      assert s[k] == s[|out|..|out| + 8][k - |out|];
      if k - |out| >= offset {
        assert s[k - offset] == s[|out|..|out| + 8][k - offset - |out|];
      }
    }
  }

  lemma NextPattern(s: Buffer, before: Buffer, d: nat, v: Buffer)
    requires 8 <= d <= |before| && |s| == |before| + 8 && s[..|before|] == before && |v| == 8
    requires before[|before| - 8..] == v && s[|before|..] == v
    requires Repeats(before, d, 8)
    ensures Repeats(s, d, 8)
  {
    var cur := |before|;
    forall k | d <= k < |s| ensures s[k] == s[k - 8] {
      if k < cur {
        assert s[k] == before[k] && s[k - 8] == before[k - 8];
      } else {
        assert s[k] == s[cur..][k - cur];
        assert s[k - 8] == before[k - 8] == before[cur - 8..][k - cur];
      }
    }
  }

  // LZ4_memcpy_using_offset.
  method CopyUsingOffset(dst: array<byte>, op: nat, offset: nat, len: nat)
    requires offset <= op && op + 16 <= dst.Length && op + len + 7 <= dst.Length
    modifies dst
    ensures dst[..op] == old(dst[..op])
    ensures offset > 0 ==> dst[..op + len] == CopyMatch(old(dst[..op]), offset, len)
  {
    if offset == 1 || offset == 2 || offset == 4 {
      CopyPattern(dst, op, offset, len);
    } else {
      CopyUsingOffsetBase(dst, op, offset, len);
    }
  }

  // The shortcut: 18 bytes at once for a match of at most 18 bytes and an offset of at least 8.
  method Copy18(dst: array<byte>, op: nat, offset: nat, len: nat)
    requires 8 <= offset <= op && op + 18 <= dst.Length && len <= 18
    modifies dst
    ensures dst[..op] == old(dst[..op])
    ensures dst[..op + len] == CopyMatch(old(dst[..op]), offset, len)
  {
    hide CopyMatch;
    var m := op - offset;
    ghost var out := dst[..op];
    CopyUnit(dst, op, m, 8);
    ghost var first := dst[..op + 8];
    CopyUnit(dst, op + 8, m + 8, 8);
    Kept(dst, first, op, offset);
    ghost var second := dst[..op + 16];
    assert second[..op] == first[..op] == out;
    CopyUnit(dst, op + 16, m + 16, 2);
    Kept(dst, second, op, offset);
    ghost var s := dst[..op + len];
    assert s[..op] == second[..op];
    RepeatsIsCopy(s, out, offset, len);
  }

  // LZ4_wildCopy32 as a match copy.
  method CopyMatch32(dst: array<byte>, op: nat, offset: nat, len: nat)
    requires 16 <= offset <= op && op + 32 <= dst.Length && op + len + 31 <= dst.Length
    modifies dst
    ensures dst[..op] == old(dst[..op])
    ensures dst[..op + len] == CopyMatch(old(dst[..op]), offset, len)
  {
    hide CopyMatch;
    ghost var out := dst[..op];
    WildCopy32(dst, op, op - offset, op + len);
    ghost var s := dst[..op + len];
    assert s[..op] == out;
    RepeatsIsCopy(s, out, offset, len);
  }

  // The match copy of the safe loop. It fails when the match would reach into the last five bytes of the output.
  method SafeMatchCopy(dst: array<byte>, op: nat, offset: nat, len: nat) returns (ok: bool)
    requires offset <= op && op + 12 <= dst.Length && len >= MINMATCH
    modifies dst
    ensures ok <==> op + len + LASTLITERALS <= dst.Length
    ensures dst[..op] == old(dst[..op])
    ensures ok && offset > 0 ==> dst[..op + len] == CopyMatch(old(dst[..op]), offset, len)
  {
    hide CopyMatch;
    var oend, cpy := dst.Length, op + len;
    var m := FirstEight(dst, op, offset);
    ghost var prefix := dst[..op + 8];
    if cpy + 12 > oend {
      if cpy + LASTLITERALS > oend { return false; }
      CopyNearEnd(dst, op + 8, m, cpy);
    } else {
      CopyUnit(dst, op + 8, m, 8);
      if len > 16 {
        ghost var sixteen := dst[..op + 16];
        WildCopy8(dst, op + 16, m + 8, cpy);
        Kept(dst, sixteen, op + 8, op + 8 - m);
        assert dst[..op + 8] == sixteen[..op + 8];
      }
    }
    ok := true;
    assert dst[..op] == prefix[..op];
    if offset > 0 {
      Kept(dst, prefix, op, offset);
      AssembledPrefix(dst[..], prefix[..op], offset, len);
    }
  }

  // Close to the end of the output: by eight up to seven bytes before it, then byte by byte.
  method CopyNearEnd(dst: array<byte>, d: nat, m: nat, cpy: nat)
    requires m + 8 <= d && d <= dst.Length && cpy <= dst.Length
    modifies dst
    ensures dst[..d] == old(dst[..d])
    ensures forall k :: d <= k < cpy ==> dst[k] == dst[k - (d - m)]
  {
    var cur, dist, oCopyLimit := d, d - m, dst.Length - 7;
    ghost var before := dst[..d];
    if cur < oCopyLimit {
      WildCopy8(dst, cur, m, oCopyLimit);
      cur := oCopyLimit;
    }
    while cur < cpy
      invariant d <= cur <= dst.Length && dst[..d] == before
      invariant forall k :: d <= k < cur ==> dst[k] == dst[k - dist]
    {
      dst[cur] := dst[cur - dist];
      cur := cur + 1;
    }
  }
}
