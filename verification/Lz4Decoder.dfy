// LZ4_decompress_safe: the fast loop, the safe loop and the jumps between them. Nothing is required of the input:
// every access to src and dst is in bounds for every input, and the result is judged against the block format.
module Lz4Decoder {
  import opened Bytes
  import opened Lz4Format
  import opened Lz4Copies

  const FASTLOOP_SAFE_DISTANCE: nat := 64
  // Sizes are signed ints.
  const MAX_OUTPUT: nat := 0x7FFF_FFFF
  const MAX_INPUT: nat := 0x7FFF_FFFF

  // No run of length bytes adds up to more than 32 bits hold. Inputs of up to 16843009 bytes have none (ShortIsExact).
  ghost predicate NoWrap(src: Buffer) {
    forall start: nat, end: nat :: start <= end < |src| && AllOnes(src, start, end) ==>
        255 * (end - start) + src[end] < U32
  }

  lemma ShortIsExact(src: Buffer)
    requires |src| <= 16843009
    ensures NoWrap(src)
  {
  }

  // What is being shown about a run of the decoder, on the block read with its 32-bit lengths: `exact` that a success
  // is the meaning of the block; `conforming` that the block respects the end-of-block restrictions for n bytes, and
  // that n bytes fit.
  datatype Goal = Goal(exact: bool, conforming: bool, n: nat)

  ghost predicate Sensible(g: Goal, src: Buffer, capacity: nat) {
    && (g.conforming ==> g.exact && g.n <= capacity && g.n <= MAX_OUTPUT)
    && (g.exact ==> g.conforming || NoWrap(src) || |src| <= MAX_INPUT)
  }

  // Between two sequences: reading on from ip with `out` produced gives what the block means.
  predicate AtToken(g: Goal, src: Buffer, ip: nat, out: Buffer) {
    && ip < |src| && (g.conforming ==> g.exact)
    && (g.exact && !BlockMeaning(src, true).ZeroOffset? ==> BlockMeaning(src, true) == Decode(src, ip, out, true))
    && (g.conforming ==> Conforms(src, ip, |out|, g.n, true))
  }

  // The literal length is known, and its literals start at lit.
  predicate AtLiterals(g: Goal, src: Buffer, ip: nat, lit: nat, length: nat, out: Buffer) {
    && AtToken(g, src, ip, out) && ip < lit <= |src|
    && (g.exact ==> lit + length > |src| || ParseLiterals(src, ip, true) == Some(Run(length, lit)))
    && (g.conforming ==> ParseLiterals(src, ip, true) == Some(Run(length, lit)))
  }

  // The offset and the length of the match are known.
  predicate AtMatch(g: Goal, src: Buffer, next: nat, offset: nat, length: nat, out: Buffer) {
    && next < |src| && length >= MINMATCH && (g.conforming ==> g.exact)
    && (g.exact && !BlockMeaning(src, true).ZeroOffset? ==>
        && offset > 0
        && (offset <= |out|
            ==> BlockMeaning(src, true) == Decode(src, next, CopyMatch(out, offset, length), true)))
    && (g.conforming ==>
        && |out| + MFLIMIT <= g.n && 0 < offset <= |out| && |out| + length + LASTLITERALS <= g.n
        && Conforms(src, next, |out| + length, g.n, true))
  }

  // ---------------------------------------------------------------------------------------------
  // Steps
  // ---------------------------------------------------------------------------------------------

  // Once the match of a sequence is read, the whole sequence is known.
  lemma SequenceRead(g: Goal, src: Buffer, ip: nat, lit: nat, length: nat, out: Buffer, run: Run)
    requires AtLiterals(g, src, ip, lit, length, out)
    requires lit + length + 2 <= |src| && run.next < |src|
    requires g.exact ==> ParseMatch(src, src[ip], lit + length, true) == Some(run)
    ensures AtMatch(g, src, run.next, ReadLE16(src, lit + length), run.length + MINMATCH, out + src[lit..lit + length])
            <==> true
  {
    hide ParseLiterals, ParseMatch, ReadLE16, Decode, Conforms, CopyMatch, BlockMeaning;
    if g.exact {
      var offset := ReadLE16(src, lit + length);
      var step := Seq(lit, length, offset, run.length + MINMATCH, run.next);
      assert ParseStep(src, ip, true) == step;
      SequenceMeaning(src, ip, out);
      ConformsSequence(src, ip, |out|, g.n, true);
    }
  }

  lemma SequenceMeaning(src: Buffer, ip: nat, out: Buffer)
    requires ParseStep(src, ip, true).Seq?
    ensures var s := ParseStep(src, ip, true);
            Decode(src, ip, out, true)
              == if s.offset == 0 then ZeroOffset
                 else if s.offset > |out| + s.litLength then Malformed
                 else var out1 := out + src[s.lit..s.lit + s.litLength];
                      Decode(src, s.next, CopyMatch(out1, s.offset, s.matchLength), true)
  {
    hide ParseStep, CopyMatch;
  }

  // After the copy of a match, the decoder is between two sequences again.
  lemma MatchCopied(g: Goal, src: Buffer, next: nat, offset: nat, length: nat, out: Buffer, out': Buffer)
    requires AtMatch(g, src, next, offset, length, out)
    requires offset <= |out| && |out'| == |out| + length
    requires offset > 0 ==> out' == CopyMatch(out, offset, length)
    ensures AtToken(g, src, next, out') <==> true
  {
    hide Decode, Conforms, CopyMatch, BlockMeaning;
  }

  // The last literals end exactly at the end of the input.
  lemma LastRead(g: Goal, src: Buffer, ip: nat, lit: nat, length: nat, out: Buffer)
    requires AtLiterals(g, src, ip, lit, length, out) && lit + length == |src|
    ensures g.exact && !BlockMeaning(src, true).ZeroOffset? ==> BlockMeaning(src, true) == Plain(out + src[lit..])
    ensures g.conforming ==> |out| + length == g.n
  {
    hide ParseLiterals, Decode, Conforms, BlockMeaning;
    if g.exact {
      assert ParseStep(src, ip, true) == Last(lit, length);
      LastStep(src, ip, out, g.n, true);
    }
  }

  // On a conforming block, the checks of the decoder on a sequence that is not the last all pass.
  lemma ConformingSequence(g: Goal, src: Buffer, ip: nat, lit: nat, length: nat, out: Buffer)
    requires g.conforming && AtLiterals(g, src, ip, lit, length, out)
    ensures lit + length <= |src|
    ensures lit + length == |src| ==> |out| + length == g.n
    ensures lit + length < |src| ==> lit + length + 3 + LASTLITERALS <= |src| && |out| + length + MFLIMIT <= g.n
    ensures lit + length < |src| ==>
      && ParseMatch(src, src[ip], lit + length, true).Some?
      && ParseMatch(src, src[ip], lit + length, true).value.next + 1 + LASTLITERALS <= |src|
      && |out| + length + ParseMatch(src, src[ip], lit + length, true).value.length + MINMATCH + LASTLITERALS <= g.n
  {
    hide ParseLiterals, ParseMatch, ReadLE16, Decode, BlockMeaning;
    var step := ParseStep(src, ip, true);
    assert !step.Bad?;
    if step.Seq? {
      ConformsSequence(src, ip, |out|, g.n, true);
      ConformingTail(src, step.next, |out| + step.litLength + step.matchLength, g.n, true);
    } else {
      LastStep(src, ip, out, g.n, true);
    }
  }

  // ---------------------------------------------------------------------------------------------
  // Variable-length counts
  // ---------------------------------------------------------------------------------------------

  datatype LengthError = NoError | LoopError | InitialError

  lemma WrapAdd(a: nat, b: nat)
    ensures Wrap(Wrap(a) + b) == Wrap(a + b)
  {
  }

  // The bytes from start to ip - 1 are all 255.
  predicate AllOnes(src: Buffer, start: nat, ip: nat)
    requires ip <= |src|
  {
    forall k :: start <= k < ip ==> src[k] == 255
  }

  lemma {:induction false} ReadRunPast(src: Buffer, start: nat, ip: nat)
    requires start <= ip < |src| && AllOnes(src, start, ip)
    ensures src[ip] != 255 ==> ReadRun(src, start) == Some(Run(255 * (ip - start) + src[ip], ip + 1))
    ensures src[ip] == 255 && ReadRun(src, start).Some? ==> ReadRun(src, start).value.next > ip + 1
    decreases ip - start
  {
    if start < ip {
      ReadRunPast(src, start + 1, ip);
    } else if src[ip] == 255 && ReadRun(src, ip).Some? {
      assert ReadRun(src, ip + 1).Some?;
    }
  }

  // A run that breaks off at the end of an input of a possible size does not look like one of length zero.
  lemma BrokenRun(g: Goal, src: Buffer, capacity: nat, start: nat, end: nat)
    requires Sensible(g, src, capacity) && start <= end < |src| && AllOnes(src, start, end) && src[end] == 255
    ensures g.exact && !g.conforming ==> Wrap(255 * (end - start) + src[end]) > 0
  {
    if |src| <= MAX_INPUT {
      NoMultiple(end - start + 1);
    }
  }

  lemma NoMultiple(k: nat)
    requires 0 < k <= MAX_INPUT
    ensures Wrap(255 * k) > 0
  {
    var q := 255 * k / U32;
    assert q < 128;
    assert 255 * (k - 16843009 * q) == q + Wrap(255 * k);
  }

  // A length is read as the format gives it exactly when its bytes add up to less than 2^32.
  lemma LengthIsExact(src: Buffer, start: nat, end: nat)
    requires start <= end < |src| && AllOnes(src, start, end) && src[end] != 255
    ensures var sum := 255 * (end - start) + src[end];
            ReadRun(src, start) == Some(Run(Wrap(sum), end + 1)) <==> sum < U32
  {
    ReadRunPast(src, start, end);
  }

  // read_variable_length, with the check in the loop always on; the sum has 32 bits. All bytes read but the last are
  // 255.
  method ReadVariableLength(src: Buffer, start: nat, lencheck: int, initialCheck: bool)
    returns (length: nat, ip: nat, error: LengthError)
    requires lencheck <= |src| && start <= |src| && (initialCheck || start < |src|)
    ensures error.InitialError? <==> initialCheck && start >= lencheck
    ensures start <= ip <= |src|
    ensures !error.InitialError? ==> start < ip && AllOnes(src, start, ip - 1)
    ensures !error.InitialError? ==> length == Wrap(255 * (ip - 1 - start) + src[ip - 1])
    ensures error.NoError? ==> ip < lencheck && src[ip - 1] != 255
    ensures error.LoopError? ==> lencheck <= ip && (ip == start + 1 || ip == lencheck)
  {
    length, ip, error := 0, start, NoError;
    if initialCheck && start >= lencheck {
      return 0, start, InitialError;
    }
    while true
      invariant start <= ip < |src| && (ip == start || ip < lencheck)
      invariant AllOnes(src, start, ip) && length == Wrap(255 * (ip - start))
      decreases |src| - ip
    {
      var s: nat := src[ip];
      ip := ip + 1;
      WrapAdd(255 * (ip - 1 - start), s);
      length := Wrap(length + s);
      if ip >= lencheck {
        return length, ip, LoopError;
      }
      if s != 255 { break; }
    }
  }

  // ---------------------------------------------------------------------------------------------
  // The literals of a sequence
  // ---------------------------------------------------------------------------------------------

  lemma ConformingLiterals(g: Goal, src: Buffer, ip: nat, out: Buffer)
    requires g.conforming && AtToken(g, src, ip, out) && src[ip] / 16 == RUN_MASK
    ensures ReadRun(src, ip + 1).Some?
    ensures var run := ReadRun(src, ip + 1).value;
            run.next + RUN_MASK + Wrap(run.length) <= |src| && RUN_MASK + Wrap(run.length) <= g.n
  {
    hide ParseMatch, ReadLE16, Decode, BlockMeaning, ReadRun;
    assert !ParseStep(src, ip, true).Bad?;
  }

  // A long literal length, as read_variable_length returned it.
  lemma LiteralLengthRead(g: Goal, src: Buffer, capacity: nat, ip: nat, lit: nat, l: nat, error: LengthError,
                          out: Buffer)
    requires Sensible(g, src, capacity) && AtToken(g, src, ip, out) && src[ip] / 16 == RUN_MASK
    requires error.InitialError? ==> ip + 1 >= |src| - RUN_MASK
    requires !error.InitialError? ==> ip + 1 < lit <= |src| && AllOnes(src, ip + 1, lit - 1)
    requires !error.InitialError? ==> l == Wrap(255 * (lit - 1 - (ip + 1)) + src[lit - 1])
    requires error.NoError? ==> src[lit - 1] != 255
    requires error.LoopError? ==> |src| - RUN_MASK <= lit
    ensures g.conforming ==> !error.InitialError?
    ensures !error.InitialError? ==> (AtLiterals(g, src, ip, lit, RUN_MASK + l, out) <==> true)
  {
    hide Decode, Conforms, BlockMeaning;
    if g.conforming {
      ConformingLiterals(g, src, ip, out);
    }
    if !error.InitialError? {
      ReadRunPast(src, ip + 1, lit - 1);
      if src[lit - 1] == 255 {
        BrokenRun(g, src, capacity, ip + 1, lit - 1);
      }
    }
  }

  method ReadLiterals(src: Buffer, ip: nat, ghost g: Goal, ghost capacity: nat, ghost out: Buffer)
    returns (ok: bool, lit: nat, length: nat)
    requires Sensible(g, src, capacity) && AtToken(g, src, ip, out)
    ensures g.conforming ==> ok
    ensures ok ==> (AtLiterals(g, src, ip, lit, length, out) <==> true)
    ensures ok && length < RUN_MASK ==> lit == ip + 1
  {
    hide Decode, Conforms, BlockMeaning, AllOnes, Wrap, ReadRun;
    lit, length, ok := ip + 1, src[ip] / 16, true;
    if length == RUN_MASK {
      var l, next, error := ReadVariableLength(src, lit, |src| - RUN_MASK, true);
      LiteralLengthRead(g, src, capacity, ip, next, l, error, out);
      if error.InitialError? {
        return false, lit, length;
      }
      lit, length := next, length + l;
    }
  }

  // ---------------------------------------------------------------------------------------------
  // The match of a sequence
  // ---------------------------------------------------------------------------------------------

  lemma MatchLengthRead(g: Goal, src: Buffer, capacity: nat, ip: nat, lit: nat, length: nat, next: nat, l: nat,
                        error: LengthError, out: Buffer)
    requires Sensible(g, src, capacity) && AtLiterals(g, src, ip, lit, length, out)
    requires lit + length + 3 <= |src| && src[ip] % 16 == RUN_MASK && !error.InitialError?
    requires lit + length + 2 < next <= |src| && AllOnes(src, lit + length + 2, next - 1)
    requires l == Wrap(255 * (next - 1 - (lit + length + 2)) + src[next - 1])
    requires error.NoError? ==> src[next - 1] != 255
    requires error.LoopError? ==> |src| - LASTLITERALS + 1 <= next
    ensures g.conforming ==> error.NoError?
    ensures error.NoError? && g.exact
            ==> ParseMatch(src, src[ip], lit + length, true) == Some(Run(RUN_MASK + l, next))
  {
    hide Decode, Conforms, BlockMeaning, ParseLiterals;
    if g.conforming {
      ConformingSequence(g, src, ip, lit, length, out);
    }
    ReadRunPast(src, lit + length + 2, next - 1);
  }

  // The offset and the match length after the literals, which end three bytes at least before the end of the input.
  // The fast loop looks at the offset before it reads a long length.
  method ReadMatch(src: Buffer, ip: nat, lit: nat, litLength: nat, op: nat, fast: bool,
                   ghost g: Goal, ghost capacity: nat, ghost out: Buffer)
    returns (ok: bool, next: nat, offset: nat, length: nat)
    requires Sensible(g, src, capacity) && AtLiterals(g, src, ip, lit, litLength, out)
    requires lit + litLength + 3 <= |src| && op == |out| + litLength
    ensures g.conforming ==> ok
    ensures ok ==> (AtMatch(g, src, next, offset, length, out + src[lit..lit + litLength]) <==> true)
    ensures ok ==> ip < next
  {
    hide Decode, Conforms, BlockMeaning, AllOnes, Wrap, ReadRun, ParseLiterals, ParseMatch;
    var end := lit + litLength;
    offset, next, length, ok := ReadLE16(src, end), end + 2, src[ip] % 16, true;
    ghost var run := Run(length, next);
    if length == RUN_MASK {
      if fast && offset > op {
        OffsetRead(g, src, ip, lit, litLength, out);
        return false, next, offset, length;
      }
      var l, after, error := ReadVariableLength(src, next, |src| - LASTLITERALS + 1, false);
      MatchLengthRead(g, src, capacity, ip, lit, litLength, after, l, error, out);
      if error != NoError {
        return false, next, offset, length;
      }
      next, length := after, length + l;
      run := Run(length, next);
    } else {
      ShortMatchRead(src, src[ip], end);
    }
    SequenceRead(g, src, ip, lit, litLength, out, run);
    length := length + MINMATCH;
  }

  lemma ShortMatchRead(src: Buffer, token: byte, end: nat)
    requires end + 2 <= |src| && token % 16 != RUN_MASK
    ensures ParseMatch(src, token, end, true) == Some(Run(token % 16, end + 2))
  {
  }

  lemma OffsetRead(g: Goal, src: Buffer, ip: nat, lit: nat, length: nat, out: Buffer)
    requires AtLiterals(g, src, ip, lit, length, out) && lit + length + 3 <= |src|
    ensures g.conforming ==> ReadLE16(src, lit + length) <= |out| + length
  {
    hide Decode, BlockMeaning, ParseLiterals, ParseMatch, ReadLE16;
    if g.conforming {
      ConformingSequence(g, src, ip, lit, length, out);
      assert ParseStep(src, ip, true).Seq?;
      ConformsSequence(src, ip, |out|, g.n, true);
    }
  }

  // ---------------------------------------------------------------------------------------------
  // The safe loop
  // ---------------------------------------------------------------------------------------------

  // The whole block is read, and `out` is what it means.
  predicate Finished(g: Goal, src: Buffer, out: Buffer) {
    && (g.exact && !BlockMeaning(src, true).ZeroOffset? ==> BlockMeaning(src, true) == Plain(out))
    && (g.conforming ==> |out| == g.n)
  }

  datatype Exit = More | Done | Failed

  // safe_literal_copy: near either end this must be the last run of literals.
  method SafeLiteralCopy(src: Buffer, ip: nat, lit: nat, length: nat, dst: array<byte>, op: nat,
                         ghost g: Goal, ghost out: Buffer)
    returns (exit: Exit)
    requires op <= dst.Length && dst[..op] == out && AtLiterals(g, src, ip, lit, length, out)
    requires Sensible(g, src, dst.Length)
    modifies dst
    ensures g.conforming ==> !exit.Failed?
    ensures exit.Done? ==> op + length <= dst.Length && (Finished(g, src, dst[..op + length]) <==> true)
    ensures exit.More? ==> lit + length + 2 + 1 + LASTLITERALS <= |src| && op + length + MFLIMIT <= dst.Length
    ensures exit.More? ==> dst[..op + length] == out + src[lit..lit + length]
  {
    hide Decode, Conforms, BlockMeaning, ParseLiterals, ParseMatch;
    var cpy := op + length;
    if g.conforming {
      ConformingSequence(g, src, ip, lit, length, out);
    }
    if cpy + MFLIMIT > dst.Length || lit + length + (2 + 1 + LASTLITERALS) > |src| {
      if lit + length != |src| || cpy > dst.Length { return Failed; }
      CopyLiterals(src, lit, dst, op, length);
      LastRead(g, src, ip, lit, length, out);
      assert src[lit..lit + length] == src[lit..];
      return Done;
    }
    WildCopyLiterals(src, lit, dst, op, cpy);
    return More;
  }

  // safe_match_copy, up to the next token.
  method FinishMatch(src: Buffer, next: nat, offset: nat, length: nat, dst: array<byte>, op: nat,
                     ghost g: Goal, ghost out: Buffer)
    returns (exit: Exit)
    requires op + MFLIMIT <= dst.Length && dst[..op] == out && AtMatch(g, src, next, offset, length, out)
    requires Sensible(g, src, dst.Length)
    modifies dst
    ensures !exit.Done? && (g.conforming ==> exit.More?)
    ensures exit.More? ==> op + length <= dst.Length && (AtToken(g, src, next, dst[..op + length]) <==> true)
  {
    hide Decode, Conforms, BlockMeaning, CopyMatch;
    if offset > op { return Failed; }
    var ok := SafeMatchCopy(dst, op, offset, length);
    if !ok { return Failed; }
    MatchCopied(g, src, next, offset, length, out, dst[..op + length]);
    return More;
  }

  // From literals whose length is known, to the next token or the end of the block.
  method FinishSequence(src: Buffer, ip: nat, lit: nat, length: nat, dst: array<byte>, start: nat,
                        ghost g: Goal, ghost out: Buffer)
    returns (exit: Exit, next: nat, op: nat)
    requires start <= dst.Length && dst[..start] == out && AtLiterals(g, src, ip, lit, length, out)
    requires Sensible(g, src, dst.Length)
    modifies dst
    ensures g.conforming ==> !exit.Failed?
    ensures exit.Done? ==> op <= dst.Length && (Finished(g, src, dst[..op]) <==> true)
    ensures exit.More? ==> op <= dst.Length && ip < next && (AtToken(g, src, next, dst[..op]) <==> true)
  {
    hide AtLiterals, AtMatch, AtToken, Finished, Sensible;
    exit := SafeLiteralCopy(src, ip, lit, length, dst, start, g, out);
    next, op := ip, start + length;
    if !exit.More? { return; }
    var ok, offset, matchLength;
    ok, next, offset, matchLength := ReadMatch(src, ip, lit, length, op, false, g, dst.Length, out);
    if !ok { return Failed, next, op; }
    exit := FinishMatch(src, next, offset, matchLength, dst, op, g, dst[..op]);
    op := op + matchLength;
  }

  // The two-stage shortcut: sixteen bytes for the literals, then eighteen for the match if that is enough.
  method Shortcut(src: Buffer, ip: nat, lit: nat, length: nat, dst: array<byte>, start: nat,
                  ghost g: Goal, ghost out: Buffer)
    returns (exit: Exit, next: nat, op: nat)
    requires start + 32 <= dst.Length && dst[..start] == out && AtLiterals(g, src, ip, lit, length, out)
    requires length < RUN_MASK && lit + 16 < |src| && Sensible(g, src, dst.Length)
    modifies dst
    ensures !exit.Done? && (g.conforming ==> exit.More?)
    ensures exit.More? ==> op <= dst.Length && ip < next && (AtToken(g, src, next, dst[..op]) <==> true)
  {
    hide AtLiterals, AtMatch, AtToken, Sensible, CopyMatch;
    CopyLiteralUnit(src, lit, dst, start, 16, length);
    op := start + length;
    var ok, offset, matchLength;
    ok, next, offset, matchLength := ReadMatch(src, ip, lit, length, op, false, g, dst.Length, out);
    exit := More;
    if !ok { return Failed, next, op; }
    ghost var out1 := dst[..op];
    if matchLength < RUN_MASK + MINMATCH && offset >= 8 && offset <= op {
      Copy18(dst, op, offset, matchLength);
      MatchCopied(g, src, next, offset, matchLength, out1, dst[..op + matchLength]);
    } else {
      exit := FinishMatch(src, next, offset, matchLength, dst, op, g, out1);
    }
    op := op + matchLength;
  }

  method SafeIteration(src: Buffer, ip: nat, dst: array<byte>, start: nat, ghost g: Goal)
    returns (exit: Exit, next: nat, op: nat)
    requires start <= dst.Length && AtToken(g, src, ip, dst[..start]) && Sensible(g, src, dst.Length)
    modifies dst
    ensures g.conforming ==> !exit.Failed?
    ensures exit.Done? ==> op <= dst.Length && (Finished(g, src, dst[..op]) <==> true)
    ensures exit.More? ==> op <= dst.Length && ip < next && (AtToken(g, src, next, dst[..op]) <==> true)
  {
    hide AtLiterals, AtToken, Finished, Sensible;
    ghost var out := dst[..start];
    TokenInside(g, src, ip, out);
    var ok, lit, length := ReadLiterals(src, ip, g, dst.Length, out);
    if !ok { return Failed, ip, start; }
    if length < RUN_MASK && lit + 16 < |src| && start + 32 <= dst.Length {
      exit, next, op := Shortcut(src, ip, lit, length, dst, start, g, out);
    } else {
      exit, next, op := FinishSequence(src, ip, lit, length, dst, start, g, out);
    }
  }

  lemma TokenInside(g: Goal, src: Buffer, ip: nat, out: Buffer)
    requires AtToken(g, src, ip, out)
    ensures ip < |src|
  {
  }

  // ---------------------------------------------------------------------------------------------
  // The fast loop
  // ---------------------------------------------------------------------------------------------

  datatype FastExit = Continue | ToLiterals | ToMatch | Broken

  // The literals of a sequence, in the fast loop; otherwise the safe loop takes over at the literals.
  method FastLiterals(src: Buffer, ip: nat, lit: nat, length: nat, dst: array<byte>, op: nat, ghost g: Goal,
                      ghost out: Buffer)
    returns (copied: bool)
    requires op + FASTLOOP_SAFE_DISTANCE <= dst.Length && dst[..op] == out && AtLiterals(g, src, ip, lit, length, out)
    modifies dst
    ensures copied ==> lit + length + 3 <= |src| && op + length + 32 <= dst.Length
    ensures copied ==> dst[..op + length] == out + src[lit..lit + length]
    ensures !copied ==> dst[..op] == out
  {
    hide AtToken;
    if length >= RUN_MASK {
      if op + length + 32 > dst.Length || lit + length + 32 > |src| { return false; }
      WildCopyLiterals32(src, lit, dst, op, op + length);
    } else {
      if lit + 17 > |src| { return false; }
      CopyLiteralUnit(src, lit, dst, op, 16, length);
    }
    return true;
  }

  // The match of a sequence, in the fast loop, far from the end of the output.
  method FastMatch(dst: array<byte>, op: nat, offset: nat, length: nat) returns (ok: bool)
    requires op + length + FASTLOOP_SAFE_DISTANCE < dst.Length
    modifies dst
    ensures ok <==> offset <= op
    ensures ok ==> dst[..op] == old(dst[..op])
    ensures ok && offset > 0 ==> dst[..op + length] == CopyMatch(old(dst[..op]), offset, length)
  {
    hide CopyMatch;
    if length < RUN_MASK + MINMATCH && offset <= op && offset >= 8 {
      Copy18(dst, op, offset, length);
      return true;
    }
    if offset > op { return false; }
    if offset < 16 {
      CopyUsingOffset(dst, op, offset, length);
    } else {
      CopyMatch32(dst, op, offset, length);
    }
    return true;
  }

  method FastIteration(src: Buffer, ip: nat, dst: array<byte>, start: nat, ghost g: Goal)
    returns (exit: FastExit, lit: nat, litLength: nat, next: nat, offset: nat, length: nat, op: nat)
    requires start + FASTLOOP_SAFE_DISTANCE <= dst.Length && AtToken(g, src, ip, dst[..start])
             && Sensible(g, src, dst.Length)
    modifies dst
    ensures g.conforming ==> !exit.Broken?
    ensures op <= dst.Length
    ensures exit.Continue? ==> ip < next && op + FASTLOOP_SAFE_DISTANCE <= dst.Length
    ensures exit.Continue? ==> (AtToken(g, src, next, dst[..op]) <==> true)
    ensures exit.ToLiterals? ==> (AtLiterals(g, src, ip, lit, litLength, dst[..op]) <==> true)
    ensures exit.ToMatch? ==> op + MFLIMIT <= dst.Length && (AtMatch(g, src, next, offset, length, dst[..op]) <==> true)
  {
    hide AtLiterals, AtMatch, AtToken, Sensible, CopyMatch;
    ghost var out := dst[..start];
    TokenInside(g, src, ip, out);
    next, offset, length, op := ip, 0, 0, start;
    var ok;
    ok, lit, litLength := ReadLiterals(src, ip, g, dst.Length, out);
    if !ok { return Broken, lit, litLength, next, offset, length, op; }
    ok := FastLiterals(src, ip, lit, litLength, dst, start, g, out);
    if !ok { return ToLiterals, lit, litLength, next, offset, length, op; }
    op := start + litLength;
    ok, next, offset, length := ReadMatch(src, ip, lit, litLength, op, true, g, dst.Length, out);
    if !ok { return Broken, lit, litLength, next, offset, length, op; }
    if op + length + FASTLOOP_SAFE_DISTANCE >= dst.Length {
      return ToMatch, lit, litLength, next, offset, length, op;
    }
    ghost var out1 := dst[..op];
    OffsetInside(g, src, next, offset, length, out1);
    ok := FastMatch(dst, op, offset, length);
    if !ok { return Broken, lit, litLength, next, offset, length, op; }
    MatchCopied(g, src, next, offset, length, out1, dst[..op + length]);
    return Continue, lit, litLength, next, offset, length, op + length;
  }

  lemma OffsetInside(g: Goal, src: Buffer, next: nat, offset: nat, length: nat, out: Buffer)
    requires AtMatch(g, src, next, offset, length, out)
    ensures g.conforming ==> offset <= |out|
  {
  }

  // ---------------------------------------------------------------------------------------------
  // The decoder
  // ---------------------------------------------------------------------------------------------

  // The fast loop, and the sequence it leaves half done to the safe loop.
  method FastLoop(src: Buffer, dst: array<byte>, ghost g: Goal) returns (exit: Exit, ip: nat, op: nat)
    requires FASTLOOP_SAFE_DISTANCE <= dst.Length && Sensible(g, src, dst.Length) && AtToken(g, src, 0, [])
    modifies dst
    ensures g.conforming ==> !exit.Failed?
    ensures exit.Done? ==> op <= dst.Length && (Finished(g, src, dst[..op]) <==> true)
    ensures exit.More? ==> op <= dst.Length && (AtToken(g, src, ip, dst[..op]) <==> true)
  {
    hide AtLiterals, AtMatch, AtToken, Finished, Sensible;
    ip, op := 0, 0;
    assert dst[..0] == [];
    while true
      invariant op + FASTLOOP_SAFE_DISTANCE <= dst.Length && ip <= |src|
      invariant AtToken(g, src, ip, dst[..op])
      decreases |src| - ip
    {
      TokenInside(g, src, ip, dst[..op]);
      var step, lit, litLength, next, offset, length, end := FastIteration(src, ip, dst, op, g);
      match step
      case Broken =>
        return Failed, ip, op;
      case ToLiterals =>
        exit, ip, op := FinishSequence(src, ip, lit, litLength, dst, end, g, dst[..end]);
        return;
      case ToMatch =>
        exit := FinishMatch(src, next, offset, length, dst, end, g, dst[..end]);
        return exit, next, end + length;
      case Continue =>
        ip, op := next, end;
        TokenInside(g, src, ip, dst[..op]);
    }
  }

  method DecodeBlock(src: Buffer, dst: array<byte>, ghost g: Goal) returns (r: int)
    requires Sensible(g, src, dst.Length) && AtToken(g, src, 0, [])
    modifies dst
    ensures r <= dst.Length && (g.conforming ==> r >= 0)
    ensures r >= 0 ==> (Finished(g, src, dst[..r]) <==> true)
  {
    hide AtToken, Finished, Sensible;
    var exit, ip: nat, op: nat := More, 0, 0;
    assert dst[..0] == [];
    if dst.Length >= FASTLOOP_SAFE_DISTANCE {
      exit, ip, op := FastLoop(src, dst, g);
    }
    while exit.More?
      invariant g.conforming ==> !exit.Failed?
      invariant exit.More? ==> op <= dst.Length && AtToken(g, src, ip, dst[..op])
      invariant exit.Done? ==> op <= dst.Length && Finished(g, src, dst[..op])
      decreases exit.More?, |src| - ip
    {
      TokenInside(g, src, ip, dst[..op]);
      exit, ip, op := SafeIteration(src, ip, dst, op, g);
      if exit.More? { TokenInside(g, src, ip, dst[..op]); }
    }
    if exit.Done? {
      r := op;
    } else {
      r := -(ip as int) - 1;
    }
  }

  // ---------------------------------------------------------------------------------------------
  // The block read with 32-bit lengths, and as the format says
  // ---------------------------------------------------------------------------------------------

  // A step whose lengths have 32 bits is read alike.
  lemma StepReadAlike(src: Buffer, ip: nat)
    requires var s := ParseStep(src, ip); (s.Bad? ==> ip >= |src|)
    requires var s := ParseStep(src, ip); (s.Last? ==> s.litLength < U32)
    requires var s := ParseStep(src, ip); (s.Seq? ==> s.litLength < U32 && s.matchLength < U32)
    ensures ParseStep(src, ip, true) == ParseStep(src, ip)
  {
    hide ReadRun, ReadLE16;
  }

  // So is a conforming block of less than 2^32 bytes.
  lemma {:induction false} ConformingReadAlike(src: Buffer, ip: nat, out: Buffer, n: nat)
    requires Conforms(src, ip, |out|, n) && n < U32
    ensures Conforms(src, ip, |out|, n, true) && Decode(src, ip, out, true) == Decode(src, ip, out)
    decreases |src| - ip
  {
    hide ParseStep, CopyMatch;
    StepReadAlike(src, ip);
    match ParseStep(src, ip)
    case Bad =>
    case Last(_, _) =>
    case Seq(lit, litLength, offset, matchLength, next) =>
      ConformingReadAlike(src, next, CopyMatch(out + src[lit..lit + litLength], offset, matchLength), n);
  }

  lemma {:induction false} RunBelow(src: Buffer, start: nat, ip: nat)
    requires NoWrap(src) && start <= ip <= |src| && AllOnes(src, start, ip)
    ensures ReadRun(src, ip).Some? ==> 255 * (ip - start) + ReadRun(src, ip).value.length < U32
    decreases |src| - ip
  {
    if ip < |src| && src[ip] == 255 {
      RunBelow(src, start, ip + 1);
    }
  }

  // Without a run of length bytes that adds up to 2^32 or more, every block is.
  lemma StepWithoutWrap(src: Buffer, ip: nat)
    requires NoWrap(src)
    ensures ParseStep(src, ip, true) == ParseStep(src, ip)
  {
    hide ReadRun, ReadLE16, NoWrap;
    forall p: nat | p <= |src| ensures ReadRun(src, p).Some? ==> ReadRun(src, p).value.length < U32 {
      RunBelow(src, p, p);
    }
  }

  lemma {:induction false} ReadAlikeWithoutWrap(src: Buffer, ip: nat, out: Buffer)
    requires NoWrap(src)
    ensures Decode(src, ip, out, true) == Decode(src, ip, out)
    decreases |src| - ip
  {
    hide ParseStep, CopyMatch, NoWrap;
    StepWithoutWrap(src, ip);
    match ParseStep(src, ip)
    case Bad =>
    case Last(_, _) =>
    case Seq(lit, litLength, offset, matchLength, next) =>
      var out1 := out + src[lit..lit + litLength];
      if 0 < offset <= |out1| {
        ReadAlikeWithoutWrap(src, next, CopyMatch(out1, offset, matchLength));
      }
  }

  // The only size that src can be a conforming block for.
  ghost function BlockSize(src: Buffer, wraps: bool := false): nat {
    match BlockMeaning(src, wraps)
    case Plain(data) => |data|
    case _ => 0
  }

  ghost predicate IsConforming(src: Buffer, wraps: bool := false) {
    Conforms(src, 0, 0, BlockSize(src, wraps), wraps)
  }

  lemma ConformsAtSize(src: Buffer, n: nat, wraps: bool := false)
    requires Conforms(src, 0, 0, n, wraps)
    ensures BlockSize(src, wraps) == n && BlockMeaning(src, wraps).Plain? && (IsConforming(src, wraps) <==> true)
  {
    hide Decode, Conforms;
    ConformingDecodes(src, 0, [], n, wraps);
  }

  // A block of literals alone whose length is written 2^32 too large.
  function LongRun(literals: Buffer): Buffer {
    LiteralHead(U32 + |literals|) + literals
  }

  // The format has no such block, but read with 32-bit lengths it conforms and means its literals.
  lemma LongRunAccepted(literals: Buffer)
    requires RUN_MASK <= |literals| < U32
    ensures BlockMeaning(LongRun(literals)) == Malformed
    ensures BlockMeaning(LongRun(literals), true) == Plain(literals)
    ensures IsConforming(LongRun(literals), true) && BlockSize(LongRun(literals), true) == |literals|
  {
    hide Extra, ReadRun;
    var v, block := U32 + |literals|, LongRun(literals);
    var token := [16 * RUN_MASK];
    assert block == token + LengthBytes(v) + literals;
    assert block[0] == 16 * RUN_MASK;
    ReadLengthBytes(token, v, literals);
    var lit := 1 + |LengthBytes(v)|;
    assert ParseLiterals(block, 0) == Some(Run(v, lit));
    assert ReadRun(block, 1) == Some(Run(v - RUN_MASK, lit));
    assert ParseLiterals(block, 0, true) == Some(Run(|literals|, lit));
    assert block[lit..] == literals;
    assert ParseStep(block, 0).Bad?;
    assert ParseStep(block, 0, true) == Last(lit, |literals|);
    LastStep(block, 0, [], |literals|, true);
    assert [] + block[lit..] == literals;
  }

  // With no room at all, the decoder only looks whether the block is the single byte 0.
  predicate AcceptedWithoutRoom(src: Buffer) {
    src == [0]
  }

  // A conforming block of the format is one for the decoder too, with the same meaning.
  lemma ConformingAnyway(src: Buffer)
    requires IsConforming(src) && BlockSize(src) <= MAX_OUTPUT
    ensures (IsConforming(src, true) <==> true) && BlockSize(src, true) == BlockSize(src)
    ensures BlockMeaning(src, true) == BlockMeaning(src)
  {
    hide Decode, Conforms;
    ConformingReadAlike(src, 0, [], BlockSize(src));
  }

  // LZ4_decompress_safe. Success means that dst starts with the meaning of the block read with 32-bit lengths, unless a
  // zero offset made that unspecified; and every such block that respects the end-of-block restrictions succeeds if its
  // output fits. Both hold of the block format itself for blocks without a run that wraps, and for those that respect
  // the restrictions by the format. With no room at all, only the block [0] is accepted: others also decode to nothing,
  // such as [1] (RejectedWithoutRoom).
  method DecompressSafe(src: Buffer, dst: array<byte>) returns (r: int)
    modifies dst
    ensures r <= dst.Length
    ensures r >= 0 && |src| <= MAX_INPUT
            ==> BlockMeaning(src, true) == Plain(dst[..r]) || BlockMeaning(src, true) == ZeroOffset
    ensures r >= 0 && NoWrap(src) ==> BlockMeaning(src) == Plain(dst[..r]) || BlockMeaning(src) == ZeroOffset
    ensures dst.Length == 0 ==> (r >= 0 <==> AcceptedWithoutRoom(src))
    ensures IsConforming(src, true) && BlockSize(src, true) <= dst.Length && BlockSize(src, true) <= MAX_OUTPUT
            && 0 < dst.Length
            ==> r == BlockSize(src, true) && BlockMeaning(src, true) == Plain(dst[..r])
    ensures IsConforming(src) && BlockSize(src) <= dst.Length && BlockSize(src) <= MAX_OUTPUT && 0 < dst.Length
            ==> r == BlockSize(src) && BlockMeaning(src) == Plain(dst[..r])
  {
    hide Decode, Conforms, NoWrap;
    if IsConforming(src) && BlockSize(src) <= MAX_OUTPUT {
      ConformingAnyway(src);
    }
    if NoWrap(src) {
      ReadAlikeWithoutWrap(src, 0, []);
    }
    ghost var n := BlockSize(src, true);
    ghost var conforming := IsConforming(src, true) && n <= dst.Length && n <= MAX_OUTPUT;
    ghost var g := Goal(conforming || NoWrap(src) || |src| <= MAX_INPUT, conforming, n);
    if conforming {
      ConformingDecodes(src, 0, [], n, true);
    }
    if dst.Length == 0 {
      NoOutput(src);
      assert dst[..0] == [];
      return if |src| == 1 && src[0] == 0 then 0 else -1;
    }
    if |src| == 0 {
      NoInput(src);
      return -1;
    }
    r := DecodeBlock(src, dst, g);
  }

  lemma NoInput(src: Buffer)
    requires src == []
    ensures BlockMeaning(src) == BlockMeaning(src, true) == Malformed
  {
  }

  lemma NoOutput(src: Buffer)
    ensures src == [0] ==> BlockMeaning(src) == BlockMeaning(src, true) == Plain([])
  {
    if src == [0] {
      assert ParseStep(src, 0) == ParseStep(src, 0, true) == Last(1, 0);
    }
  }

  // Its four low bits are read only when a match follows.
  lemma RejectedWithoutRoom()
    ensures IsConforming([1]) && BlockMeaning([1]) == Plain([]) && !AcceptedWithoutRoom([1])
  {
    assert ParseStep([1], 0) == Last(1, 0);
  }
}
