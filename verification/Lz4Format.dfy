// The LZ4 block format: what a compressed block means, independently of the encoder and the decoder.
module Lz4Format {
  import opened Bytes

  const MINMATCH: nat := 4
  const LASTLITERALS: nat := 5
  const MFLIMIT: nat := 12
  const RUN_MASK: nat := 15
  const DISTANCE_MAX: nat := 65535
  const U32: nat := 0x1_0000_0000

  // ---------------------------------------------------------------------------------------------
  // Reading a block
  // ---------------------------------------------------------------------------------------------

  // A variable-length count starting at ip: bytes are summed up to and including the first one below 255.
  datatype Run = Run(length: nat, next: nat)

  function ReadRun(src: Buffer, ip: nat): (r: Option<Run>)
    ensures r.Some? ==> ip < r.value.next <= |src|
    ensures r.Some? ==> r.value.length <= 255 * (r.value.next - ip)
    decreases |src| - ip
  {
    if ip >= |src| then None
    else if src[ip] != 255 then Some(Run(src[ip], ip + 1))
    else match ReadRun(src, ip + 1)
      case None => None
      case Some(run) => Some(Run(255 + run.length, run.next))
  }

  // The decoder sums a variable-length count in 32 bits, where the format sets no limit. Everything below that reads a
  // block is given for both: `wraps` says that it is read as the decoder does.
  function Wrap(v: nat, wraps: bool := true): (r: nat)
    ensures r <= v && (v < U32 ==> r == v) && (wraps ==> r < U32)
  {
    if wraps then v % U32 else v
  }

  // A count whose low nibble is in the token: the nibble alone, or 15 plus a variable-length count.
  function ReadCount(src: Buffer, nibble: nat, ip: nat, wraps: bool := false): (r: Option<Run>)
    requires ip <= |src|
    ensures r.Some? ==> ip <= r.value.next <= |src|
  {
    if nibble != RUN_MASK then Some(Run(nibble, ip))
    else match ReadRun(src, ip)
      case None => None
      case Some(run) => Some(Run(RUN_MASK + Wrap(run.length, wraps), run.next))
  }

  // One sequence of a block. `Last` is a final run of literals ending exactly at the end of the block.
  datatype Step =
    | Bad
    | Last(lit: nat, litLength: nat)
    | Seq(lit: nat, litLength: nat, offset: nat, matchLength: nat, next: nat)

  function ParseLiterals(src: Buffer, ip: nat, wraps: bool := false): (r: Option<Run>)
    requires ip < |src|
    ensures r.Some? ==> ip < r.value.next <= |src|
  {
    ReadCount(src, src[ip] / 16, ip + 1, wraps)
  }

  function ParseMatch(src: Buffer, token: byte, ip: nat, wraps: bool := false): (r: Option<Run>)
    requires ip + 2 <= |src|
    ensures r.Some? ==> ip + 2 <= r.value.next <= |src|
  {
    ReadCount(src, token % 16, ip + 2, wraps)
  }

  function ReadLE16(src: Buffer, p: nat): (r: nat)
    requires p + 2 <= |src|
    ensures r <= DISTANCE_MAX
  {
    var low: nat, high: nat := src[p], src[p + 1];
    low + 256 * high
  }

  function ParseStep(src: Buffer, ip: nat, wraps: bool := false): (s: Step)
    ensures s.Last? ==> ip < s.lit && s.lit + s.litLength == |src|
    ensures s.Seq? ==> ip < s.lit && s.lit + s.litLength + 2 <= s.next <= |src|
    ensures s.Seq? ==> s.matchLength >= MINMATCH && s.offset <= DISTANCE_MAX
  {
    if ip >= |src| then Bad
    else match ParseLiterals(src, ip, wraps)
      case None => Bad
      case Some(lits) =>
        var end := lits.next + lits.length;
        if end == |src| then Last(lits.next, lits.length)
        else if end + 2 > |src| then Bad
        else match ParseMatch(src, src[ip], end, wraps)
          case None => Bad
          case Some(run) =>
            Seq(lits.next, lits.length, ReadLE16(src, end), run.length + MINMATCH, run.next)
  }

  // The copy of `len` bytes from `offset` bytes back, one byte at a time: the match may overlap its own output.
  function CopyMatch(out: Buffer, offset: nat, len: nat): (r: Buffer)
    requires 0 < offset <= |out|
    ensures |r| == |out| + len && r[..|out|] == out
    decreases len
  {
    if len == 0 then out else
      var r := CopyMatch(out + [out[|out| - offset]], offset, len - 1);
      assert r[..|out|] == r[..|out| + 1][..|out|];
      r
  }

  // What a block decodes to. An offset of zero is outside the format: the decoder then copies unspecified bytes.
  datatype Meaning = Malformed | ZeroOffset | Plain(data: Buffer)

  function Decode(src: Buffer, ip: nat, out: Buffer, wraps: bool := false): (m: Meaning)
    decreases |src| - ip
  {
    match ParseStep(src, ip, wraps)
    case Bad => Malformed
    case Last(lit, litLength) => Plain(out + src[lit..])
    case Seq(lit, litLength, offset, matchLength, next) =>
      var out1 := out + src[lit..lit + litLength];
      if offset == 0 then ZeroOffset
      else if offset > |out1| then Malformed
      else Decode(src, next, CopyMatch(out1, offset, matchLength), wraps)
  }

  function BlockMeaning(src: Buffer, wraps: bool := false): Meaning {
    Decode(src, 0, [], wraps)
  }

  // The end-of-block restrictions on a block of n plain bytes, read from ip with pos bytes already produced: offsets
  // stay inside the output, matches start at least 12 bytes before its end and stop at least 5 bytes before it.
  predicate Conforms(src: Buffer, ip: nat, pos: nat, n: nat, wraps: bool := false)
    decreases |src| - ip
  {
    match ParseStep(src, ip, wraps)
    case Bad => false
    case Last(lit, litLength) => pos + litLength == n
    case Seq(lit, litLength, offset, matchLength, next) =>
      && pos + litLength + MFLIMIT <= n
      && 0 < offset <= pos + litLength
      && pos + litLength + matchLength + LASTLITERALS <= n
      && Conforms(src, next, pos + litLength + matchLength, n, wraps)
  }

  // block is an LZ4 block, within the restrictions, for the bytes data.
  predicate IsBlockFor(block: Buffer, data: Buffer) {
    BlockMeaning(block) == Plain(data) && Conforms(block, 0, 0, |data|)
  }

  // CopyMatch is the unique extension of out that repeats with period `offset`.
  lemma {:induction false} CopyMatchUnique(out: Buffer, offset: nat, len: nat, s: Buffer)
    requires 0 < offset <= |out|
    requires |s| == |out| + len && s[..|out|] == out
    requires forall k :: |out| <= k < |s| ==> s[k] == s[k - offset]
    ensures s == CopyMatch(out, offset, len)
    decreases len
  {
    if len == 0 {
      assert s == s[..|out|];
    } else {
      var out' := out + [out[|out| - offset]];
      assert s[|out|] == s[|out| - offset] == s[..|out|][|out| - offset];
      assert s[..|out| + 1] == s[..|out|] + [s[|out|]];
      CopyMatchUnique(out', offset, len - 1, s);
    }
  }

  lemma {:induction false} CopyMatchPeriodic(out: Buffer, offset: nat, len: nat)
    requires 0 < offset <= |out|
    ensures forall k :: |out| <= k < |out| + len ==>
              CopyMatch(out, offset, len)[k] == CopyMatch(out, offset, len)[k - offset]
    decreases len
  {
    if len > 0 {
      var out' := out + [out[|out| - offset]];
      CopyMatchPeriodic(out', offset, len - 1);
      var r := CopyMatch(out, offset, len);
      assert r[|out|] == r[..|out'|][|out|];
      assert r[|out| - offset] == r[..|out'|][|out| - offset];
    }
  }

  // One sequence of the decoding, and of the restrictions, when the step is known.
  lemma DecodeSequence(src: Buffer, ip: nat, out: Buffer, wraps: bool := false)
    requires ParseStep(src, ip, wraps).Seq?
    requires var s := ParseStep(src, ip, wraps); 0 < s.offset <= |out| + s.litLength
    ensures var s := ParseStep(src, ip, wraps);
            Decode(src, ip, out, wraps)
              == Decode(src, s.next, CopyMatch(out + src[s.lit..s.lit + s.litLength], s.offset, s.matchLength), wraps)
  {
    hide ParseStep, CopyMatch;
  }

  lemma ConformsSequence(src: Buffer, ip: nat, pos: nat, n: nat, wraps: bool := false)
    requires ParseStep(src, ip, wraps).Seq?
    ensures var s := ParseStep(src, ip, wraps);
            Conforms(src, ip, pos, n, wraps) <==>
            && pos + s.litLength + MFLIMIT <= n
            && 0 < s.offset <= pos + s.litLength
            && pos + s.litLength + s.matchLength + LASTLITERALS <= n
            && Conforms(src, s.next, pos + s.litLength + s.matchLength, n, wraps)
  {
    hide ParseStep;
  }

  lemma LastStep(src: Buffer, ip: nat, out: Buffer, n: nat, wraps: bool := false)
    requires ParseStep(src, ip, wraps).Last?
    ensures var s := ParseStep(src, ip, wraps);
            && Decode(src, ip, out, wraps) == Plain(out + src[s.lit..])
            && (Conforms(src, ip, |out|, n, wraps) <==> |out| + s.litLength == n)
  {
    hide ParseStep;
  }

  // A conforming block decodes, and to exactly n bytes.
  lemma {:induction false} ConformingDecodes(src: Buffer, ip: nat, out: Buffer, n: nat, wraps: bool := false)
    requires Conforms(src, ip, |out|, n, wraps)
    ensures Decode(src, ip, out, wraps).Plain? && |Decode(src, ip, out, wraps).data| == n
    decreases |src| - ip
  {
    hide ParseStep, CopyMatch;
    match ParseStep(src, ip, wraps)
    case Bad =>
    case Last(_, _) =>
    case Seq(lit, litLength, offset, matchLength, next) =>
      DecodeSequence(src, ip, out, wraps);
      ConformingDecodes(src, next, CopyMatch(out + src[lit..lit + litLength], offset, matchLength), n, wraps);
  }

  // In a conforming block, six bytes at least follow a point where a sequence has just ended.
  lemma {:induction false} ConformingTail(src: Buffer, ip: nat, pos: nat, n: nat, wraps: bool := false)
    requires Conforms(src, ip, pos, n, wraps)
    requires pos + LASTLITERALS <= n
    ensures ip + 1 + LASTLITERALS <= |src|
    decreases |src| - ip
  {
    hide ParseStep;
    match ParseStep(src, ip, wraps)
    case Bad =>
    case Last(_, _) =>
    case Seq(lit, litLength, offset, matchLength, next) =>
      ConformingTail(src, next, pos + litLength + matchLength, n, wraps);
  }

  // ---------------------------------------------------------------------------------------------
  // Writing a block
  // ---------------------------------------------------------------------------------------------

  datatype Sequence = Sequence(literals: Buffer, offset: nat, matchLength: nat)

  function Extra(v: nat): (r: Buffer)
    ensures |r| == v / 255 + 1
  {
    if v < 255 then [v] else [255] + Extra(v - 255)
  }

  function Nibble(v: nat): (r: nat)
    ensures r <= RUN_MASK
  {
    if v >= RUN_MASK then RUN_MASK else v
  }

  function LengthBytes(v: nat): Buffer {
    if v >= RUN_MASK then Extra(v - RUN_MASK) else []
  }

  predicate Encodable(q: Sequence) {
    0 < q.offset <= DISTANCE_MAX && q.matchLength >= MINMATCH
  }

  function RenderHead(q: Sequence): Buffer
    requires Encodable(q)
  {
    [16 * Nibble(|q.literals|) + Nibble(q.matchLength - MINMATCH)] + LengthBytes(|q.literals|) + q.literals
  }

  function Render(q: Sequence): Buffer
    requires Encodable(q)
  {
    RenderHead(q) + [q.offset % 256, q.offset / 256] + LengthBytes(q.matchLength - MINMATCH)
  }

  // The token of a sequence of v literals, before its match is known, and what of v does not fit in it.
  function LiteralHead(v: nat): Buffer {
    [16 * Nibble(v)] + LengthBytes(v)
  }

  function RenderLast(literals: Buffer): Buffer {
    LiteralHead(|literals|) + literals
  }

  // The sequences describe some bytes: every offset reaches back into what precedes it.
  predicate Valid(seqs: seq<Sequence>)
    decreases |seqs|, 0
  {
    seqs == [] ||
    var q := seqs[|seqs| - 1];
    && Valid(seqs[..|seqs| - 1])
    && Encodable(q)
    && q.offset <= |Expand(seqs[..|seqs| - 1])| + |q.literals|
  }

  function Expand(seqs: seq<Sequence>): Buffer
    requires Valid(seqs)
    decreases |seqs|, 1
  {
    if seqs == [] then [] else
      var q := seqs[|seqs| - 1];
      CopyMatch(Expand(seqs[..|seqs| - 1]) + q.literals, q.offset, q.matchLength)
  }

  function RenderAll(seqs: seq<Sequence>): Buffer
    requires Valid(seqs)
    decreases |seqs|
  {
    if seqs == [] then [] else RenderAll(seqs[..|seqs| - 1]) + Render(seqs[|seqs| - 1])
  }

  // The sequences respect the end-of-block restrictions of a block of n bytes.
  predicate Restricted(seqs: seq<Sequence>, n: nat)
    requires Valid(seqs)
    decreases |seqs|
  {
    seqs == [] || (
      && Restricted(seqs[..|seqs| - 1], n)
      && |Expand(seqs[..|seqs| - 1])| + |seqs[|seqs| - 1].literals| + MFLIMIT <= n
      && |Expand(seqs)| + LASTLITERALS <= n)
  }

  // ---------------------------------------------------------------------------------------------
  // What was written is read back
  // ---------------------------------------------------------------------------------------------

  lemma {:induction false} ReadExtra(pre: Buffer, v: nat, post: Buffer)
    ensures ReadRun(pre + Extra(v) + post, |pre|) == Some(Run(v, |pre| + |Extra(v)|))
    decreases v
  {
    var s := pre + Extra(v) + post;
    if v < 255 {
      assert s[|pre|] == v;
    } else {
      assert s[|pre|] == 255;
      assert s == (pre + [255]) + Extra(v - 255) + post;
      ReadExtra(pre + [255], v - 255, post);
    }
  }

  lemma ReadLengthBytes(pre: Buffer, v: nat, post: Buffer)
    ensures ReadCount(pre + LengthBytes(v) + post, Nibble(v), |pre|) == Some(Run(v, |pre| + |LengthBytes(v)|))
  {
    if v >= RUN_MASK {
      ReadExtra(pre, v - RUN_MASK, post);
    }
  }

  lemma ParseRendered(pre: Buffer, q: Sequence, post: Buffer)
    requires Encodable(q)
    requires post != []
    ensures var lit := |pre| + 1 + |LengthBytes(|q.literals|)|;
            ParseStep(pre + Render(q) + post, |pre|)
              == Seq(lit, |q.literals|, q.offset, q.matchLength, |pre| + |Render(q)|)
            && (pre + Render(q) + post)[lit..lit + |q.literals|] == q.literals
  {
    hide ReadCount, ReadRun, LengthBytes, Nibble;
    var s := pre + Render(q) + post;
    var ll, ml := |q.literals|, q.matchLength - MINMATCH;
    var token := 16 * Nibble(ll) + Nibble(ml);
    var lit := |pre| + 1 + |LengthBytes(ll)|;
    assert s[|pre|] == token;
    var a, b := pre + [token], q.literals + [q.offset % 256, q.offset / 256] + LengthBytes(ml) + post;
    assert s == a + LengthBytes(ll) + b;
    ReadLengthBytes(a, ll, b);
    assert ParseLiterals(s, |pre|) == Some(Run(ll, lit));
    var c := a + LengthBytes(ll) + q.literals;
    assert s == c + ([q.offset % 256, q.offset / 256] + LengthBytes(ml) + post);
    assert |c| == lit + ll;
    assert s[lit + ll] == q.offset % 256 && s[lit + ll + 1] == q.offset / 256;
    var d := c + [q.offset % 256, q.offset / 256];
    assert s == d + LengthBytes(ml) + post;
    ReadLengthBytes(d, ml, post);
    assert ParseMatch(s, token, lit + ll) == Some(Run(ml, |d| + |LengthBytes(ml)|));
  }

  lemma ParseRenderedLast(pre: Buffer, literals: Buffer)
    ensures RenderLast(literals) != []
    ensures var lit := |pre| + 1 + |LengthBytes(|literals|)|;
            ParseStep(pre + RenderLast(literals), |pre|) == Last(lit, |literals|)
            && (pre + RenderLast(literals))[lit..] == literals
  {
    var s := pre + RenderLast(literals);
    var token := 16 * Nibble(|literals|);
    assert s[|pre|] == token;
    assert s == (pre + [token]) + LengthBytes(|literals|) + literals;
    ReadLengthBytes(pre + [token], |literals|, literals);
  }

  lemma NoSequences(tail: Buffer)
    ensures Valid([]) && RenderAll([]) == Expand([]) == [] && RenderAll([]) + tail == tail
  {
  }

  // The last of some sequences, seen from the whole.
  lemma SplitLast(seqs: seq<Sequence>, tail: Buffer, n: nat)
    requires Valid(seqs) && seqs != []
    ensures var init, q := seqs[..|seqs| - 1], seqs[|seqs| - 1];
            && Valid(init) && Encodable(q) && q.offset <= |Expand(init)| + |q.literals|
            && RenderAll(seqs) == RenderAll(init) + Render(q)
            && Expand(seqs) == CopyMatch(Expand(init) + q.literals, q.offset, q.matchLength)
            && RenderAll(seqs) + tail == RenderAll(init) + (Render(q) + tail) == RenderAll(init) + Render(q) + tail
            && (Restricted(seqs, n) <==>
                && Restricted(init, n)
                && |Expand(init)| + |q.literals| + MFLIMIT <= n
                && |Expand(seqs)| + LASTLITERALS <= n)
  {
    var init, q := seqs[..|seqs| - 1], seqs[|seqs| - 1];
    hide CopyMatch, Render;
    assert RenderAll(seqs) == RenderAll(init) + Render(q);
    assert (RenderAll(init) + Render(q)) + tail == RenderAll(init) + (Render(q) + tail);
  }

  // Reading a block past one rendered sequence leaves the decoder after it.
  lemma StepRendered(block: Buffer, pre: Buffer, q: Sequence, post: Buffer, out: Buffer, n: nat)
    requires Encodable(q) && block == pre + Render(q) + post
    requires q.offset <= |out| + |q.literals| && post != []
    ensures var out' := CopyMatch(out + q.literals, q.offset, q.matchLength);
            && Decode(block, |pre|, out) == Decode(block, |pre| + |Render(q)|, out')
            && (Conforms(block, |pre|, |out|, n) <==>
                && |out| + |q.literals| + MFLIMIT <= n
                && |out'| + LASTLITERALS <= n
                && Conforms(block, |pre| + |Render(q)|, |out'|, n))
  {
    hide ParseStep, Render, Decode, Conforms, CopyMatch;
    ParseRendered(pre, q, post);
    DecodeSequence(block, |pre|, out);
    ConformsSequence(block, |pre|, |out|, n);
  }

  // Reading a block past all its rendered sequences leaves the decoder where the sequences say.
  lemma {:induction false} DecodeRendered(seqs: seq<Sequence>, tail: Buffer, n: nat)
    requires Valid(seqs) && tail != []
    ensures Decode(RenderAll(seqs) + tail, 0, []) == Decode(RenderAll(seqs) + tail, |RenderAll(seqs)|, Expand(seqs))
    ensures Restricted(seqs, n) && Conforms(RenderAll(seqs) + tail, |RenderAll(seqs)|, |Expand(seqs)|, n)
            ==> Conforms(RenderAll(seqs) + tail, 0, 0, n)
    decreases |seqs|
  {
    hide ParseStep, Render, Decode, Conforms, CopyMatch, Valid, Expand, RenderAll, Restricted;
    if seqs == [] {
      NoSequences(tail);
    } else {
      SplitLast(seqs, tail, n);
      var init, q := seqs[..|seqs| - 1], seqs[|seqs| - 1];
      DecodeRendered(init, Render(q) + tail, n);
      StepRendered(RenderAll(seqs) + tail, RenderAll(init), q, tail, Expand(init), n);
    }
  }

  lemma LastRendered(pre: Buffer, literals: Buffer, out: Buffer, n: nat)
    ensures RenderLast(literals) != []
    ensures var block := pre + RenderLast(literals);
            && Decode(block, |pre|, out) == Plain(out + literals)
            && (Conforms(block, |pre|, |out|, n) <==> |out| + |literals| == n)
  {
    hide *;
    var block := pre + RenderLast(literals);
    ParseRenderedLast(pre, literals);
    LastStep(block, |pre|, out, n);
    assert block[ParseStep(block, |pre|).lit..] == literals;
  }

  // Rendered sequences and a final run of literals are a block for the bytes they describe.
  lemma RenderedIsBlock(seqs: seq<Sequence>, literals: Buffer)
    requires Valid(seqs)
    requires Restricted(seqs, |Expand(seqs)| + |literals|)
    ensures IsBlockFor(RenderAll(seqs) + RenderLast(literals), Expand(seqs) + literals)
  {
    hide RenderLast, RenderAll, Expand, Valid, Restricted, Decode, Conforms;
    var n := |Expand(seqs)| + |literals|;
    LastRendered(RenderAll(seqs), literals, Expand(seqs), n);
    DecodeRendered(seqs, RenderLast(literals), n);
    assert |Expand(seqs) + literals| == n;
  }
}
