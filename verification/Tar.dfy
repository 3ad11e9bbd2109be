// A tar archive as the chunker and the restorer read it: header blocks of 512 bytes, each with a size field and a type
// flag, some of them followed by a body ("ustar Interchange Format" of the pax utility in POSIX.1-2017).
module Tar {
  import opened Bytes

  const BLOCK: nat := 512
  const SIZE_AT: nat := 124
  const SIZE_DIGITS: nat := 11
  const TYPE_AT: nat := 156

  const REGTYPE: byte := 48      // '0'
  const AREGTYPE: byte := 0
  const XHDTYPE: byte := 120     // 'x'
  const LONGNAME: byte := 76     // 'L'

  const U64: nat := 0x1_0000_0000_0000_0000

  // What comes next in the archive: FILE_HEADER, FILE_CHUNK or BIG_CHUNK.
  datatype Kind = FileHeader | FileChunk | BigChunk

  // The size field read as octal digits, in 64-bit unsigned arithmetic: other characters make it wrap.
  function OctalSize(h: Buffer, digits: nat): (size: nat)
    requires |h| == BLOCK && digits <= SIZE_DIGITS
    ensures size < U64
  {
    if digits == 0 then 0 else (OctalSize(h, digits - 1) * 8 + h[SIZE_AT + digits - 1] - 48) % U64
  }

  // The size field with its characters taken for digits as they are.
  function RawSize(h: Buffer, digits: nat): (size: nat)
    requires |h| == BLOCK && digits <= SIZE_DIGITS
    ensures size < U64
  {
    if digits == 0 then 0 else (RawSize(h, digits - 1) * 8 + h[SIZE_AT + digits - 1]) % U64
  }

  // How the chunker reads a header block: what it expects next, and Next_Chunk_Size.
  function CutHeader(h: Buffer, big: nat): (Kind, nat)
    requires |h| == BLOCK
  {
    var size := OctalSize(h, SIZE_DIGITS);
    if h[TYPE_AT] == REGTYPE then (if size <= big then FileChunk else BigChunk, size)
    else if h[TYPE_AT] == AREGTYPE then (FileChunk, 0)
    else if h[TYPE_AT] == XHDTYPE || h[TYPE_AT] == LONGNAME then (FileChunk, size)
    else (FileHeader, size)
  }

  // How the restorer reads it.
  function MergeHeader(h: Buffer): (Kind, nat)
    requires |h| == BLOCK
  {
    var size := OctalSize(h, SIZE_DIGITS);
    if h[TYPE_AT] == REGTYPE then (if size <= CONTAINER_MAX_SIZE then FileChunk else BigChunk, size)
    else if h[TYPE_AT] == AREGTYPE then
      var raw := RawSize(h, SIZE_DIGITS);
      (if raw <= CONTAINER_MAX_SIZE then FileChunk else BigChunk, raw)
    else if h[TYPE_AT] == XHDTYPE || h[TYPE_AT] == LONGNAME then (FileChunk, size)
    else (FileHeader, size)
  }

  ghost predicate NulSize(h: Buffer)
    requires |h| == BLOCK
  {
    forall k :: SIZE_AT <= k < SIZE_AT + SIZE_DIGITS ==> h[k] == 0
  }

  // The two agree on a block exactly when a NUL type flag comes with a NUL size field.
  lemma ParsersAgree(h: Buffer)
    requires |h| == BLOCK
    ensures CutHeader(h, CONTAINER_MAX_SIZE) == MergeHeader(h) <==> (h[TYPE_AT] == AREGTYPE ==> NulSize(h))
  {
    hide OctalSize, RawSize;
    RawIsZero(h, SIZE_DIGITS);
  }

  function Pow8(n: nat): (r: nat)
    ensures r >= 1
  {
    if n == 0 then 1 else 8 * Pow8(n - 1)
  }

  lemma {:induction false} RawIsZero(h: Buffer, digits: nat)
    requires |h| == BLOCK && digits <= SIZE_DIGITS
    ensures RawSize(h, digits) == 0 <==> forall k :: SIZE_AT <= k < SIZE_AT + digits ==> h[k] == 0
    ensures RawSize(h, digits) + 37 <= 37 * Pow8(digits)
  {
    if digits > 0 {
      RawIsZero(h, digits - 1);
      Pow8Small(digits);
    }
  }

  lemma Pow8Small(n: nat)
    requires n <= SIZE_DIGITS
    ensures 64 * Pow8(n) <= U64 && Pow8(SIZE_DIGITS) == 0x2_0000_0000
  {
    Pow8Grows(n, SIZE_DIGITS);
    assert Pow8(3) == 512 && Pow8(6) == 262144 && Pow8(9) == 134217728 && Pow8(11) == 8589934592;
  }

  lemma {:induction false} Pow8Grows(m: nat, n: nat)
    requires m <= n
    ensures Pow8(m) <= Pow8(n)
    decreases n - m
  {
    if m < n {
      Pow8Grows(m, n - 1);
    }
  }

  ghost predicate OctalDigits(digits: seq<byte>) {
    forall k :: 0 <= k < |digits| ==> 48 <= digits[k] <= 55
  }

  // The number that octal digits stand for.
  function OctalNumber(digits: seq<byte>): int {
    if digits == [] then 0 else 8 * OctalNumber(digits[..|digits| - 1]) + digits[|digits| - 1] - 48
  }

  // With octal digits in the size field, the size is the number they stand for, and it is below 2^33.
  lemma {:induction false} OctalIsExact(h: Buffer, digits: nat)
    requires |h| == BLOCK && digits <= SIZE_DIGITS && OctalDigits(h[SIZE_AT..SIZE_AT + digits])
    ensures OctalSize(h, digits) == OctalNumber(h[SIZE_AT..SIZE_AT + digits]) < Pow8(digits)
    ensures Pow8(SIZE_DIGITS) == 0x2_0000_0000
  {
    Pow8Small(digits);
    if digits > 0 {
      var field := h[SIZE_AT..SIZE_AT + digits];
      assert field[..digits - 1] == h[SIZE_AT..SIZE_AT + digits - 1];
      assert field[digits - 1] == h[SIZE_AT + digits - 1];
      OctalIsExact(h, digits - 1);
    }
  }

  // The fields of a header block, in their order and with their widths; `others` are link name, magic, owner and
  // device, prefix and padding.
  datatype Fields = Fields(name: Buffer, mode: Buffer, uid: Buffer, gid: Buffer, digits: Buffer, sizeEnd: byte,
                           mtime: Buffer, chksum: Buffer, flag: byte, others: Buffer)

  ghost predicate WidthsOk(f: Fields) {
    && |f.name| == 100 && |f.mode| == 8 && |f.uid| == 8 && |f.gid| == 8 && |f.digits| == 11
    && |f.mtime| == 12 && |f.chksum| == 8 && |f.others| == 355
  }

  function Block(f: Fields): Buffer {
    f.name + f.mode + f.uid + f.gid + f.digits + [f.sizeEnd] + f.mtime + f.chksum + [f.flag] + f.others
  }

  lemma BlockIs(f: Fields)
    requires WidthsOk(f)
    ensures |Block(f)| == BLOCK && Block(f)[SIZE_AT..SIZE_AT + SIZE_DIGITS] == f.digits && Block(f)[TYPE_AT] == f.flag
  {
    var before := f.name + f.mode + f.uid + f.gid;
    var after := [f.sizeEnd] + f.mtime + f.chksum + [f.flag] + f.others;
    assert Block(f) == before + f.digits + after;
  }

  // Of a block laid out like this, the chunker and the restorer read the size in the size field and the kind by the
  // type flag: '0' is a file, 'x' and 'L' are extended headers and long names, others but NUL, such as '5',
  // have no body.
  lemma HeaderRead(f: Fields, big: nat)
    requires WidthsOk(f) && OctalDigits(f.digits)
    ensures |Block(f)| == 512 && 0 <= OctalNumber(f.digits) < 0x2_0000_0000
    ensures var size := OctalNumber(f.digits);
            && (f.flag == 48 ==>
                && CutHeader(Block(f), big) == (if size <= big then FileChunk else BigChunk, size)
                && MergeHeader(Block(f)) == (if size <= 0x40_0000 then FileChunk else BigChunk, size))
            && (f.flag == 120 || f.flag == 76 ==>
                CutHeader(Block(f), big) == MergeHeader(Block(f)) == (FileChunk, size))
            && (f.flag !in {0, 48, 76, 120} ==> CutHeader(Block(f), big) == MergeHeader(Block(f)) == (FileHeader, size))
            && (f.flag == 0 ==> CutHeader(Block(f), big) == (FileChunk, 0))
  {
    hide OctalSize, RawSize, OctalNumber, Block;
    BlockIs(f);
    OctalIsExact(Block(f), SIZE_DIGITS);
  }

  // A whole number of blocks, in 64-bit unsigned arithmetic.
  function RoundUp(size: nat): nat {
    (size + 511) % U64 / BLOCK * BLOCK
  }

  lemma RoundUpHolds(size: nat)
    requires size + 511 < U64
    ensures size <= RoundUp(size) < size + BLOCK && RoundUp(size) % BLOCK == 0
  {
  }

  // A header block with the body that follows it in the archive.
  datatype Member = Member(header: Buffer, body: Buffer)

  // The length of the body of a header at `at`, of which the archive may lack some.
  function BodyLength(a: Buffer, at: nat, big: nat): (n: nat)
    requires at + BLOCK <= |a|
    ensures at + BLOCK + n <= |a|
  {
    var (kind, size) := CutHeader(a[at..at + BLOCK], big);
    if kind.FileHeader? then 0 else Min(RoundUp(size), |a| - at - BLOCK)
  }

  function Members(a: Buffer, at: nat, big: nat): seq<Member>
    requires at <= |a|
    decreases |a| - at
  {
    if |a| - at < BLOCK then []
    else
      var n := BodyLength(a, at, big);
      [Member(a[at..at + BLOCK], a[at + BLOCK..at + BLOCK + n])] + Members(a, at + BLOCK + n, big)
  }

  // What the split needs of an archive: header blocks are whole, sizes do not wrap, and big bodies are there in full.
  ghost predicate HeaderOk(a: Buffer, at: nat, big: nat)
    requires at + BLOCK <= |a|
  {
    var h := a[at..at + BLOCK];
    var (kind, size) := CutHeader(h, big);
    && (!kind.FileHeader? ==> size + 511 < U64)
    && (kind.BigChunk? ==> RoundUp(size) <= |a| - at - BLOCK)
  }

  ghost predicate WellFormed(a: Buffer, at: nat, big: nat)
    requires at <= |a|
    decreases |a| - at
  {
    at == |a| || (at + BLOCK <= |a| && HeaderOk(a, at, big) && WellFormed(a, at + BLOCK + BodyLength(a, at, big), big))
  }

  function HeaderBytes(members: seq<Member>): Buffer {
    if members == [] then [] else members[0].header + HeaderBytes(members[1..])
  }

  function Joined(members: seq<Member>): Buffer {
    if members == [] then [] else members[0].header + members[0].body + Joined(members[1..])
  }

  lemma {:induction false} HeadersAreWhole(a: Buffer, at: nat, big: nat)
    requires at <= |a|
    ensures forall m :: m in Members(a, at, big) ==> |m.header| == BLOCK
    decreases |a| - at
  {
    hide BodyLength;
    if |a| - at >= BLOCK {
      HeadersAreWhole(a, at + BLOCK + BodyLength(a, at, big), big);
    }
  }

  // The members are all of the archive.
  lemma {:induction false} MembersJoin(a: Buffer, at: nat, big: nat)
    requires at <= |a| && WellFormed(a, at, big)
    ensures Joined(Members(a, at, big)) == a[at..]
    decreases |a| - at
  {
    hide CutHeader, BodyLength, HeaderOk;
    if at < |a| {
      var n := BodyLength(a, at, big);
      MembersJoin(a, at + BLOCK + n, big);
      assert Members(a, at, big)[1..] == Members(a, at + BLOCK + n, big);
      assert a[at..] == a[at..at + BLOCK] + a[at + BLOCK..at + BLOCK + n] + a[at + BLOCK + n..];
    }
  }

  // A header block and what may follow it: no body after a header that announces none, and no more than it announces;
  // of a big body all or nothing.
  ghost predicate MemberShape(m: Member, big: nat) {
    && |m.header| == BLOCK
    && var (kind, size) := CutHeader(m.header, big);
    && (kind.FileHeader? ==> m.body == [])
    && (!kind.FileHeader? ==> |m.body| <= RoundUp(size) && size + 511 < U64)
    && (kind.BigChunk? ==> |m.body| in {0, RoundUp(size)})
  }

  // What a member of a well-formed archive is like.
  ghost predicate MemberOk(m: Member, big: nat, last: bool) {
    && MemberShape(m, big)
    && var (kind, size) := CutHeader(m.header, big);
    && (kind.FileChunk? && |m.body| < RoundUp(size) ==> last)
    && (kind.BigChunk? ==> |m.body| == RoundUp(size))
  }

  lemma {:induction false} MembersOk(a: Buffer, at: nat, big: nat, i: nat)
    requires at <= |a| && WellFormed(a, at, big) && i < |Members(a, at, big)|
    ensures MemberOk(Members(a, at, big)[i], big, i == |Members(a, at, big)| - 1)
    decreases i
  {
    hide CutHeader, RoundUp, HeaderOk;
    var next := at + BLOCK + BodyLength(a, at, big);
    if i > 0 {
      MembersOk(a, next, big, i - 1);
    } else {
      FirstOk(a, at, big);
    }
  }

  lemma FirstOk(a: Buffer, at: nat, big: nat)
    requires at + BLOCK <= |a| && HeaderOk(a, at, big)
    ensures var n := BodyLength(a, at, big);
            MemberOk(Member(a[at..at + BLOCK], a[at + BLOCK..at + BLOCK + n]), big, at + BLOCK + n == |a|)
  {
    hide CutHeader, RoundUp;
  }

  lemma BodyIsThere(a: Buffer, at: nat, m: Member, big: nat)
    requires at + BLOCK + |m.body| <= |a| && MemberOk(m, big, at + BLOCK + |m.body| == |a|)
    requires a[at..at + BLOCK] == m.header
    ensures BodyLength(a, at, big) == |m.body| && HeaderOk(a, at, big)
  {
    hide RoundUp, CutHeader;
    match CutHeader(m.header, big).0
    case FileHeader =>
    case FileChunk =>
    case BigChunk =>
  }

  // Any such members, joined, are a well-formed archive with these members.
  lemma {:induction false} JoinedMembers(a: Buffer, at: nat, members: seq<Member>, big: nat)
    requires at <= |a| && a[at..] == Joined(members)
    requires forall i :: 0 <= i < |members| ==> MemberOk(members[i], big, i == |members| - 1)
    ensures WellFormed(a, at, big) && Members(a, at, big) == members
    decreases |members|
  {
    hide RoundUp, CutHeader;
    if members != [] {
      var m, rest := members[0], members[1..];
      var next := at + BLOCK + |m.body|;
      assert a[at..] == m.header + m.body + Joined(rest);
      assert a[at..at + BLOCK] == m.header && a[at + BLOCK..next] == m.body && a[next..] == Joined(rest);
      assert |members| == 1 ==> |a[next..]| == 0;
      BodyIsThere(a, at, m, big);
      JoinedMembers(a, next, rest, big);
      assert [m] + rest == members;
    }
  }

  lemma {:induction false} HeaderBytesSnoc(members: seq<Member>, m: Member)
    ensures HeaderBytes(members + [m]) == HeaderBytes(members) + m.header
  {
    if members == [] {
      assert members + [m] == [m] && [m][1..] == [];
    } else {
      HeaderBytesSnoc(members[1..], m);
      assert (members + [m])[1..] == members[1..] + [m];
    }
  }

  lemma {:induction false} JoinedSnoc(members: seq<Member>, m: Member)
    ensures Joined(members + [m]) == Joined(members) + m.header + m.body
  {
    var all := members + [m];
    if members == [] {
      assert all[1..] == [] && all[0] == m;
    } else {
      JoinedSnoc(members[1..], m);
      assert all[1..] == members[1..] + [m] && all[0] == members[0];
      var first := members[0].header + members[0].body;
      assert first + (Joined(members[1..]) + m.header + m.body) == first + Joined(members[1..]) + m.header + m.body;
    }
  }

  function Concat(cuts: seq<seq<Buffer>>): seq<Buffer> {
    if cuts == [] then [] else cuts[0] + Concat(cuts[1..])
  }

  lemma {:induction false} ConcatSnoc(cuts: seq<seq<Buffer>>, pieces: seq<Buffer>)
    ensures Concat(cuts + [pieces]) == Concat(cuts) + pieces
  {
    if cuts == [] {
      assert cuts + [pieces] == [pieces] && [pieces][1..] == [];
    } else {
      ConcatSnoc(cuts[1..], pieces);
      assert (cuts + [pieces])[1..] == cuts[1..] + [pieces];
    }
  }
}
