// FastCDC: cut points found by a rolling gear fingerprint, and the loop that cuts a file through a sliding buffer.
module FastCdc {
  import opened Bytes
  import opened Packing
  import Words

  const MIN_CHUNK_SIZE: nat := 4096
  const AVG_CHUNK_SIZE: nat := 8192
  const MAX_CHUNK_SIZE: nat := 16384
  const READ_FILE_SIZE: nat := 192 * 1024 * 1024

  // The gear table, by rows of 16.
  function GearRows0(row: nat): (r: seq<nat>)
    requires row < 4
    ensures |r| == 16 && forall k :: 0 <= k < 16 ==> r[k] < 0x8000_0000
  {
    if row == 0 then
      [0x5C95C078, 0x22408989, 0x2D48A214, 0x12842087, 0x530F8AFB, 0x474536B9, 0x2963B4F1, 0x44CB738B,
       0x4EA7403D, 0x4D606B6E, 0x074EC5D3, 0x3AF39D18, 0x726003CA, 0x37A62A74, 0x51A2F58E, 0x7506358E]
    else if row == 1 then
      [0x5D4AB128, 0x4D4AE17B, 0x41E85924, 0x470C36F7, 0x4741CBE1, 0x01BB7F30, 0x617C1DE3, 0x2B0C3A1F,
       0x50C48F73, 0x21A82D37, 0x6095ACE0, 0x419167A0, 0x3CAF49B0, 0x40CEA62D, 0x66BC1C66, 0x545E1DAD]
    else if row == 2 then
      [0x2BFA77CD, 0x6E85DA24, 0x5FB0BDC5, 0x652CFC29, 0x3A0AE1AB, 0x2837E0F3, 0x6387B70E, 0x13176012,
       0x4362C2BB, 0x66D8F4B1, 0x37FCE834, 0x2C9CD386, 0x21144296, 0x627268A8, 0x650DF537, 0x2805D579]
    else
      [0x3B21EBBD, 0x7357ED34, 0x3F58B583, 0x7150DDCA, 0x7362225E, 0x620A6070, 0x2C5EF529, 0x7B522466,
       0x768B78C0, 0x4B54E51E, 0x75FA07E5, 0x06A35FC6, 0x30B71024, 0x1C8626E1, 0x296AD578, 0x28D7BE2E]
  }

  function GearRows1(row: nat): (r: seq<nat>)
    requires row < 4
    ensures |r| == 16 && forall k :: 0 <= k < 16 ==> r[k] < 0x8000_0000
  {
    if row == 0 then
      [0x1490A05A, 0x7CEE43BD, 0x698B56E3, 0x09DC0126, 0x4ED6DF6E, 0x02C1BFC7, 0x2A59AD53, 0x29C0E434,
       0x7D6C5278, 0x507940A7, 0x5EF6BA93, 0x68B6AF1E, 0x46537276, 0x611BC766, 0x155C587D, 0x301BA847]
    else if row == 1 then
      [0x2CC9DDA7, 0x0A438E2C, 0x0A69D514, 0x744C72D3, 0x4F326B9B, 0x7EF34286, 0x4A0EF8A7, 0x6AE06EBE,
       0x669C5372, 0x12402DCB, 0x5FEAE99D, 0x76C7F4A7, 0x6ABDB79C, 0x0DFAA038, 0x20E2282C, 0x730ED48B]
    else if row == 2 then
      [0x069DAC2F, 0x168ECF3E, 0x2610E61F, 0x2C512C8E, 0x15FB8C06, 0x5E62BC76, 0x69555135, 0x0ADB864C,
       0x4268F914, 0x349AB3AA, 0x20EDFDB2, 0x51727981, 0x37B4B3D8, 0x5DD17522, 0x6B2CBFE4, 0x5C47CF9F]
    else
      [0x30FA1CCD, 0x23DEDB56, 0x13D1F50A, 0x64EDDEE7, 0x0820B0F7, 0x46E07308, 0x1E2D1DFD, 0x17B06C32,
       0x250036D8, 0x284DBF34, 0x68292EE0, 0x362EC87C, 0x087CB1EB, 0x76B46720, 0x104130DB, 0x71966387]
  }

  function GearRows2(row: nat): (r: seq<nat>)
    requires row < 4
    ensures |r| == 16 && forall k :: 0 <= k < 16 ==> r[k] < 0x8000_0000
  {
    if row == 0 then
      [0x482DC43F, 0x2388EF25, 0x524144E1, 0x44BD834E, 0x448E7DA3, 0x3FA6EAF9, 0x3CDA215C, 0x3A500CF3,
       0x395CB432, 0x5195129F, 0x43945F87, 0x51862CA4, 0x56EA8FF1, 0x201034DC, 0x4D328FF5, 0x7D73A909]
    else if row == 1 then
      [0x6234D379, 0x64CFBF9C, 0x36F6589A, 0x0A2CE98A, 0x5FE4D971, 0x03BC15C5, 0x44021D33, 0x16C1932B,
       0x37503614, 0x1ACAF69D, 0x3F03B779, 0x49E61A03, 0x1F52D7EA, 0x1C6DDD5C, 0x062218CE, 0x07E7A11A]
    else if row == 2 then
      [0x1905757A, 0x7CE00A53, 0x49F44F29, 0x4BCC70B5, 0x39FEEA55, 0x5242CEE8, 0x3CE56B85, 0x00B81672,
       0x46BEECCC, 0x3CA0AD56, 0x2396CEE8, 0x78547F40, 0x6B08089B, 0x66A56751, 0x781E7E46, 0x1E2CF856]
    else
      [0x3BC13591, 0x494A4202, 0x520494D7, 0x2D87459A, 0x757555B6, 0x42284CC1, 0x1F478507, 0x75C95DFF,
       0x35FF8DD7, 0x4E4757ED, 0x2E11F88C, 0x5E1B5048, 0x420E6699, 0x226B0695, 0x4D1679B4, 0x5A22646F]
  }

  function GearRows3(row: nat): (r: seq<nat>)
    requires row < 4
    ensures |r| == 16 && forall k :: 0 <= k < 16 ==> r[k] < 0x8000_0000
  {
    if row == 0 then
      [0x161D1131, 0x125C68D9, 0x1313E32E, 0x4AA85724, 0x21DC7EC1, 0x4FFA29FE, 0x72968382, 0x1CA8EEF3,
       0x3F3B1C28, 0x39C2FB6C, 0x6D76493F, 0x7A22A62E, 0x789B1C2A, 0x16E0CB53, 0x7DECEEEB, 0x0DC7E1C6]
    else if row == 1 then
      [0x5C75BF3D, 0x52218333, 0x106DE4D6, 0x7DC64422, 0x65590FF4, 0x2C02EC30, 0x64A9AC67, 0x59CAB2E9,
       0x4A21D2F3, 0x0F616E57, 0x23B54EE8, 0x02730AAA, 0x2F3C634D, 0x7117FC6C, 0x01AC6F05, 0x5A9ED20C]
    else if row == 2 then
      [0x158C4E2A, 0x42B699F0, 0x0C7C14B3, 0x02BD9641, 0x15AD56FC, 0x1C722F60, 0x7DA1AF91, 0x23E0DBCB,
       0x0E93E12B, 0x64B2791D, 0x440D2476, 0x588EA8DD, 0x4665A658, 0x7446C418, 0x1877A774, 0x5626407E]
    else
      [0x7F63BD46, 0x32D2DBD8, 0x3C790F4A, 0x772B7239, 0x6F8B2826, 0x677FF609, 0x0DC82C11, 0x23FFE354,
       0x2EAC53A6, 0x16139E09, 0x0AFD0DBC, 0x2A4D4237, 0x56A368C7, 0x234325E4, 0x2DCE9187, 0x32E8EA7E]
  }

  // All entries are below 2^31.
  function Gear(b: byte): (r: nat)
    ensures r < 0x8000_0000
  {
    var row := b / 16;
    (if row < 4 then GearRows0(row) else if row < 8 then GearRows1(row - 4)
     else if row < 12 then GearRows2(row - 8) else GearRows3(row - 12))[b % 16]
  }

  function DivCeil(a: nat, b: nat): nat
    requires b > 0
  {
    if a % b == 0 then a / b else a / b + 1
  }

  function CalNormalSize(min: nat, av: nat, max: nat): nat {
    var wanted := min + DivCeil(min, 2);
    var off := if wanted > av then av else wanted;
    if av - off > max then max else av - off
  }

  // The masks have 14 and 12 low bits: a fingerprint has them clear when it is a multiple of these.
  const MASK_S: nat := 16384
  const MASK_L: nat := 4096

  // The fingerprint fits in 32 bits, so that the addition never wraps.
  function Roll(fp: nat, b: byte): (r: nat)
    requires fp < 0x1_0000_0000
    ensures r < 0x1_0000_0000
  {
    fp / 2 + Gear(b)
  }

  // The fingerprint of the bytes from `from` up to `end`.
  function Fingerprint(src: Buffer, from: nat, end: nat): (fp: nat)
    requires from <= end <= |src|
    ensures fp < 0x1_0000_0000
    decreases end - from
  {
    if from == end then 0 else Roll(Fingerprint(src, from, end - 1), src[end - 1])
  }

  // The table entries of the bytes, weighted by powers of two, the latest one most.
  function Weighted(src: Buffer, from: nat, end: nat): nat
    requires from <= end <= |src|
    decreases end - from
  {
    if from == end then 0 else Weighted(src, from, end - 1) + Weight(Gear(src[end - 1]), end - 1 - from)
  }

  function Weight(g: nat, n: nat): nat {
    g * Words.Pow2(n)
  }

  // Every byte enters the fingerprint with half the weight of the one after it: halving at every step is one division.
  lemma {:induction false} FingerprintIs(src: Buffer, from: nat, end: nat)
    requires from < end <= |src|
    ensures Fingerprint(src, from, end) == Weighted(src, from, end) / Words.Pow2(end - from - 1)
    decreases end - from
  {
    hide Gear, Words.Pow2;
    var n, g := end - from, Gear(src[end - 1]);
    Words.Pow2Next(0);
    Words.Pow2Next(n - 1);
    if n == 1 {
      assert Fingerprint(src, from, from) == 0 == Weighted(src, from, from);
      assert g * 1 / 1 == g;
    } else {
      FingerprintIs(src, from, end - 1);
      var sum, p := Weighted(src, from, end - 1), Words.Pow2(n - 2);
      HalfOfQuotient(sum, p);
      AddedMultiple(sum, g, 2 * p);
    }
  }

  lemma HalfOfQuotient(sum: nat, p: nat)
    requires p > 0
    ensures sum / p / 2 == sum / (2 * p)
  {
    var q := sum / p / 2;
    assert 2 * q <= sum / p <= 2 * q + 1;
    assert p * (sum / p) <= sum < p * (sum / p) + p;
    assert 2 * p * q == p * (2 * q) <= p * (sum / p) <= p * (2 * q + 1);
    Words.QuotientIs(sum, 2 * p, q);
  }

  lemma AddedMultiple(sum: nat, g: nat, p: nat)
    requires p > 0
    ensures (sum + g * p) / p == sum / p + g
  {
    assert p * (sum / p + g) == p * (sum / p) + g * p;
    Words.QuotientIs(sum + g * p, p, sum / p + g);
  }

  // Bytes before the minimum do not enter the fingerprint; the stricter mask applies up to the normal size.
  ghost predicate Cuts(src: Buffer, i: nat, normalSize: nat)
    requires MIN_CHUNK_SIZE <= i < |src|
  {
    Fingerprint(src, MIN_CHUNK_SIZE, i + 1) % (if i < normalSize then MASK_S else MASK_L) == 0
  }

  // With the sizes configured, the size up to which the stricter mask applies is below the minimum: that mask is never
  // used, wherever a position is tested.
  lemma OneMaskOnly(src: Buffer, i: nat)
    requires MIN_CHUNK_SIZE <= i < |src|
    ensures var normalSize := CalNormalSize(MIN_CHUNK_SIZE, AVG_CHUNK_SIZE, MAX_CHUNK_SIZE);
            && normalSize == 2048
            && (Cuts(src, i, normalSize) <==> Fingerprint(src, MIN_CHUNK_SIZE, i + 1) % MASK_L == 0)
  {
  }

  // The first chunk of src has length r: it ends at the first position past the minimum where the fingerprint has the
  // mask clear, or at the maximum, or with src.
  ghost predicate IsCut(src: Buffer, r: nat, normalSize: nat) {
    && r <= |src| && r <= MAX_CHUNK_SIZE
    && if |src| <= MIN_CHUNK_SIZE then r == |src|
       else
         && r > MIN_CHUNK_SIZE
         && (forall i :: MIN_CHUNK_SIZE <= i < r - 1 ==> !Cuts(src, i, normalSize))
         && (r < Min(MAX_CHUNK_SIZE, |src|) ==> Cuts(src, r - 1, normalSize))
  }

  lemma NotBefore(src: Buffer, r: nat, r': nat, normalSize: nat)
    requires IsCut(src, r, normalSize) && IsCut(src, r', normalSize)
    ensures r >= r'
  {
    hide Fingerprint;
  }

  lemma CutIsUnique(src: Buffer, r: nat, r': nat, normalSize: nat)
    requires IsCut(src, r, normalSize) && IsCut(src, r', normalSize)
    ensures r == r'
  {
    NotBefore(src, r, r', normalSize);
    NotBefore(src, r', r, normalSize);
  }

  // The length of the first chunk.
  ghost function CutLength(src: Buffer, normalSize: nat): (r: nat)
    ensures r <= |src| && r <= MAX_CHUNK_SIZE && (src != [] ==> r > 0)
  {
    if |src| <= MIN_CHUNK_SIZE then |src| else CutFrom(src, MIN_CHUNK_SIZE, normalSize)
  }

  ghost function CutFrom(src: Buffer, i: nat, normalSize: nat): (r: nat)
    requires MIN_CHUNK_SIZE <= i <= Min(MAX_CHUNK_SIZE, |src|)
    ensures i <= r <= Min(MAX_CHUNK_SIZE, |src|)
    decreases |src| - i
  {
    if i == Min(MAX_CHUNK_SIZE, |src|) then i
    else if Cuts(src, i, normalSize) then i + 1
    else CutFrom(src, i + 1, normalSize)
  }

  lemma {:induction false} CutFromIs(src: Buffer, i: nat, normalSize: nat)
    requires MIN_CHUNK_SIZE <= i <= Min(MAX_CHUNK_SIZE, |src|) && (|src| > MIN_CHUNK_SIZE)
    requires forall k :: MIN_CHUNK_SIZE <= k < i ==> !Cuts(src, k, normalSize)
    ensures IsCut(src, CutFrom(src, i, normalSize), normalSize)
    decreases |src| - i
  {
    hide Fingerprint, Cuts;
    if i < Min(MAX_CHUNK_SIZE, |src|) && !Cuts(src, i, normalSize) {
      CutFromIs(src, i + 1, normalSize);
    }
  }

  // There is always a cut, and this is it.
  lemma CutLengthIs(src: Buffer, r: nat, normalSize: nat)
    ensures IsCut(src, r, normalSize) <==> r == CutLength(src, normalSize)
  {
    hide Fingerprint, Cuts;
    if |src| > MIN_CHUNK_SIZE {
      CutFromIs(src, MIN_CHUNK_SIZE, normalSize);
    }
    if IsCut(src, r, normalSize) {
      CutIsUnique(src, r, CutLength(src, normalSize), normalSize);
    }
  }

  // A file of one byte, 93: the fingerprint of 22 of them is the first with the mask clear.
  function Repeated(n: nat): nat {
    if n == 0 then 0 else Repeated(n - 1) / 2 + 0xDFAA038
  }

  lemma {:induction false} RepeatedIs(src: Buffer, n: nat)
    requires MIN_CHUNK_SIZE + n <= |src| && forall k :: 0 <= k < |src| ==> src[k] == 93
    ensures Fingerprint(src, MIN_CHUNK_SIZE, MIN_CHUNK_SIZE + n) == Repeated(n)
  {
    hide Gear;
    EntryOf93();
    if n > 0 {
      RepeatedIs(src, n - 1);
    }
  }

  lemma EntryOf93()
    ensures Gear(93) == 0xDFAA038
  {
  }

  lemma RepeatedValues()
    ensures Repeated(1) == 0xDFAA038
    ensures Repeated(2) == 0x14F7F054
    ensures Repeated(3) == 0x18769862
    ensures Repeated(4) == 0x1A35EC69
    ensures Repeated(5) == 0x1B15966C
    ensures Repeated(6) == 0x1B856B6E
    ensures Repeated(7) == 0x1BBD55EF
    ensures Repeated(8) == 0x1BD94B2F
    ensures Repeated(9) == 0x1BE745CF
    ensures Repeated(10) == 0x1BEE431F
    ensures Repeated(11) == 0x1BF1C1C7
    ensures Repeated(12) == 0x1BF3811B
    ensures Repeated(13) == 0x1BF460C5
    ensures Repeated(14) == 0x1BF4D09A
    ensures Repeated(15) == 0x1BF50885
    ensures Repeated(16) == 0x1BF5247A
    ensures Repeated(17) == 0x1BF53275
    ensures Repeated(18) == 0x1BF53972
    ensures Repeated(19) == 0x1BF53CF1
    ensures Repeated(20) == 0x1BF53EB0
    ensures Repeated(21) == 0x1BF53F90
    ensures Repeated(22) == 0x1BF54000
  {
    assert Repeated(0) == 0;
  }

  // Content decides the cut: 4118 bytes are less than the maximum.
  lemma CutByContent(src: Buffer)
    requires |src| > 4118 && forall k :: 0 <= k < |src| ==> src[k] == 93
    ensures IsCut(src, 4118, CalNormalSize(MIN_CHUNK_SIZE, AVG_CHUNK_SIZE, MAX_CHUNK_SIZE))
  {
    hide Fingerprint, Repeated;
    RepeatedValues();
    forall i | MIN_CHUNK_SIZE <= i < 4118 ensures i < 4117 <==> !Cuts(src, i, 2048) {
      RepeatedIs(src, i + 1 - MIN_CHUNK_SIZE);
    }
  }

  lemma {:induction false} SameFingerprint(src: Buffer, src': Buffer, from: nat, end: nat)
    requires from <= end <= |src| && end <= |src'| && src[..end] == src'[..end]
    ensures Fingerprint(src, from, end) == Fingerprint(src', from, end)
    decreases end - from
  {
    hide Roll;
    if from < end {
      assert src[..end][..end - 1] == src'[..end][..end - 1];
      assert src[end - 1] == src[..end][end - 1] == src'[end - 1];
      SameFingerprint(src, src', from, end - 1);
    }
  }

  // A window with at least the maximum of bytes, or all there are, gives the same cut.
  lemma CutWithinWindow(src: Buffer, window: Buffer, r: nat, normalSize: nat)
    requires window <= src && (|window| >= MAX_CHUNK_SIZE || window == src) && IsCut(window, r, normalSize)
    ensures IsCut(src, r, normalSize)
  {
    if |window| > MIN_CHUNK_SIZE {
      forall i | MIN_CHUNK_SIZE <= i < |window| ensures Cuts(src, i, normalSize) <==> Cuts(window, i, normalSize) {
        SameFingerprint(src, window, MIN_CHUNK_SIZE, i + 1);
      }
    }
  }

  // CutPointFastCDC.
  method CutPointFastCDC(src: Buffer, normalSize: nat) returns (r: nat)
    requires normalSize <= MAX_CHUNK_SIZE
    ensures IsCut(src, r, normalSize) && (src != [] ==> r > 0)
  {
    hide Roll;
    var len := |src|;
    var fp := 0;
    var i := Min(len, MIN_CHUNK_SIZE);
    var n := Min(normalSize, len);
    while i < n
      invariant Min(len, MIN_CHUNK_SIZE) <= i && (i <= n || i == Min(len, MIN_CHUNK_SIZE))
      invariant fp < 0x1_0000_0000
      invariant len > MIN_CHUNK_SIZE ==> fp == Fingerprint(src, MIN_CHUNK_SIZE, i)
      invariant forall k :: MIN_CHUNK_SIZE <= k < i ==> !Cuts(src, k, normalSize)
    {
      fp := Roll(fp, src[i]);
      if fp % MASK_S == 0 {
        return i + 1;
      }
      i := i + 1;
    }
    n := Min(MAX_CHUNK_SIZE, len);
    while i < n
      invariant Min(len, MIN_CHUNK_SIZE) <= i <= n && (i >= normalSize || i == len)
      invariant fp < 0x1_0000_0000
      invariant len > MIN_CHUNK_SIZE ==> fp == Fingerprint(src, MIN_CHUNK_SIZE, i)
      invariant forall k :: MIN_CHUNK_SIZE <= k < i ==> !Cuts(src, k, normalSize)
    {
      fp := Roll(fp, src[i]);
      if fp % MASK_L == 0 {
        return i + 1;
      }
      i := i + 1;
    }
    return i;
  }

  // The pieces are the chunks the file is cut into, up to position pos: each is the first chunk of the rest of the
  // file.
  ghost predicate CutUpTo(file: Buffer, pieces: seq<Buffer>, pos: nat, normalSize: nat) {
    && pos <= |file| && Flat(pieces) == file[..pos]
    && (forall i :: 0 <= i < |pieces| ==> Follows(file, pieces[..i], pieces[i], normalSize))
  }

  ghost predicate Follows(file: Buffer, before: seq<Buffer>, piece: Buffer, normalSize: nat) {
    var at := |Flat(before)|;
    at <= |file| && IsCut(file[at..], |piece|, normalSize) && piece != []
  }

  lemma CutOneMore(file: Buffer, pieces: seq<Buffer>, pos: nat, r: nat, normalSize: nat)
    requires CutUpTo(file, pieces, pos, normalSize) && pos < |file| && IsCut(file[pos..], r, normalSize) && 0 < r
    ensures pos + r <= |file| && CutUpTo(file, pieces + [file[pos..pos + r]], pos + r, normalSize)
  {
    hide IsCut, Flat;
    CutBound(file[pos..], r, normalSize);
    var piece := file[pos..pos + r];
    var more := pieces + [piece];
    FlatSnoc(pieces, piece);
    assert file[..pos + r] == file[..pos] + piece;
    forall i | 0 <= i < |more| ensures Follows(file, more[..i], more[i], normalSize) {
      assert more[..i] == if i < |pieces| then pieces[..i] else pieces;
    }
  }

  lemma CutBound(src: Buffer, r: nat, normalSize: nat)
    requires IsCut(src, r, normalSize)
    ensures r <= |src|
  {
  }

  // There is one way to cut a file.
  lemma {:induction false} CuttingIsUnique(file: Buffer, a: seq<Buffer>, b: seq<Buffer>, i: nat, normalSize: nat)
    requires CutUpTo(file, a, |file|, normalSize) && CutUpTo(file, b, |file|, normalSize) && i <= |a|
    ensures i <= |b| && a[..i] == b[..i]
  {
    hide IsCut, CutUpTo, Flat;
    if i > 0 {
      CuttingIsUnique(file, a, b, i - 1, normalSize);
      MoreToCome(file, a, b, i, normalSize);
      PieceFollows(file, a, i - 1, normalSize);
      PieceFollows(file, b, i - 1, normalSize);
      CutIsUnique(file[|Flat(a[..i - 1])|..], |a[i - 1]|, |b[i - 1]|, normalSize);
      PrefixOfCutting(file, a, i, normalSize);
      PrefixOfCutting(file, b, i, normalSize);
      assert a[..i] == a[..i - 1] + [a[i - 1]] && b[..i] == b[..i - 1] + [b[i - 1]];
    }
  }

  lemma PieceFollows(file: Buffer, a: seq<Buffer>, i: nat, normalSize: nat)
    requires CutUpTo(file, a, |file|, normalSize) && i < |a|
    ensures Follows(file, a[..i], a[i], normalSize)
  {
  }

  // While one cutting goes on, so does the other.
  lemma MoreToCome(file: Buffer, a: seq<Buffer>, b: seq<Buffer>, i: nat, normalSize: nat)
    requires CutUpTo(file, a, |file|, normalSize) && CutUpTo(file, b, |file|, normalSize)
    requires 0 < i <= |a| && i - 1 <= |b| && a[..i - 1] == b[..i - 1]
    ensures i <= |b|
  {
    hide IsCut, Flat;
    assert file[..|file|] == file && b[..|b|] == b;
    PieceFollows(file, a, i - 1, normalSize);
    PrefixOfCutting(file, a, i, normalSize);
  }

  // Up to its piece i, a cutting covers that much of the file, the piece last.
  lemma PrefixOfCutting(file: Buffer, a: seq<Buffer>, i: nat, normalSize: nat)
    requires CutUpTo(file, a, |file|, normalSize) && 0 < i <= |a|
    ensures var at := |Flat(a[..i - 1])|; at + |a[i - 1]| <= |file| && a[i - 1] == file[at..at + |a[i - 1]|]
  {
    hide IsCut, Follows;
    FlatSplit(a, i - 1);
    FlatSplit(a, i);
    assert a[..i][..i - 1] == a[..i - 1];
    assert file[..|file|] == file;
  }

  // The chunks of a file.
  ghost function FileCuts(file: Buffer, normalSize: nat): (cuts: seq<Buffer>)
    ensures forall i :: 0 <= i < |cuts| ==> 0 < |cuts[i]| <= MAX_CHUNK_SIZE
    decreases |file|
  {
    if file == [] then []
    else
      var n := CutLength(file, normalSize);
      [file[..n]] + FileCuts(file[n..], normalSize)
  }

  // They are a cutting, after whatever was cut before.
  lemma {:induction false} FileCutsFrom(file: Buffer, before: seq<Buffer>, pos: nat, normalSize: nat)
    requires CutUpTo(file, before, pos, normalSize)
    ensures CutUpTo(file, before + FileCuts(file[pos..], normalSize), |file|, normalSize)
    decreases |file| - pos
  {
    hide IsCut, Flat, CutUpTo, CutLength;
    CutUpToWithin(file, before, pos, normalSize);
    var rest := file[pos..];
    if pos == |file| {
      assert before + [] == before;
    } else {
      var n := CutLength(rest, normalSize);
      CutLengthIs(rest, n, normalSize);
      CutOneMore(file, before, pos, n, normalSize);
      FileCutsFrom(file, before + [file[pos..pos + n]], pos + n, normalSize);
      assert rest[..n] == file[pos..pos + n] && rest[n..] == file[pos + n..];
      assert before + [rest[..n]] + FileCuts(rest[n..], normalSize)
          == before + ([rest[..n]] + FileCuts(rest[n..], normalSize));
    }
  }

  lemma CutUpToWithin(file: Buffer, pieces: seq<Buffer>, pos: nat, normalSize: nat)
    requires CutUpTo(file, pieces, pos, normalSize)
    ensures pos <= |file|
  {
  }

  // The one cutting of a file.
  lemma CuttingIsFileCuts(file: Buffer, pieces: seq<Buffer>, normalSize: nat)
    ensures CutUpTo(file, pieces, |file|, normalSize) <==> pieces == FileCuts(file, normalSize)
  {
    hide IsCut, Flat, CutUpTo, FileCuts;
    NothingCut(file, normalSize);
    FileCutsFrom(file, [], 0, normalSize);
    var cuts := FileCuts(file, normalSize);
    assert file[0..] == file && [] + cuts == cuts;
    if CutUpTo(file, pieces, |file|, normalSize) {
      CuttingIsUnique(file, pieces, cuts, |pieces|, normalSize);
      CuttingIsUnique(file, cuts, pieces, |cuts|, normalSize);
      assert pieces[..|pieces|] == pieces && cuts[..|cuts|] == cuts;
    }
  }

  // The loop of Chunking for FastCDC: the file is read into a buffer; chunks are cut while enough of it is left, or,
  // at the end of the file, while anything is; then the file is read again from there. The result is the one cutting
  // of the whole file.
  method Chunking(file: Buffer, multiHeaderChunk: nat, normalSize: nat) returns (pieces: seq<Buffer>)
    requires multiHeaderChunk >= 1 && normalSize <= MAX_CHUNK_SIZE
    ensures CutUpTo(file, pieces, |file|, normalSize) && pieces == FileCuts(file, normalSize)
    ensures Flat(pieces) == file
    ensures forall i :: 0 <= i < |pieces| - 1 ==> MIN_CHUNK_SIZE < |pieces[i]| <= MAX_CHUNK_SIZE
  {
    hide IsCut, Flat, CutUpTo, FileCuts;
    var reserve := CONTAINER_MAX_SIZE * multiHeaderChunk;
    assert reserve >= MAX_CHUNK_SIZE by { AtLeastOne(multiHeaderChunk); }
    pieces := [];
    NothingCut(file, normalSize);
    var end, totalOffset := false, 0;
    while !end
      invariant totalOffset <= |file| && CutUpTo(file, pieces, totalOffset, normalSize)
      invariant end ==> totalOffset == |file|
      decreases |file| - totalOffset, !end
    {
      var size := Min(READ_FILE_SIZE + reserve, |file| - totalOffset);
      var window := file[totalOffset..totalOffset + size];
      end := size < READ_FILE_SIZE + reserve;
      if size == 0 {
        break;
      }
      var localOffset := 0;
      while size - localOffset >= reserve || (end && localOffset < size)
        invariant 0 <= localOffset <= size && CutUpTo(file, pieces, totalOffset + localOffset, normalSize)
        invariant localOffset > 0 || size >= reserve || end
        decreases size - localOffset
      {
        var src := window[localOffset..];
        var cp := CutPointFastCDC(src, normalSize);
        CutBound(src, cp, normalSize);
        WindowCut(file, totalOffset + localOffset, src, end, cp, normalSize);
        CutOneMore(file, pieces, totalOffset + localOffset, cp, normalSize);
        pieces := pieces + [src[..cp]];
        SliceOfWindow(file, totalOffset, size, localOffset, cp);
        localOffset := localOffset + cp;
      }
      totalOffset := totalOffset + localOffset;
    }
    CutsAll(file, pieces, normalSize);
    CuttingIsFileCuts(file, pieces, normalSize);
  }

  lemma AtLeastOne(multiHeaderChunk: nat)
    requires multiHeaderChunk >= 1
    ensures CONTAINER_MAX_SIZE * multiHeaderChunk >= CONTAINER_MAX_SIZE
  {
  }

  lemma SliceOfWindow(file: Buffer, at: nat, size: nat, from: nat, n: nat)
    requires at + size <= |file| && from + n <= size
    ensures file[at..at + size][from..][..n] == file[at + from..at + from + n]
  {
  }

  lemma NothingCut(file: Buffer, normalSize: nat)
    ensures CutUpTo(file, [], 0, normalSize)
  {
  }

  lemma WindowCut(file: Buffer, at: nat, src: Buffer, end: bool, cp: nat, normalSize: nat)
    requires at + |src| <= |file| && src == file[at..at + |src|]
             && (|src| >= MAX_CHUNK_SIZE || (end && at + |src| == |file|))
    requires IsCut(src, cp, normalSize)
    ensures IsCut(file[at..], cp, normalSize)
  {
    hide IsCut;
    assert src == file[at..][..|src|];
    CutWithinWindow(file[at..], src, cp, normalSize);
  }

  // A complete cutting covers the file, and only the last chunk can be short.
  lemma CutsAll(file: Buffer, pieces: seq<Buffer>, normalSize: nat)
    requires CutUpTo(file, pieces, |file|, normalSize)
    ensures Flat(pieces) == file
    ensures forall i :: 0 <= i < |pieces| - 1 ==> MIN_CHUNK_SIZE < |pieces[i]| <= MAX_CHUNK_SIZE
  {
    hide Flat;
    assert file[..|file|] == file;
    forall i | 0 <= i < |pieces| - 1 ensures MIN_CHUNK_SIZE < |pieces[i]| <= MAX_CHUNK_SIZE {
      assert Follows(file, pieces[..i], pieces[i], normalSize);
      assert Follows(file, pieces[..i + 1], pieces[i + 1], normalSize);
      FlatSnoc(pieces[..i], pieces[i]);
      assert pieces[..i] + [pieces[i]] == pieces[..i + 1];
      PrefixOfCutting(file, pieces, i + 2, normalSize);
    }
  }
}
