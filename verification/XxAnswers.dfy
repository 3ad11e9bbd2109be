// Hashes that are known: of nothing, of one byte, of thirty-two zero bytes, of thirteen bytes, and with a seed.
module XxAnswers {
  import opened Bytes
  import opened Words
  import opened XxHash

  const H0 := Hex(false, false, false, false)
  const H1 := Hex(false, false, false, true)
  const H2 := Hex(false, false, true, false)
  const H3 := Hex(false, false, true, true)
  const H4 := Hex(false, true, false, false)
  const H5 := Hex(false, true, false, true)
  const H6 := Hex(false, true, true, false)
  const H7 := Hex(false, true, true, true)
  const H8 := Hex(true, false, false, false)
  const H9 := Hex(true, false, false, true)
  const HA := Hex(true, false, true, false)
  const HB := Hex(true, false, true, true)
  const HC := Hex(true, true, false, false)
  const HD := Hex(true, true, false, true)
  const HE := Hex(true, true, true, false)
  const HF := Hex(true, true, true, true)

  lemma Powers()
    ensures Pow2(1) == 2 && Pow2(7) == 0x80 && Pow2(11) == 0x800 && Pow2(12) == 0x1000 && Pow2(18) == 0x4_0000
    ensures Pow2(29) == 0x2000_0000 && Pow2(31) == 0x8000_0000 && Pow2(32) == 0x1_0000_0000
    ensures Pow2(33) == 0x2_0000_0000 && Pow2(46) == 0x4000_0000_0000 && Pow2(52) == 0x10_0000_0000_0000
    ensures Pow2(23) == 0x80_0000 && Pow2(27) == 0x800_0000
    ensures Pow2(37) == 0x20_0000_0000 && Pow2(41) == 0x200_0000_0000
    ensures Pow2(53) == 0x20_0000_0000_0000 && Pow2(57) == 0x200_0000_0000_0000 && Pow2(63) == 0x8000_0000_0000_0000
  {
    hide Pow2;
    PowersOfBytes();
    Pow2Sum(8, 3);
    Pow2Sum(8, 4);
    Pow2Sum(16, 2);
    Pow2Sum(16, 7);
    Pow2Sum(24, 3);
    Pow2Sum(24, 5);
    Pow2Sum(24, 7);
    Pow2Sum(32, 1);
    Pow2Sum(32, 5);
    Pow2Sum(40, 1);
    Pow2Sum(40, 6);
    Pow2Sum(48, 4);
    Pow2Sum(48, 5);
    Pow2Sum(56, 1);
    Pow2Sum(56, 7);
  }

  lemma SmallPowers()
    ensures Pow2(1) == 2 && Pow2(2) == 4 && Pow2(3) == 8 && Pow2(4) == 16 && Pow2(5) == 32 && Pow2(6) == 64
    ensures Pow2(7) == 128 && Pow2(8) == 256
  {
    assert Pow2(0) == 1;
  }

  lemma PowersOfBytes()
    ensures Pow2(1) == 2 && Pow2(2) == 4 && Pow2(3) == 8 && Pow2(4) == 16 && Pow2(5) == 32 && Pow2(6) == 64
    ensures Pow2(7) == 128 && Pow2(8) == 256
    ensures Pow2(16) == 0x1_0000 && Pow2(24) == 0x100_0000 && Pow2(32) == 0x1_0000_0000
    ensures Pow2(40) == 0x100_0000_0000 && Pow2(48) == 0x1_0000_0000_0000 && Pow2(56) == 0x100_0000_0000_0000
  {
    hide Pow2;
    SmallPowers();
    Pow2Sum(8, 8);
    Pow2Sum(16, 8);
    Pow2Sum(16, 16);
    Pow2Sum(32, 8);
    Pow2Sum(32, 16);
    Pow2Sum(32, 24);
  }

  lemma Rotl1(high: nat, low: nat)
    requires high < 2 && low < 0x8000000000000000
    ensures 0x8000000000000000 * high + low < U64
    ensures Rotl(0x8000000000000000 * high + low, 1) == 2 * low + high
  {
    hide Rotl, Pow2;
    Powers();
    RotlIs(1, high, low);
  }

  lemma Rotl7(high: nat, low: nat)
    requires high < 0x80 && low < 0x200000000000000
    ensures 0x200000000000000 * high + low < U64
    ensures Rotl(0x200000000000000 * high + low, 7) == 0x80 * low + high
  {
    hide Rotl, Pow2;
    Powers();
    RotlIs(7, high, low);
  }

  lemma Rotl11(high: nat, low: nat)
    requires high < 0x800 && low < 0x20000000000000
    ensures 0x20000000000000 * high + low < U64
    ensures Rotl(0x20000000000000 * high + low, 11) == 0x800 * low + high
  {
    hide Rotl, Pow2;
    Powers();
    RotlIs(11, high, low);
  }

  lemma Rotl12(high: nat, low: nat)
    requires high < 0x1000 && low < 0x10000000000000
    ensures 0x10000000000000 * high + low < U64
    ensures Rotl(0x10000000000000 * high + low, 12) == 0x1000 * low + high
  {
    hide Rotl, Pow2;
    Powers();
    RotlIs(12, high, low);
  }

  lemma Rotl18(high: nat, low: nat)
    requires high < 0x40000 && low < 0x400000000000
    ensures 0x400000000000 * high + low < U64
    ensures Rotl(0x400000000000 * high + low, 18) == 0x40000 * low + high
  {
    hide Rotl, Pow2;
    Powers();
    RotlIs(18, high, low);
  }

  lemma Rotl31(high: nat, low: nat)
    requires high < 0x80000000 && low < 0x200000000
    ensures 0x200000000 * high + low < U64
    ensures Rotl(0x200000000 * high + low, 31) == 0x80000000 * low + high
  {
    hide Rotl, Pow2;
    Powers();
    RotlIs(31, high, low);
  }

  lemma Rotl23(high: nat, low: nat)
    requires high < 0x800000 && low < 0x20000000000
    ensures 0x20000000000 * high + low < U64
    ensures Rotl(0x20000000000 * high + low, 23) == 0x800000 * low + high
  {
    hide Rotl, Pow2;
    Powers();
    RotlIs(23, high, low);
  }

  lemma Rotl27(high: nat, low: nat)
    requires high < 0x8000000 && low < 0x2000000000
    ensures 0x2000000000 * high + low < U64
    ensures Rotl(0x2000000000 * high + low, 27) == 0x8000000 * low + high
  {
    hide Rotl, Pow2;
    Powers();
    RotlIs(27, high, low);
  }

  lemma AvalancheBySteps(h: u64, a: u64, h1: u64, b: u64, h2: u64, c: u64)
    requires a == h / 0x2_0000_0000 && h1 == Mul(Xor(h, a), PRIME64_2)
    requires b == h1 / 0x2000_0000 && h2 == Mul(Xor(h1, b), PRIME64_3)
    requires c == h2 / 0x1_0000_0000
    ensures Avalanche(h) == Xor(h2, c)
  {
    hide Xor, Mul, ShiftRight, Pow2;
    Powers();
    ShiftRightIs(h, 33);
    ShiftRightIs(h1, 29);
    ShiftRightIs(h2, 32);
  }

  function Zeros(): (z: Buffer)
    ensures |z| == STRIPE
  {
    seq(STRIPE, _ => 0)
  }

  lemma WordOfZeros(at: nat)
    requires at + 8 <= STRIPE
    ensures ReadLE64(Zeros()[at..at + 8]) == 0
  {
    var w := Zeros()[at..at + 8];
    assert forall k :: 0 <= k < 8 ==> w[k] == 0;
    assert forall k :: 0 <= k < 4 ==> w[..4][k] == 0 && w[4..8][k] == 0;
  }

  lemma FirstLane(seed: u64, s: Buffer, lane: nat)
    requires lane < 4 && |s| >= STRIPE
    ensures Lane(seed, s, lane, 1) == Round(Initial(seed, lane), ReadLE64(s[8 * lane..8 * lane + 8]))
  {
    hide Round, ReadLE64, Initial;
    assert Lane(seed, s, lane, 0) == Initial(seed, lane);
  }

  lemma NothingFirst()
    ensures Xor(0x27D4EB2F165667C5, 0x13EA7597) == 0x27D4EB2F05BC1252
  {
    hide Xor;
    XorByDigits(Word(Quad(H2, H7, HD, H4), Quad(HE, HB, H2, HF), Quad(H1, H6, H5, H6), Quad(H6, H7, HC, H5)),
                Word(Quad(H0, H0, H0, H0), Quad(H0, H0, H0, H0), Quad(H1, H3, HE, HA), Quad(H7, H5, H9, H7)));
  }

  lemma NothingSecond()
    ensures Xor(0xBEB13DDA13C2ED4E, 0x5F589EED0) == 0xBEB13DDFE64B039E
  {
    hide Xor;
    XorByDigits(Word(Quad(HB, HE, HB, H1), Quad(H3, HD, HD, HA), Quad(H1, H3, HC, H2), Quad(HE, HD, H4, HE)),
                Word(Quad(H0, H0, H0, H0), Quad(H0, H0, H0, H5), Quad(HF, H5, H8, H9), Quad(HE, HE, HD, H0)));
  }

  lemma NothingThird()
    ensures Xor(0xEF46DB37BE9E32AE, 0xEF46DB37) == 0xEF46DB3751D8E999
  {
    hide Xor;
    XorByDigits(Word(Quad(HE, HF, H4, H6), Quad(HD, HB, H3, H7), Quad(HB, HE, H9, HE), Quad(H3, H2, HA, HE)),
                Word(Quad(H0, H0, H0, H0), Quad(H0, H0, H0, H0), Quad(HE, HF, H4, H6), Quad(HD, HB, H3, H7)));
  }

  lemma NothingMixed()
    ensures Avalanche(0x27D4EB2F165667C5) == 0xEF46DB3751D8E999
  {
    hide Avalanche, Xor;
    NothingFirst();
    NothingSecond();
    NothingThird();
    AvalancheBySteps(0x27D4EB2F165667C5, 0x13EA7597, 0xBEB13DDA13C2ED4E, 0x5F589EED0, 0xEF46DB37BE9E32AE, 0xEF46DB37);
  }

  // No bytes.
  lemma HashOfNothing()
    ensures Hash([], 0) == 0xEF46DB3751D8E999
  {
    hide Avalanche;
    NothingMixed();
  }

  lemma OneTail()
    ensures Xor(0x27D4EB2F165667C6, 0x17AD1CD776BD51A5) == 0x3079F7F860EB3663
  {
    hide Xor;
    XorByDigits(Word(Quad(H2, H7, HD, H4), Quad(HE, HB, H2, HF), Quad(H1, H6, H5, H6), Quad(H6, H7, HC, H6)),
                Word(Quad(H1, H7, HA, HD), Quad(H1, HC, HD, H7), Quad(H7, H6, HB, HD), Quad(H5, H1, HA, H5)));
  }

  lemma OneByte()
    ensures TailByte(0x27D4EB2F165667C6, 97) == 0xB86597E419D4D215
  {
    hide Xor, Rotl;
    OneTail();
    Rotl11(0x183, 0x19F7F860EB3663);
  }

  lemma OneFirst()
    ensures Xor(0xB86597E419D4D215, 0x5C32CBF2) == 0xB86597E445E619E7
  {
    hide Xor;
    XorByDigits(Word(Quad(HB, H8, H6, H5), Quad(H9, H7, HE, H4), Quad(H1, H9, HD, H4), Quad(HD, H2, H1, H5)),
                Word(Quad(H0, H0, H0, H0), Quad(H0, H0, H0, H0), Quad(H5, HC, H3, H2), Quad(HC, HB, HF, H2)));
  }

  lemma OneSecond()
    ensures Xor(0xD7858A2670150B49, 0x6BC2C5133) == 0xD7858A20CC395A7A
  {
    hide Xor;
    XorByDigits(Word(Quad(HD, H7, H8, H5), Quad(H8, HA, H2, H6), Quad(H7, H0, H1, H5), Quad(H0, HB, H4, H9)),
                Word(Quad(H0, H0, H0, H0), Quad(H0, H0, H0, H6), Quad(HB, HC, H2, HC), Quad(H5, H1, H3, H3)));
  }

  lemma OneThird()
    ensures Xor(0xD24EC4F17BC2AAAA, 0xD24EC4F1) == 0xD24EC4F1A98C6E5B
  {
    hide Xor;
    XorByDigits(Word(Quad(HD, H2, H4, HE), Quad(HC, H4, HF, H1), Quad(H7, HB, HC, H2), Quad(HA, HA, HA, HA)),
                Word(Quad(H0, H0, H0, H0), Quad(H0, H0, H0, H0), Quad(HD, H2, H4, HE), Quad(HC, H4, HF, H1)));
  }

  lemma OneMixed()
    ensures Avalanche(0xB86597E419D4D215) == 0xD24EC4F1A98C6E5B
  {
    hide Avalanche, Xor;
    OneFirst();
    OneSecond();
    OneThird();
    AvalancheBySteps(0xB86597E419D4D215, 0x5C32CBF2, 0xD7858A2670150B49, 0x6BC2C5133, 0xD24EC4F17BC2AAAA, 0xD24EC4F1);
  }

  // The letter a.
  lemma HashOfOne()
    ensures Hash([97], 0) == 0xD24EC4F1A98C6E5B
  {
    hide Avalanche, TailByte;
    OneMixed();
    OneByte();
    assert [97 as byte][1..] == [];
    assert Tail(0x27D4EB2F165667C6, [97]) == 0xB86597E419D4D215;
  }

  lemma Lane0()
    ensures Lane(0, Zeros(), 0, 1) == 0x119361E2963B6D41
  {
    hide Rotl, ReadLE64;
    WordOfZeros(0);
    FirstLane(0, Zeros(), 0);
    Rotl31(0x307513F7, 0xADC0B5D6);
  }

  lemma Lane1()
    ensures Lane(0, Zeros(), 1, 1) == 0x7F0E345BE3649CD2
  {
    hide Rotl, ReadLE64;
    WordOfZeros(8);
    FirstLane(0, Zeros(), 1);
    Rotl31(0x6159571E, 0x127D4EB4F);
  }

  lemma Lane2()
    ensures Lane(0, Zeros(), 2, 1) == 0x0
  {
    hide Rotl, ReadLE64;
    WordOfZeros(16);
    FirstLane(0, Zeros(), 2);
    Rotl31(0x0, 0x0);
  }

  lemma Lane3()
    ensures Lane(0, Zeros(), 3, 1) == 0x6D7AD2794D292F91
  {
    hide Rotl, ReadLE64;
    WordOfZeros(24);
    FirstLane(0, Zeros(), 3);
    Rotl31(0x30E44327, 0x7A143579);
  }

  lemma Converging()
    ensures Plus(Plus(Plus(Rotl(0x119361E2963B6D41, 1), Rotl(0x7F0E345BE3649CD2, 7)), Rotl(0x0, 12)),
                 Rotl(0x6D7AD2794D292F91, 18))
            == 0xF426265B9D0AF9AC
  {
    hide Rotl;
    Rotl1(0x0, 0x119361E2963B6D41);
    Rotl7(0x3F, 0x10E345BE3649CD2);
    Rotl12(0x0, 0x0);
    Rotl18(0x1B5EB, 0x12794D292F91);
  }

  lemma Merging0()
    ensures Xor(0xF426265B9D0AF9AC, 0xAFA65B9B1253FE9A) == 0x5B807DC08F590736
  {
    hide Xor;
    XorByDigits(Word(Quad(HF, H4, H2, H6), Quad(H2, H6, H5, HB), Quad(H9, HD, H0, HA), Quad(HF, H9, HA, HC)),
                Word(Quad(HA, HF, HA, H6), Quad(H5, HB, H9, HB), Quad(H1, H2, H5, H3), Quad(HF, HE, H9, HA)));
  }

  lemma Products0()
    ensures Mul(0x119361E2963B6D41, PRIME64_2) == 0xB57AE22D4A75620F
    ensures Mul(0xA53AB107DABD7116, PRIME64_1) == 0xAFA65B9B1253FE9A
    ensures Mul(0x5B807DC08F590736, PRIME64_1) == 0x2FC99B768435697A
  {
  }

  lemma Merged0()
    ensures MergeRound(0xF426265B9D0AF9AC, 0x119361E2963B6D41) == 0xB5B565EE46E817DD
  {
    hide Rotl, Xor, Mul;
    Products0();
    Merging0();
    Rotl31(0x5ABD7116, 0x14A75620F);
  }

  lemma Merging1()
    ensures Xor(0xB5B565EE46E817DD, 0x111445B5E55CEBB4) == 0xA4A1205BA3B4FC69
  {
    hide Xor;
    XorByDigits(Word(Quad(HB, H5, HB, H5), Quad(H6, H5, HE, HE), Quad(H4, H6, HE, H8), Quad(H1, H7, HD, HD)),
                Word(Quad(H1, H1, H1, H4), Quad(H4, H5, HB, H5), Quad(HE, H5, H5, HC), Quad(HE, HB, HB, H4)));
  }

  lemma Products1()
    ensures Mul(0x7F0E345BE3649CD2, PRIME64_2) == 0x5AC33F5863E92ACE
    ensures Mul(0x31F495672D619FAC, PRIME64_1) == 0x111445B5E55CEBB4
    ensures Mul(0xA4A1205BA3B4FC69, PRIME64_1) == 0x8ABD35F64FEF55F
  {
  }

  lemma Merged1()
    ensures MergeRound(0xB5B565EE46E817DD, 0x7F0E345BE3649CD2) == 0x8E979DD727B1A3C2
  {
    hide Rotl, Xor, Mul;
    Products1();
    Merging1();
    Rotl31(0x2D619FAC, 0x63E92ACE);
  }

  lemma Merging2()
    ensures Xor(0x8E979DD727B1A3C2, 0x0) == 0x8E979DD727B1A3C2
  {
    hide Xor;
    XorByDigits(Word(Quad(H8, HE, H9, H7), Quad(H9, HD, HD, H7), Quad(H2, H7, HB, H1), Quad(HA, H3, HC, H2)),
                Word(Quad(H0, H0, H0, H0), Quad(H0, H0, H0, H0), Quad(H0, H0, H0, H0), Quad(H0, H0, H0, H0)));
  }

  lemma Products2()
    ensures Mul(0x0, PRIME64_2) == 0x0
    ensures Mul(0x0, PRIME64_1) == 0x0
    ensures Mul(0x8E979DD727B1A3C2, PRIME64_1) == 0xD387A70F36FA6F4E
  {
  }

  lemma Merged2()
    ensures MergeRound(0x8E979DD727B1A3C2, 0x0) == 0x59737186F9AD1DB1
  {
    hide Rotl, Xor, Mul;
    Products2();
    Merging2();
    Rotl31(0x0, 0x0);
  }

  lemma Merging3()
    ensures Xor(0x59737186F9AD1DB1, 0x862C55ACCD1D2293) == 0xDF5F242A34B03F22
  {
    hide Xor;
    XorByDigits(Word(Quad(H5, H9, H7, H3), Quad(H7, H1, H8, H6), Quad(HF, H9, HA, HD), Quad(H1, HD, HB, H1)),
                Word(Quad(H8, H6, H2, HC), Quad(H5, H5, HA, HC), Quad(HC, HD, H1, HD), Quad(H2, H2, H9, H3)));
  }

  lemma Products3()
    ensures Mul(0x6D7AD2794D292F91, PRIME64_2) == 0xA5485D2B1973C8BF
    ensures Mul(0x8CB9E45FD2A42E95, PRIME64_1) == 0x862C55ACCD1D2293
    ensures Mul(0xDF5F242A34B03F22, PRIME64_1) == 0x45D406ED78F81EEE
  {
  }

  lemma Merged3()
    ensures MergeRound(0x59737186F9AD1DB1, 0x6D7AD2794D292F91) == 0xCBBFD1653BAACD51
  {
    hide Rotl, Xor, Mul;
    Products3();
    Merging3();
    Rotl31(0x52A42E95, 0x11973C8BF);
  }

  lemma ZerosFirst()
    ensures Xor(0xCBBFD1653BAACD71, 0x65DFE8B2) == 0xCBBFD1655E7525C3
  {
    hide Xor;
    XorByDigits(Word(Quad(HC, HB, HB, HF), Quad(HD, H1, H6, H5), Quad(H3, HB, HA, HA), Quad(HC, HD, H7, H1)),
                Word(Quad(H0, H0, H0, H0), Quad(H0, H0, H0, H0), Quad(H6, H5, HD, HF), Quad(HE, H8, HB, H2)));
  }

  lemma ZerosSecond()
    ensures Xor(0xF7EA4738AA4CA82D, 0x7BF5239C5) == 0xF7EA473F151E91E8
  {
    hide Xor;
    XorByDigits(Word(Quad(HF, H7, HE, HA), Quad(H4, H7, H3, H8), Quad(HA, HA, H4, HC), Quad(HA, H8, H2, HD)),
                Word(Quad(H0, H0, H0, H0), Quad(H0, H0, H0, H7), Quad(HB, HF, H5, H2), Quad(H3, H9, HC, H5)));
  }

  lemma ZerosThird()
    ensures Xor(0xF6E9BE5D868A92A8, 0xF6E9BE5D) == 0xF6E9BE5D70632CF5
  {
    hide Xor;
    XorByDigits(Word(Quad(HF, H6, HE, H9), Quad(HB, HE, H5, HD), Quad(H8, H6, H8, HA), Quad(H9, H2, HA, H8)),
                Word(Quad(H0, H0, H0, H0), Quad(H0, H0, H0, H0), Quad(HF, H6, HE, H9), Quad(HB, HE, H5, HD)));
  }

  lemma ZerosMixed()
    ensures Avalanche(0xCBBFD1653BAACD71) == 0xF6E9BE5D70632CF5
  {
    hide Avalanche, Xor;
    ZerosFirst();
    ZerosSecond();
    ZerosThird();
    AvalancheBySteps(0xCBBFD1653BAACD71, 0x65DFE8B2, 0xF7EA4738AA4CA82D, 0x7BF5239C5, 0xF6E9BE5D868A92A8, 0xF6E9BE5D);
  }

  // Thirty-two zero bytes.
  lemma HashOfZeros()
    ensures Hash([0, 0, 0, 0, 0, 0, 0, 0, 0, 0, 0, 0, 0, 0, 0, 0, 0, 0, 0, 0, 0, 0, 0, 0, 0, 0, 0, 0, 0, 0, 0, 0], 0)
            == 0xF6E9BE5D70632CF5
  {
    hide Rotl, Avalanche, MergeRound, Lane;
    Lane0();
    Lane1();
    Lane2();
    Lane3();
    Converging();
    Merged0();
    Merged1();
    Merged2();
    Merged3();
    ZerosMixed();
    HashIs(Zeros(), 0, 1);
    assert Zeros()[32..] == [];
    assert Zeros()
        == [0, 0, 0, 0, 0, 0, 0, 0, 0, 0, 0, 0, 0, 0, 0, 0, 0, 0, 0, 0, 0, 0, 0, 0, 0, 0, 0, 0, 0, 0, 0, 0];
  }

  lemma WordProducts()
    ensures Mul(0x807060504030201, PRIME64_2) == 0xD33B6643CF98894F
    ensures Mul(0xE7CC44A7E99DB321, PRIME64_1) == 0x9731878735CC8067
    ensures Mul(0x411CD73DAD872B65, PRIME64_1) == 0x3F7C6EE8793C9443
  {
  }

  lemma WordXor()
    ensures Xor(0x27D4EB2F165667D2, 0x9731878735CC8067) == 0xB0E56CA8239AE7B5
  {
    hide Xor;
    XorByDigits(Word(Quad(H2, H7, HD, H4), Quad(HE, HB, H2, HF), Quad(H1, H6, H5, H6), Quad(H6, H7, HD, H2)),
                Word(Quad(H9, H7, H3, H1), Quad(H8, H7, H8, H7), Quad(H3, H5, HC, HC), Quad(H8, H0, H6, H7)));
  }

  lemma WordTaken()
    ensures TailWord(0x27D4EB2F165667D2, 0x807060504030201) == 0xC56839603BEF42A6
  {
    hide Rotl, Xor, Mul;
    WordProducts();
    WordXor();
    Rotl31(0x699DB321, 0x1CF98894F);
    Rotl27(0x5872B65, 0x8239AE7B5);
  }

  lemma HalfProducts()
    ensures Mul(0xC0B0A09, PRIME64_1) == 0x479C0518F30064BF
    ensures Mul(0x3C6477930CC17A1E, PRIME64_2) == 0x79736A103DA63942
  {
  }

  lemma HalfXor()
    ensures Xor(0xC56839603BEF42A6, 0x479C0518F30064BF) == 0x82F43C78C8EF2619
  {
    hide Xor;
    XorByDigits(Word(Quad(HC, H5, H6, H8), Quad(H3, H9, H6, H0), Quad(H3, HB, HE, HF), Quad(H4, H2, HA, H6)),
                Word(Quad(H4, H7, H9, HC), Quad(H0, H5, H1, H8), Quad(HF, H3, H0, H0), Quad(H6, H4, HB, HF)));
  }

  lemma HalfTaken()
    ensures TailHalf(0xC56839603BEF42A6, 0xC0B0A09) == 0x8FC9D1C1DBDDB33B
  {
    hide Rotl, Xor, Mul;
    HalfProducts();
    HalfXor();
    Rotl23(0x417A1E, 0x78C8EF2619);
  }

  lemma ByteProducts()
    ensures Mul(0xD, PRIME64_5) == 0x5CFF16422634501
    ensures Mul(0x31052FCDF7B1D450, PRIME64_1) == 0x21B419EB65BE1630
  {
  }

  lemma ByteXor()
    ensures Xor(0x8FC9D1C1DBDDB33B, 0x5CFF16422634501) == 0x8A0620A5F9BEF63A
  {
    hide Xor;
    XorByDigits(Word(Quad(H8, HF, HC, H9), Quad(HD, H1, HC, H1), Quad(HD, HB, HD, HD), Quad(HB, H3, H3, HB)),
                Word(Quad(H0, H5, HC, HF), Quad(HF, H1, H6, H4), Quad(H2, H2, H6, H3), Quad(H4, H5, H0, H1)));
  }

  lemma ByteTaken()
    ensures TailByte(0x8FC9D1C1DBDDB33B, 13) == 0x21B419EB65BE1630
  {
    hide Rotl, Xor, Mul;
    ByteProducts();
    ByteXor();
    Rotl11(0x450, 0x620A5F9BEF63A);
  }

  lemma ThirteenFirst()
    ensures Xor(0x21B419EB65BE1630, 0x10DA0CF5) == 0x21B419EB75641AC5
  {
    hide Xor;
    XorByDigits(Word(Quad(H2, H1, HB, H4), Quad(H1, H9, HE, HB), Quad(H6, H5, HB, HE), Quad(H1, H6, H3, H0)),
                Word(Quad(H0, H0, H0, H0), Quad(H0, H0, H0, H0), Quad(H1, H0, HD, HA), Quad(H0, HC, HF, H5)));
  }

  lemma ThirteenSecond()
    ensures Xor(0xFA44E2574C9B19CB, 0x7D22712BA) == 0xFA44E2509EBC0B71
  {
    hide Xor;
    XorByDigits(Word(Quad(HF, HA, H4, H4), Quad(HE, H2, H5, H7), Quad(H4, HC, H9, HB), Quad(H1, H9, HC, HB)),
                Word(Quad(H0, H0, H0, H0), Quad(H0, H0, H0, H7), Quad(HD, H2, H2, H7), Quad(H1, H2, HB, HA)));
  }

  lemma ThirteenThird()
    ensures Xor(0x53D6C508799689E9, 0x53D6C508) == 0x53D6C5082A404CE1
  {
    hide Xor;
    XorByDigits(Word(Quad(H5, H3, HD, H6), Quad(HC, H5, H0, H8), Quad(H7, H9, H9, H6), Quad(H8, H9, HE, H9)),
                Word(Quad(H0, H0, H0, H0), Quad(H0, H0, H0, H0), Quad(H5, H3, HD, H6), Quad(HC, H5, H0, H8)));
  }

  lemma ThirteenMixed()
    ensures Avalanche(0x21B419EB65BE1630) == 0x53D6C5082A404CE1
  {
    hide Avalanche, Xor;
    ThirteenFirst();
    ThirteenSecond();
    ThirteenThird();
    AvalancheBySteps(0x21B419EB65BE1630, 0x10DA0CF5, 0xFA44E2574C9B19CB, 0x7D22712BA, 0x53D6C508799689E9, 0x53D6C508);
  }

  // A word, half a word and a byte, little-endian.
  lemma HashOfThirteen()
    ensures Hash([1, 2, 3, 4, 5, 6, 7, 8, 9, 10, 11, 12, 13], 0) == 0x53D6C5082A404CE1
  {
    hide Avalanche, TailWord, TailHalf, TailByte;
    var s: Buffer := [1, 2, 3, 4, 5, 6, 7, 8, 9, 10, 11, 12, 13];
    WordTaken();
    HalfTaken();
    ByteTaken();
    ThirteenMixed();
    assert s[8..] == [9, 10, 11, 12, 13] && s[8..][4..] == [13] && [13 as byte][1..] == [];
    assert ReadLE64(s[..8]) == 0x807060504030201 && ReadLE32(s[8..][..4]) == 0xC0B0A09;
    assert Tail(0x8FC9D1C1DBDDB33B, [13]) == 0x21B419EB65BE1630;
    assert Tail(0xC56839603BEF42A6, s[8..]) == 0x21B419EB65BE1630;
    assert s[0..] == s;
  }

  function Counting(): (s: Buffer)
    ensures |s| == STRIPE && forall k :: 0 <= k < STRIPE ==> s[k] == k
  {
    seq(STRIPE, k => k)
  }

  lemma WordOfCounting(at: nat)
    requires at + 8 <= STRIPE
    ensures ReadLE64(Counting()[at..at + 8]) == 0x101010101010101 * at + 0x706050403020100
  {
    var w := Counting()[at..at + 8];
    assert forall k :: 0 <= k < 8 ==> w[k] == at + k;
    assert forall k :: 0 <= k < 4 ==> w[..4][k] == at + k && w[4..8][k] == at + 4 + k;
  }

  lemma SeededProducts0()
    ensures Mul(0x706050403020100, PRIME64_2) == 0x3B6643CF98894F00
    ensures Mul(0x2325026BCE2835DF, PRIME64_1) == 0xB7AB209AC06B5E99
  {
  }

  lemma SeededLane0()
    ensures Lane(1, Counting(), 0, 1) == 0xB7AB209AC06B5E99
  {
    hide Rotl, ReadLE64, Mul;
    WordOfCounting(0);
    FirstLane(1, Counting(), 0);
    SeededProducts0();
    Rotl31(0x4E2835DF, 0x464A04D7);
  }

  lemma SeededProducts1()
    ensures Mul(0xF0E0D0C0B0A0908, PRIME64_2) == 0xFA0F577151032178
    ensures Mul(0x3C6C06645E6102D7, PRIME64_1) == 0x86C930949FC32561
  {
  }

  lemma SeededLane1()
    ensures Lane(1, Counting(), 1, 1) == 0x86C930949FC32561
  {
    hide Rotl, ReadLE64, Mul;
    WordOfCounting(8);
    FirstLane(1, Counting(), 1);
    SeededProducts1();
    Rotl31(0x5E6102D7, 0x78D80CC8);
  }

  lemma SeededProducts2()
    ensures Mul(0x1716151413121110, PRIME64_2) == 0xB8B86B13097CF3F0
    ensures Mul(0x84BE79F8DC5C3589, PRIME64_1) == 0x8E1CA54B48A1553F
  {
  }

  lemma SeededLane2()
    ensures Lane(1, Counting(), 2, 1) == 0x8E1CA54B48A1553F
  {
    hide Rotl, ReadLE64, Mul;
    WordOfCounting(16);
    FirstLane(1, Counting(), 2);
    SeededProducts2();
    Rotl31(0x5C5C3589, 0x1097CF3F1);
  }

  lemma SeededProducts3()
    ensures Mul(0x1F1E1D1C1B1A1918, PRIME64_2) == 0x77617EB4C1F6C668
    ensures Mul(0x9E057DF16C950281, PRIME64_1) == 0x5D3AB54527F91C07
  {
  }

  lemma SeededLane3()
    ensures Lane(1, Counting(), 3, 1) == 0x5D3AB54527F91C07
  {
    hide Rotl, ReadLE64, Mul;
    WordOfCounting(24);
    FirstLane(1, Counting(), 3);
    SeededProducts3();
    Rotl31(0x6C950281, 0x13C0AFBE2);
  }

  lemma SeededConverging()
    ensures Plus(Plus(Plus(Rotl(0xB7AB209AC06B5E99, 1), Rotl(0x86C930949FC32561, 7)), Rotl(0x8E1CA54B48A1553F, 12)),
                 Rotl(0x5D3AB54527F91C07, 18)) == 0x7357DFF3E7DADBC1
  {
    hide Rotl;
    Rotl1(0x1, 0x37AB209AC06B5E99);
    Rotl7(0x43, 0xC930949FC32561);
    Rotl12(0x8E1, 0xCA54B48A1553F);
    Rotl18(0x174EA, 0x354527F91C07);
  }

  lemma SeededMerging0()
    ensures Xor(0x7357DFF3E7DADBC1, 0x83165830066661A) == 0x7B66BA70E7BCBDDB
  {
    hide Xor;
    XorByDigits(Word(Quad(H7, H3, H5, H7), Quad(HD, HF, HF, H3), Quad(HE, H7, HD, HA), Quad(HD, HB, HC, H1)),
                Word(Quad(H0, H8, H3, H1), Quad(H6, H5, H8, H3), Quad(H0, H0, H6, H6), Quad(H6, H6, H1, HA)));
  }

  lemma SeededMergeProducts0()
    ensures Mul(0xB7AB209AC06B5E99, PRIME64_2) == 0xE4785B2C96ACA437
    ensures Mul(0x4B56521BF23C2D96, PRIME64_1) == 0x83165830066661A
    ensures Mul(0x7B66BA70E7BCBDDB, PRIME64_1) == 0x539BF8B5315FEC7D
  {
  }

  lemma SeededMerged0()
    ensures MergeRound(0x7357DFF3E7DADBC1, 0xB7AB209AC06B5E99) == 0xD987C32CF4129AE0
  {
    hide Rotl, Xor, Mul;
    SeededMergeProducts0();
    SeededMerging0();
    Rotl31(0x723C2D96, 0x96ACA437);
  }

  lemma SeededMerging1()
    ensures Xor(0xD987C32CF4129AE0, 0x85C60359D0B327C1) == 0x5C41C07524A1BD21
  {
    hide Xor;
    XorByDigits(Word(Quad(HD, H9, H8, H7), Quad(HC, H3, H2, HC), Quad(HF, H4, H1, H2), Quad(H9, HA, HE, H0)),
                Word(Quad(H8, H5, HC, H6), Quad(H0, H3, H5, H9), Quad(HD, H0, HB, H3), Quad(H2, H7, HC, H1)));
  }

  lemma SeededMergeProducts1()
    ensures Mul(0x86C930949FC32561, PRIME64_2) == 0x5B734AEF2BDC93EF
    ensures Mul(0x95EE49F7ADB9A577, PRIME64_1) == 0x85C60359D0B327C1
    ensures Mul(0x5C41C07524A1BD21, PRIME64_1) == 0xD668F139B2D1C667
  {
  }

  lemma SeededMerged1()
    ensures MergeRound(0xD987C32CF4129AE0, 0x86C930949FC32561) == 0x5C54BBB1758474CA
  {
    hide Rotl, Xor, Mul;
    SeededMergeProducts1();
    SeededMerging1();
    Rotl31(0x2DB9A577, 0x12BDC93EF);
  }

  lemma SeededMerging2()
    ensures Xor(0x5C54BBB1758474CA, 0x65C193C317C7C940) == 0x399528726243BD8A
  {
    hide Xor;
    XorByDigits(Word(Quad(H5, HC, H5, H4), Quad(HB, HB, HB, H1), Quad(H7, H5, H8, H4), Quad(H7, H4, HC, HA)),
                Word(Quad(H6, H5, HC, H1), Quad(H9, H3, HC, H3), Quad(H1, H7, HC, H7), Quad(HC, H9, H4, H0)));
  }

  lemma SeededMergeProducts2()
    ensures Mul(0x8E1CA54B48A1553F, PRIME64_2) == 0x7B2BF981B4362371
    ensures Mul(0xDA1B11B8BD95FCC0, PRIME64_1) == 0x65C193C317C7C940
    ensures Mul(0x399528726243BD8A, PRIME64_1) == 0x77B241ECF4F5D7C6
  {
  }

  lemma SeededMerged2()
    ensures MergeRound(0x5C54BBB1758474CA, 0x8E1CA54B48A1553F) == 0xFD9E0C64B7A88629
  {
    hide Rotl, Xor, Mul;
    SeededMergeProducts2();
    SeededMerging2();
    Rotl31(0x3D95FCC0, 0x1B4362371);
  }

  lemma SeededMerging3()
    ensures Xor(0xFD9E0C64B7A88629, 0x4483908EEE00556E) == 0xB91D9CEA59A8D347
  {
    hide Xor;
    XorByDigits(Word(Quad(HF, HD, H9, HE), Quad(H0, HC, H6, H4), Quad(HB, H7, HA, H8), Quad(H8, H6, H2, H9)),
                Word(Quad(H4, H4, H8, H3), Quad(H9, H0, H8, HE), Quad(HE, HE, H0, H0), Quad(H5, H5, H6, HE)));
  }

  lemma SeededMergeProducts3()
    ensures Mul(0x5D3AB54527F91C07, PRIME64_2) == 0xF226E94449661329
    ensures Mul(0x24B30994F91374A2, PRIME64_1) == 0x4483908EEE00556E
    ensures Mul(0xB91D9CEA59A8D347, PRIME64_1) == 0xC7FB512953EA7071
  {
  }

  lemma SeededMerged3()
    ensures MergeRound(0xFD9E0C64B7A88629, 0x5D3AB54527F91C07) == 0x4DE71BA1169D1ED4
  {
    hide Rotl, Xor, Mul;
    SeededMergeProducts3();
    SeededMerging3();
    Rotl31(0x791374A2, 0x49661329);
  }

  lemma SeededFirst()
    ensures Xor(0x4DE71BA1169D1EF4, 0x26F38DD0) == 0x4DE71BA1306E9324
  {
    hide Xor;
    XorByDigits(Word(Quad(H4, HD, HE, H7), Quad(H1, HB, HA, H1), Quad(H1, H6, H9, HD), Quad(H1, HE, HF, H4)),
                Word(Quad(H0, H0, H0, H0), Quad(H0, H0, H0, H0), Quad(H2, H6, HF, H3), Quad(H8, HD, HD, H0)));
  }

  lemma SeededSecond()
    ensures Xor(0xE9EEF9C3C901741C, 0x74F77CE1E) == 0xE9EEF9C48676BA02
  {
    hide Xor;
    XorByDigits(Word(Quad(HE, H9, HE, HE), Quad(HF, H9, HC, H3), Quad(HC, H9, H0, H1), Quad(H7, H4, H1, HC)),
                Word(Quad(H0, H0, H0, H0), Quad(H0, H0, H0, H7), Quad(H4, HF, H7, H7), Quad(HC, HE, H1, HE)));
  }

  lemma SeededThird()
    ensures Xor(0xD74E676619D3DDF2, 0xD74E6766) == 0xD74E6766CE9DBA94
  {
    hide Xor;
    XorByDigits(Word(Quad(HD, H7, H4, HE), Quad(H6, H7, H6, H6), Quad(H1, H9, HD, H3), Quad(HD, HD, HF, H2)),
                Word(Quad(H0, H0, H0, H0), Quad(H0, H0, H0, H0), Quad(HD, H7, H4, HE), Quad(H6, H7, H6, H6)));
  }

  lemma SeededMixed()
    ensures Avalanche(0x4DE71BA1169D1EF4) == 0xD74E6766CE9DBA94
  {
    hide Avalanche, Xor;
    SeededFirst();
    SeededSecond();
    SeededThird();
    AvalancheBySteps(0x4DE71BA1169D1EF4, 0x26F38DD0, 0xE9EEF9C3C901741C, 0x74F77CE1E, 0xD74E676619D3DDF2, 0xD74E6766);
  }

  // The bytes from 0 to 31, with seed 1.
  lemma HashWithSeed()
    ensures Hash([0, 1, 2, 3, 4, 5, 6, 7, 8, 9, 10, 11, 12, 13, 14, 15, 16, 17, 18, 19, 20, 21, 22, 23, 24, 25, 26, 27,
                  28, 29, 30, 31], 1)
            == 0xD74E6766CE9DBA94
  {
    hide Rotl, Avalanche, MergeRound, Lane;
    SeededLane0();
    SeededLane1();
    SeededLane2();
    SeededLane3();
    SeededConverging();
    SeededMerged0();
    SeededMerged1();
    SeededMerged2();
    SeededMerged3();
    SeededMixed();
    HashIs(Counting(), 1, 1);
    assert Counting()[32..] == [];
    assert Counting()
        == [0, 1, 2, 3, 4, 5, 6, 7, 8, 9, 10, 11, 12, 13, 14, 15, 16, 17, 18, 19, 20, 21, 22, 23, 24, 25, 26, 27,
            28, 29, 30, 31];
  }
}
