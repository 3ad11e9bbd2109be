// Words of 64 bits as numbers, and what the operations of the hash on them are.
module Words {
  const U64: nat := 0x1_0000_0000_0000_0000
  type u64 = x: int | 0 <= x < U64

  function Plus(a: u64, b: u64): u64 {
    (a + b) % U64
  }

  function Minus(a: u64, b: u64): u64 {
    (a - b) % U64
  }

  function Mul(a: u64, b: u64): u64 {
    (a * b) % U64
  }

  function ShiftLeft(a: u64, r: nat): u64
    decreases r, a
  {
    if r == 0 then a else ShiftLeft(2 * a % U64, r - 1)
  }

  function ShiftRight(a: u64, r: nat): u64
    decreases r, a
  {
    if r == 0 then a else ShiftRight(a / 2, r - 1)
  }

  // What one shift loses the other brings back.
  function Rotl(a: u64, r: nat): u64
    requires 0 < r < 64
  {
    Plus(ShiftLeft(a, r), ShiftRight(a, 64 - r))
  }

  function XorBits(a: nat, b: nat): nat
    decreases a + b
  {
    if a == 0 && b == 0 then 0 else (a + b) % 2 + 2 * XorBits(a / 2, b / 2)
  }

  function Xor(a: u64, b: u64): u64 {
    XorBits(a, b) % U64
  }

  function Pow2(n: nat): (p: nat)
    ensures p > 0
  {
    if n == 0 then 1 else 2 * Pow2(n - 1)
  }

  // The exclusive or of two words is a word, so that the reduction in Xor changes nothing.
  lemma XorIsExact(a: u64, b: u64)
    ensures Xor(a, b) == XorBits(a, b)
  {
    hide XorBits, Pow2;
    Pow2Of64();
    XorFits(a, b, 64);
  }

  lemma Pow2Of64()
    ensures Pow2(64) == U64
  {
    Pow2Sum(4, 4);
    Pow2Sum(8, 8);
    Pow2Sum(16, 16);
    Pow2Sum(32, 32);
  }

  lemma {:induction false} Pow2Sum(m: nat, n: nat)
    ensures Pow2(m + n) == Pow2(m) * Pow2(n)
  {
    if m > 0 {
      Pow2Sum(m - 1, n);
      assert Pow2(m) * Pow2(n) == 2 * (Pow2(m - 1) * Pow2(n));
    } else {
      assert Pow2(0) * Pow2(n) == Pow2(n);
    }
  }

  // The bits of the exclusive or are no more than those of the words.
  lemma {:induction false} XorFits(a: nat, b: nat, bits: nat)
    requires a < Pow2(bits) && b < Pow2(bits)
    ensures XorBits(a, b) < Pow2(bits)
  {
    if a != 0 || b != 0 {
      XorFits(a / 2, b / 2, bits - 1);
    }
  }

  // ---------------------------------------------------------------------------------------------
  // What the operations on words are
  // ---------------------------------------------------------------------------------------------

  lemma {:induction false} ShiftLeftIs(a: u64, r: nat)
    ensures ShiftLeft(a, r) == a * Pow2(r) % U64
    decreases r
  {
    hide Pow2;
    if r > 0 {
      ShiftLeftIs(2 * a % U64, r - 1);
      Doubled(a, Pow2(r - 1));
      Pow2Next(r);
    } else {
      Pow2Next(r);
    }
  }

  lemma Pow2Next(n: nat)
    ensures Pow2(n) == if n == 0 then 1 else 2 * Pow2(n - 1)
  {
  }

  lemma Doubled(a: nat, p: nat)
    ensures 2 * a % U64 * p % U64 == a * (2 * p) % U64
  {
    ReduceFirst(2 * a, p, U64);
    assert 2 * a * p == a * (2 * p);
  }

  lemma ReduceFirst(x: nat, p: nat, d: nat)
    requires d > 0
    ensures x % d * p % d == x * p % d
  {
    var q, rest := x / d, x % d;
    assert x == d * q + rest;
    Distribute(d, q, rest, p);
    AddMultiple(rest * p, q * p, d);
  }

  lemma AddMultiple(x: nat, k: nat, d: nat)
    requires d > 0
    ensures (x + d * k) % d == x % d
  {
    var q := x / d;
    assert d * (q + k) == d * q + d * k;
    QuotientIs(x + d * k, d, q + k);
  }

  lemma Distribute(d: nat, q: nat, rest: nat, p: nat)
    ensures (d * q + rest) * p == rest * p + d * (q * p)
  {
  }

  lemma {:induction false} ShiftRightIs(a: u64, r: nat)
    ensures ShiftRight(a, r) == a / Pow2(r)
    decreases r
  {
    if r > 0 {
      ShiftRightIs(a / 2, r - 1);
      HalvedTwice(a, Pow2(r - 1));
    }
  }

  lemma HalvedTwice(a: nat, p: nat)
    requires p > 0
    ensures a / 2 / p == a / (2 * p)
  {
    var q := a / 2 / p;
    assert p * q <= a / 2 < p * q + p;
    assert (2 * p) * q <= a < (2 * p) * q + 2 * p by {
      assert (2 * p) * q == 2 * (p * q);
    }
    QuotientIs(a, 2 * p, q);
  }

  lemma QuotientIs(a: nat, d: nat, q: nat)
    requires d > 0 && d * q <= a < d * q + d
    ensures a / d == q && a % d == a - d * q
  {
    Steps(d, a / d, q);
    Steps(d, q, a / d);
  }

  lemma Steps(d: nat, x: nat, y: nat)
    ensures x < y ==> d * x + d <= d * y
  {
    assert x < y ==> d * (x + 1) <= d * y;
  }

  // The r high bits become the low ones.
  lemma RotlIs(r: nat, high: nat, low: nat)
    requires 0 < r < 64 && high < Pow2(r) && low < Pow2(64 - r)
    ensures Pow2(64 - r) * high + low < U64 && Pow2(r) * low + high < U64
    ensures Rotl(Pow2(64 - r) * high + low, r) == Pow2(r) * low + high
  {
    hide Pow2, ShiftLeft, ShiftRight;
    var p, q := Pow2(r), Pow2(64 - r);
    Pow2Of64();
    Pow2Sum(r, 64 - r);
    Split(p, q, U64, high, low);
    ShiftLeftIs(q * high + low, r);
    ShiftRightIs(q * high + low, 64 - r);
  }

  lemma Split(p: nat, q: nat, d: nat, high: nat, low: nat)
    requires p * q == d && high < p && low < q
    ensures q * high + low < d && p * low + high < d
    ensures (q * high + low) * p % d == p * low && (q * high + low) / q == high
  {
    Below(q, high, low, p);
    Below(p, low, high, q);
    QuotientIs(q * high + low, q, high);
    Distribute(q, high, low, p);
    Regroup(p, q, high);
    AddMultiple(p * low, high, d);
    QuotientIs(p * low, d, 0);
  }

  lemma Regroup(p: nat, q: nat, high: nat)
    ensures q * (high * p) == p * q * high
  {
  }

  lemma Below(d: nat, q: nat, rest: nat, n: nat)
    requires rest < d && q < n
    ensures d * q + rest < d * n
  {
    assert d * (q + 1) <= d * n;
  }

  // Rotating on by the rest of the word brings it back.
  lemma RotlBack(a: u64, r: nat)
    requires 0 < r < 64
    ensures Rotl(Rotl(a, r), 64 - r) == a
  {
    hide Pow2, Rotl;
    var q := Pow2(64 - r);
    Parts(a, r);
    RotlIs(r, a / q, a % q);
    RotlIs(64 - r, a % q, a / q);
  }

  lemma Parts(a: u64, r: nat)
    requires 0 < r < 64
    ensures var q := Pow2(64 - r);
            a == q * (a / q) + a % q && a / q < Pow2(r) && a % q < q
  {
    hide Pow2;
    Pow2Of64();
    Pow2Sum(64 - r, r);
    QuotientBelow(a, Pow2(64 - r), Pow2(r));
  }

  lemma QuotientBelow(a: nat, d: nat, n: nat)
    requires d > 0 && a < d * n
    ensures a == d * (a / d) + a % d && a / d < n && a % d < d
  {
    var q := a / d;
    assert q >= n ==> d * q >= d * n;
  }

  // The exclusive or, the lowest bit apart.
  lemma XorStep(a: nat, b: nat, c: nat, d: nat)
    requires c < 2 && d < 2
    ensures XorBits(2 * a + c, 2 * b + d) == (if c == d then 0 else 1) + 2 * XorBits(a, b)
  {
    hide XorBits;
    XorUnfolds(2 * a + c, 2 * b + d);
    assert (2 * a + c) / 2 == a && (2 * b + d) / 2 == b;
    assert (2 * a + c + 2 * b + d) % 2 == (c + d) % 2;
  }

  lemma XorUnfolds(a: nat, b: nat)
    ensures XorBits(a, b) == (a + b) % 2 + 2 * XorBits(a / 2, b / 2)
  {
    if a == 0 && b == 0 {
      assert XorBits(0, 0) == 0;
    }
  }

  function Bit(a: nat, i: nat): nat {
    if i == 0 then a % 2 else Bit(a / 2, i - 1)
  }

  // Every bit of the exclusive or is one when one of the two bits is.
  lemma {:induction false} XorBit(a: nat, b: nat, i: nat)
    ensures Bit(XorBits(a, b), i) == if Bit(a, i) != Bit(b, i) then 1 else 0
  {
    hide XorBits;
    XorUnfolds(a, b);
    LowBit(a, b, XorBits(a / 2, b / 2));
    if i > 0 {
      XorBit(a / 2, b / 2, i - 1);
    }
  }

  lemma LowBit(a: nat, b: nat, rest: nat)
    ensures var x := (a + b) % 2 + 2 * rest;
            x / 2 == rest && x % 2 == if a % 2 != b % 2 then 1 else 0
  {
  }

  // What it does it takes back.
  lemma {:induction false} XorBack(a: nat, b: nat)
    ensures XorBits(XorBits(a, b), b) == a
    decreases a + b
  {
    hide XorBits;
    var c, d := a % 2, b % 2;
    XorStep(a / 2, b / 2, c, d);
    XorStep(XorBits(a / 2, b / 2), b / 2, if c == d then 0 else 1, d);
    if a != 0 || b != 0 {
      XorBack(a / 2, b / 2);
    } else {
      XorUnfolds(0, 0);
    }
  }

  // ---------------------------------------------------------------------------------------------
  // Ways to compute them
  // ---------------------------------------------------------------------------------------------

  // A hexadecimal digit, by its bits.
  datatype Hex = Hex(b8: bool, b4: bool, b2: bool, b1: bool)

  function One(b: bool): (x: nat)
    ensures x < 2
  {
    if b then 1 else 0
  }

  function Digit(h: Hex): (d: nat)
    ensures d < 16
  {
    (if h.b8 then 8 else 0) + (if h.b4 then 4 else 0) + (if h.b2 then 2 else 0) + if h.b1 then 1 else 0
  }

  function XorHex(x: Hex, y: Hex): Hex {
    Hex(x.b8 != y.b8, x.b4 != y.b4, x.b2 != y.b2, x.b1 != y.b1)
  }

  lemma XorDigit(a: nat, b: nat, x: Hex, y: Hex)
    ensures XorBits(16 * a + Digit(x), 16 * b + Digit(y)) == 16 * XorBits(a, b) + Digit(XorHex(x, y))
  {
    hide XorBits;
    XorStep(a, b, One(x.b8), One(y.b8));
    XorStep(2 * a + One(x.b8), 2 * b + One(y.b8), One(x.b4), One(y.b4));
    XorStep(4 * a + 2 * One(x.b8) + One(x.b4), 4 * b + 2 * One(y.b8) + One(y.b4), One(x.b2), One(y.b2));
    XorStep(8 * a + 4 * One(x.b8) + 2 * One(x.b4) + One(x.b2), 8 * b + 4 * One(y.b8) + 2 * One(y.b4) + One(y.b2),
            One(x.b1), One(y.b1));
  }

  // Four such digits.
  datatype Quad = Quad(d3: Hex, d2: Hex, d1: Hex, d0: Hex)

  function Digits(q: Quad): (d: nat)
    ensures d < 0x1_0000
  {
    4096 * Digit(q.d3) + 256 * Digit(q.d2) + 16 * Digit(q.d1) + Digit(q.d0)
  }

  function XorQuad(x: Quad, y: Quad): Quad {
    Quad(XorHex(x.d3, y.d3), XorHex(x.d2, y.d2), XorHex(x.d1, y.d1), XorHex(x.d0, y.d0))
  }

  lemma XorDigits(a: nat, b: nat, x: Quad, y: Quad)
    ensures XorBits(65536 * a + Digits(x), 65536 * b + Digits(y)) == 65536 * XorBits(a, b) + Digits(XorQuad(x, y))
  {
    hide XorBits, XorHex, Digit;
    XorDigit(a, b, x.d3, y.d3);
    XorDigit(16 * a + Digit(x.d3), 16 * b + Digit(y.d3), x.d2, y.d2);
    XorDigit(256 * a + 16 * Digit(x.d3) + Digit(x.d2), 256 * b + 16 * Digit(y.d3) + Digit(y.d2), x.d1, y.d1);
    XorDigit(4096 * a + 256 * Digit(x.d3) + 16 * Digit(x.d2) + Digit(x.d1),
             4096 * b + 256 * Digit(y.d3) + 16 * Digit(y.d2) + Digit(y.d1), x.d0, y.d0);
  }

  // A word in sixteen such digits.
  datatype Word = Word(q3: Quad, q2: Quad, q1: Quad, q0: Quad)

  function Value(w: Word): nat {
    0x1_0000_0000_0000 * Digits(w.q3) + 0x1_0000_0000 * Digits(w.q2) + 0x1_0000 * Digits(w.q1) + Digits(w.q0)
  }

  function XorWord(x: Word, y: Word): Word {
    Word(XorQuad(x.q3, y.q3), XorQuad(x.q2, y.q2), XorQuad(x.q1, y.q1), XorQuad(x.q0, y.q0))
  }

  // The exclusive or, digit by digit.
  lemma XorByDigits(x: Word, y: Word)
    ensures Value(x) < U64 && Value(y) < U64 && Xor(Value(x), Value(y)) == Value(XorWord(x, y))
  {
    hide XorBits, XorQuad, Digits, Xor;
    XorUnfolds(0, 0);
    XorDigits(0, 0, x.q3, y.q3);
    XorDigits(Digits(x.q3), Digits(y.q3), x.q2, y.q2);
    XorDigits(0x1_0000 * Digits(x.q3) + Digits(x.q2), 0x1_0000 * Digits(y.q3) + Digits(y.q2), x.q1, y.q1);
    XorDigits(0x1_0000_0000 * Digits(x.q3) + 0x1_0000 * Digits(x.q2) + Digits(x.q1),
              0x1_0000_0000 * Digits(y.q3) + 0x1_0000 * Digits(y.q2) + Digits(y.q1), x.q0, y.q0);
    ValueIsWord(x);
    ValueIsWord(y);
    XorIsExact(Value(x), Value(y));
  }

  lemma ValueIsWord(w: Word)
    ensures Value(w) < U64
  {
    hide Digits;
  }
}
