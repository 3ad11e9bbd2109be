// Polynomial hashes of a sliding window: the N-transform's, modulo 2^64, and Finesse's, modulo a prime.
module RollingHash {
  import opened Bytes

  function Pow(b: nat, n: nat): nat {
    if n == 0 then 1 else Pow(b, n - 1) * b
  }

  // The value of the w bytes from i, read as digits of a number to base b.
  function Poly(s: Buffer, i: nat, w: nat, b: nat): nat
    requires i + w <= |s|
  {
    if w == 0 then 0 else Poly(s, i, w - 1, b) * b + s[i + w - 1]
  }

  lemma {:induction false} FirstDigit(s: Buffer, i: nat, w: nat, b: nat)
    requires 0 < w && i + w <= |s|
    ensures Poly(s, i, w, b) == s[i] * Pow(b, w - 1) + Poly(s, i + 1, w - 1, b)
  {
    if w > 1 {
      FirstDigit(s, i, w - 1, b);
      Distribute(s[i], Pow(b, w - 2), Poly(s, i + 1, w - 2, b), b);
    } else {
      assert Pow(b, 0) == 1 && Poly(s, i, 0, b) == 0;
    }
  }

  lemma Distribute(d: nat, p: nat, q: nat, b: nat)
    ensures (d * p + q) * b == d * (p * b) + q * b
  {
  }

  // The window moves on by one byte.
  lemma Slide(s: Buffer, i: nat, w: nat, b: nat)
    requires 0 < w && i + w < |s|
    ensures Poly(s, i, w, b) >= s[i] * Pow(b, w - 1)
    ensures Poly(s, i + 1, w, b) == (Poly(s, i, w, b) - s[i] * Pow(b, w - 1)) * b + s[i + w]
  {
    FirstDigit(s, i, w, b);
  }

  // x and y differ by a multiple of m.
  ghost predicate Congruent(x: int, y: int, m: nat) {
    exists k: int :: Times(k, m) == x - y
  }

  ghost function Times(k: int, m: nat): int {
    k * m
  }

  lemma CongruentBy(x: int, y: int, m: nat, k: int)
    requires x - y == k * m
    ensures Congruent(x, y, m)
  {
    assert Times(k, m) == x - y;
  }

  lemma CongruentSum(x: int, x': int, y: int, y': int, m: nat)
    requires Congruent(x, x', m) && Congruent(y, y', m)
    ensures Congruent(x + y, x' + y', m) && Congruent(x - y, x' - y', m)
  {
    var k :| Times(k, m) == x - x';
    var l :| Times(l, m) == y - y';
    assert (k + l) * m == k * m + l * m && (k - l) * m == k * m - l * m;
    CongruentBy(x + y, x' + y', m, k + l);
    CongruentBy(x - y, x' - y', m, k - l);
  }

  lemma CongruentTimes(x: int, x': int, b: int, m: nat)
    requires Congruent(x, x', m)
    ensures Congruent(x * b, x' * b, m)
  {
    var k :| Times(k, m) == x - x';
    TimesTwice(k, m, b, x, x');
    CongruentBy(x * b, x' * b, m, k * b);
  }

  lemma TimesTwice(k: int, m: int, b: int, x: int, x': int)
    requires k * m == x - x'
    ensures k * b * m == x * b - x' * b
  {
    assert k * b * m == k * m * b;
    assert (x - x') * b == x * b - x' * b;
  }

  lemma CongruentSame(x: int, m: nat)
    ensures Congruent(x, x, m)
  {
    CongruentBy(x, x, m, 0);
  }

  lemma CongruentThrough(x: int, y: int, z: int, m: nat)
    requires Congruent(x, y, m) && Congruent(y, z, m)
    ensures Congruent(x, z, m)
  {
    var k :| Times(k, m) == x - y;
    var l :| Times(l, m) == y - z;
    assert (k + l) * m == k * m + l * m;
    CongruentBy(x, z, m, k + l);
  }

  // Within one residue system, congruent numbers are the same.
  lemma CongruentSmall(x: int, y: int, m: nat)
    requires Congruent(x, y, m) && 0 <= x < m && 0 <= y < m
    ensures x == y
  {
    var k :| Times(k, m) == x - y;
    assert (-k) * m == -(k * m);
    if k >= 1 {
      AtLeast(k, m);
    } else if k <= -1 {
      AtLeast(-k, m);
    }
  }

  lemma AtLeast(k: int, m: nat)
    requires k >= 1
    ensures k * m >= m
  {
    assert (k - 1) * m >= 0;
  }

  // A number is congruent to what it is reduced to, and a reduced one is what its congruent is reduced to.
  lemma Reduced(x: int, m: nat)
    requires m > 0
    ensures 0 <= x % m < m && Congruent(x % m, x, m) && Congruent(x, x % m, m)
  {
    var k := x / m;
    assert x == m * k + x % m;
    assert m * k == k * m && -(k * m) == (-k) * m;
    CongruentBy(x % m, x, m, -k);
    CongruentBy(x, x % m, m, k);
  }

  lemma IsReduced(x: nat, y: nat, m: nat)
    requires x < m && Congruent(x, y, m)
    ensures x == y % m
  {
    hide Congruent;
    Reduced(y, m);
    CongruentThrough(x, y, y % m, m);
    CongruentSmall(x, y % m, m);
  }
}
