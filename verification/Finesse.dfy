// Finesse's features: the largest rolling fingerprint of each of twelve sub-chunks; 48-byte windows, base 37, modulo a
// prime.
module Finesse {
  import opened Bytes
  import opened RollingHash

  const BASE: nat := 37
  const MOD: nat := 1000000007
  const WINDOW: nat := 48
  const FEATURE_NUM: nat := 12

  // The fingerprint of the window at j.
  function Fingerprint(s: Buffer, j: nat): (fp: nat)
    requires j + WINDOW <= |s|
    ensures fp < MOD
  {
    Poly(s, j, WINDOW, BASE) % MOD
  }

  // One more byte of a window.
  lemma Extended(s: Buffer, i: nat, w: nat, fp: int)
    requires i + w < |s| && Congruent(fp, Poly(s, i, w, BASE), MOD)
    ensures Congruent((fp * BASE + s[i + w]) % MOD, Poly(s, i, w + 1, BASE), MOD)
  {
    hide Congruent;
    CongruentTimes(fp, Poly(s, i, w, BASE), BASE, MOD);
    CongruentSame(s[i + w], MOD);
    CongruentSum(fp * BASE, Poly(s, i, w, BASE) * BASE, s[i + w], s[i + w], MOD);
    Reduced(fp * BASE + s[i + w], MOD);
    CongruentThrough((fp * BASE + s[i + w]) % MOD, fp * BASE + s[i + w], Poly(s, i, w + 1, BASE), MOD);
  }

  // The first digit is taken off, however many moduli are added after.
  lemma Shortened(s: Buffer, j: nat, fp: int, power: int, added: int)
    requires j + WINDOW <= |s| && Congruent(fp, Poly(s, j, WINDOW, BASE), MOD)
    requires Congruent(power, Pow(BASE, WINDOW - 1), MOD)
    ensures Congruent(fp - s[j] * power % MOD + added * MOD, Poly(s, j + 1, WINDOW - 1, BASE), MOD)
  {
    hide Congruent, Poly, Pow;
    var d: int := s[j];
    FirstDigit(s, j, WINDOW, BASE);
    CongruentTimes(power, Pow(BASE, WINDOW - 1), d, MOD);
    assert power * d == d * power && Pow(BASE, WINDOW - 1) * d == d * Pow(BASE, WINDOW - 1);
    Reduced(d * power, MOD);
    CongruentThrough(d * power % MOD, d * power, d * Pow(BASE, WINDOW - 1), MOD);
    CongruentSum(fp, Poly(s, j, WINDOW, BASE), d * power % MOD, d * Pow(BASE, WINDOW - 1), MOD);
    CongruentBy(added * MOD, 0, MOD, added);
    CongruentSum(fp - d * power % MOD, Poly(s, j + 1, WINDOW - 1, BASE), added * MOD, 0, MOD);
  }

  // 37 to the window size less one, reduced at every step.
  method TopPower() returns (power: nat)
    ensures power < MOD && Congruent(power, Pow(BASE, WINDOW - 1), MOD)
  {
    hide Congruent, Pow;
    power := 1;
    PowerOfNone();
    var i: nat := 0;
    while i < WINDOW - 1
      invariant 0 <= i <= WINDOW - 1 && power < MOD && Congruent(power, Pow(BASE, i), MOD)
    {
      NextPower(power, i);
      power := power * BASE;
      power := power % MOD;
      i := i + 1;
    }
  }

  lemma PowerOfNone()
    ensures Congruent(1, Pow(BASE, 0), MOD)
  {
    CongruentSame(1, MOD);
  }

  lemma NextPower(power: int, n: nat)
    requires Congruent(power, Pow(BASE, n), MOD)
    ensures Congruent(power * BASE % MOD, Pow(BASE, n + 1), MOD)
  {
    hide Congruent;
    CongruentTimes(power, Pow(BASE, n), BASE, MOD);
    Reduced(power * BASE, MOD);
    CongruentThrough(power * BASE % MOD, power * BASE, Pow(BASE, n + 1), MOD);
  }

  // The largest fingerprint of the windows starting from `from` up to `end`.
  ghost predicate Largest(s: Buffer, from: nat, end: nat, feature: nat)
    requires end + WINDOW <= |s| + 1
  {
    && (forall j :: from <= j < end ==> Fingerprint(s, j) <= feature)
    && (if from < end then exists j :: from <= j < end && Fingerprint(s, j) == feature else feature == 0)
  }

  // The fingerprint of the first window.
  method First(s: Buffer, from: nat) returns (fp: int)
    requires from + WINDOW <= |s|
    ensures 0 <= fp < MOD && Congruent(fp, Poly(s, from, WINDOW, BASE), MOD)
  {
    hide Congruent;
    fp := 0;
    CongruentSame(0, MOD);
    var j := from;
    while j < from + WINDOW
      invariant from <= j <= from + WINDOW && 0 <= fp < MOD && Congruent(fp, Poly(s, from, j - from, BASE), MOD)
    {
      Extended(s, from, j - from, fp);
      fp := fp * BASE;
      fp := fp + s[j];
      fp := fp % MOD;
      j := j + 1;
    }
  }

  // The window loses its first byte; a negative difference is brought back into range.
  method DropFirst(s: Buffer, j: nat, fp: int, power: nat) returns (r: int)
    requires j + WINDOW <= |s| && 0 <= fp < MOD && Congruent(fp, Poly(s, j, WINDOW, BASE), MOD)
    requires Congruent(power, Pow(BASE, WINDOW - 1), MOD)
    ensures 0 <= r < MOD && Congruent(r, Poly(s, j + 1, WINDOW - 1, BASE), MOD)
  {
    hide Congruent, Poly, Pow;
    ghost var product := s[j] * power % MOD;
    r := fp - s[j] * power % MOD;
    ghost var added := 0;
    while r < 0
      invariant r == fp - product + added * MOD && r + MOD > 0 && r < MOD
      decreases -r
    {
      r := r + MOD;
      added := added + 1;
    }
    Shortened(s, j, fp, power, added);
  }

  // The feature of the sub-chunk from `from` up to `end`.
  method Feature(s: Buffer, from: nat, end: nat, power: nat) returns (feature: nat)
    requires from + WINDOW <= end <= |s| && Congruent(power, Pow(BASE, WINDOW - 1), MOD)
    ensures Largest(s, from, end - WINDOW + 1, feature)
  {
    hide Congruent, Poly, Pow, Largest;
    feature := 0;
    NoneYet(s, from);
    var fp := First(s, from);
    var j := from;
    while j < end - WINDOW + 1
      invariant from <= j <= end - WINDOW + 1 && 0 <= fp < MOD && Largest(s, from, j, feature)
      invariant j < end - WINDOW + 1 ==> Congruent(fp, Poly(s, j, WINDOW, BASE), MOD)
    {
      IsReduced(fp, Poly(s, j, WINDOW, BASE), MOD);
      OneMore(s, from, j, feature);
      if fp > feature {
        feature := fp;
      }
      fp := DropFirst(s, j, fp, power);
      if j != end - WINDOW {
        Extended(s, j + 1, WINDOW - 1, fp);
        fp := fp * BASE;
        fp := fp + s[j + WINDOW];
        fp := fp % MOD;
      }
      j := j + 1;
    }
  }

  lemma NoneYet(s: Buffer, from: nat)
    requires from + WINDOW <= |s| + 1
    ensures Largest(s, from, from, 0)
  {
  }

  lemma OneMore(s: Buffer, from: nat, j: nat, feature: nat)
    requires from <= j && j + WINDOW <= |s| && Largest(s, from, j, feature)
    ensures Largest(s, from, j + 1, if Fingerprint(s, j) > feature then Fingerprint(s, j) else feature)
  {
    hide Fingerprint;
    if Fingerprint(s, j) <= feature && from < j {
      var k :| from <= k < j && Fingerprint(s, k) == feature;
      assert from <= k < j + 1;
    }
  }

  // Where sub-chunk i begins; the sub-chunks differ in size by at most one.
  function SubchunkIndex(size: nat, i: nat): nat {
    size * i / FEATURE_NUM
  }

  lemma SubchunksLongEnough(size: nat, i: nat)
    requires size >= FEATURE_NUM * WINDOW && i < FEATURE_NUM
    ensures SubchunkIndex(size, i) + WINDOW <= SubchunkIndex(size, i + 1) <= size
  {
    assert size * (i + 1) == size * i + size;
    assert size * (i + 1) <= size * FEATURE_NUM by { Monotone(size, i + 1, FEATURE_NUM); }
  }

  lemma Monotone(size: nat, i: nat, n: nat)
    requires i <= n
    ensures size * i <= size * n
  {
    assert size * (n - i) >= 0;
  }

  ghost predicate FeatureOf(s: Buffer, i: nat, feature: nat) {
    var from, end := SubchunkIndex(|s|, i), SubchunkIndex(|s|, i + 1);
    from + WINDOW <= end <= |s| && Largest(s, from, end - WINDOW + 1, feature)
  }

  // The features of a chunk whose sub-chunks are at least a window long.
  method Features(s: Buffer) returns (features: seq<nat>)
    requires |s| >= FEATURE_NUM * WINDOW
    ensures |features| == FEATURE_NUM
    ensures forall i :: 0 <= i < FEATURE_NUM ==> FeatureOf(s, i, features[i])
  {
    hide Congruent, Poly, Pow, Largest, SubchunkIndex;
    var power := TopPower();
    features := [];
    var i := 0;
    while i < FEATURE_NUM
      invariant 0 <= i <= FEATURE_NUM && |features| == i
      invariant forall k :: 0 <= k < i ==> FeatureOf(s, k, features[k])
    {
      SubchunksLongEnough(|s|, i);
      var feature := Feature(s, SubchunkIndex(|s|, i), SubchunkIndex(|s|, i + 1), power);
      features := features + [feature];
      i := i + 1;
    }
  }
}
