// The rolling fingerprints of the N-transform: 64-byte windows, base 257, 64-bit arithmetic.
module NTransform {
  import opened Bytes
  import opened RollingHash

  const BASE: nat := 257
  const WINDOW: nat := 64
  const U64: nat := 0x1_0000_0000_0000_0000

  // A term of the first window: one more digit, and one power less to come.
  lemma Filled(chunk: Buffer, cnt: nat, fp: int, power: int)
    requires cnt < WINDOW && cnt < |chunk|
    requires Congruent(fp, Poly(chunk, 0, cnt, BASE) * Pow(BASE, WINDOW - cnt), U64)
    requires Congruent(power, Pow(BASE, WINDOW - cnt - 1), U64)
    ensures Congruent(fp + chunk[cnt] * power, Poly(chunk, 0, cnt + 1, BASE) * Pow(BASE, WINDOW - cnt - 1), U64)
  {
    hide Congruent;
    var p, q, c := Poly(chunk, 0, cnt, BASE), Pow(BASE, WINDOW - cnt - 1), chunk[cnt];
    CongruentTimes(power, q, c, U64);
    CongruentSum(fp, p * Pow(BASE, WINDOW - cnt), power * c, q * c, U64);
    OneDigit(p, q, c);
    assert power * c == c * power;
  }

  lemma OneDigit(p: int, q: int, c: int)
    ensures p * (q * 257) + q * c == (p * 257 + c) * q
  {
  }

  // The window moves on: the front byte is removed through the table, the next byte added.
  lemma Moved(chunk: Buffer, j: nat, fp: int, remove: int)
    requires j + WINDOW < |chunk| && Congruent(fp, Poly(chunk, j, WINDOW, BASE), U64)
    requires Congruent(remove, -(chunk[j] * Pow(BASE, WINDOW - 1)), U64)
    ensures Congruent((fp + remove) * BASE + chunk[j + WINDOW], Poly(chunk, j + 1, WINDOW, BASE), U64)
  {
    hide Congruent, Poly, Pow;
    var p, r, c: int := Poly(chunk, j, WINDOW, BASE), -(chunk[j] * Pow(BASE, WINDOW - 1)), chunk[j + WINDOW];
    CongruentSum(fp, p, remove, r, U64);
    CongruentTimes(fp + remove, p + r, BASE, U64);
    CongruentSame(c, U64);
    CongruentSum((fp + remove) * BASE, (p + r) * BASE, c, c, U64);
    Slide(chunk, j, WINDOW, BASE);
  }

  lemma NextPower(power: int, n: nat)
    requires Congruent(power, Pow(BASE, n), U64)
    ensures Congruent(power * BASE, Pow(BASE, n + 1), U64)
  {
    hide Congruent;
    CongruentTimes(power, Pow(BASE, n), BASE, U64);
  }

  // What the table removes for byte i is the negative of its first digit.
  lemma Negative(i: nat, product: int, power: int, n: nat)
    requires Congruent(power, Pow(BASE, n), U64) && product == i * power % U64
    ensures Congruent(if product != 0 then U64 - product else 0, -(i * Pow(BASE, n)), U64)
  {
    hide Congruent, Pow;
    var x: int := i * Pow(BASE, n);
    CongruentTimes(power, Pow(BASE, n), i, U64);
    assert power * i == i * power && Pow(BASE, n) * i == x;
    Reduced(i * power, U64);
    CongruentThrough(product, i * power, x, U64);
    CongruentBy(U64, 0, U64, 1);
    CongruentSame(0, U64);
    CongruentSum(if product != 0 then U64 else 0, 0, product, x, U64);
  }

  class FeatureGen {
    const powerLUT: array<int>
    const removeLUT: array<int>

    ghost predicate Tables()
      reads powerLUT, removeLUT
    {
      && powerLUT.Length == WINDOW && removeLUT.Length == 256
      && (forall i :: 0 <= i < WINDOW ==> Congruent(powerLUT[i], Pow(BASE, i), U64))
      && (forall v :: 0 <= v < 256 ==> Congruent(removeLUT[v], -(v * Pow(BASE, WINDOW - 1)), U64))
    }

    constructor ()
      ensures Tables() && fresh(powerLUT) && fresh(removeLUT)
    {
      hide Congruent, Pow;
      powerLUT, removeLUT := new int[WINDOW](_ => 0), new int[256](_ => 0);
      new;
      FillPowers();
      FillRemovals();
    }

    method FillPowers()
      requires powerLUT.Length == WINDOW
      modifies powerLUT
      ensures forall k :: 0 <= k < WINDOW ==> Congruent(powerLUT[k], Pow(BASE, k), U64)
    {
      hide Congruent, Pow;
      powerLUT[0] := 1;
      PowerOfNone();
      var i := 1;
      while i < WINDOW
        invariant 1 <= i <= WINDOW
        invariant forall k :: 0 <= k < i ==> Congruent(powerLUT[k], Pow(BASE, k), U64)
      {
        NextPower(powerLUT[i - 1], i - 1);
        Reduced(powerLUT[i - 1] * BASE, U64);
        CongruentThrough(powerLUT[i - 1] * BASE % U64, powerLUT[i - 1] * BASE, Pow(BASE, i), U64);
        powerLUT[i] := powerLUT[i - 1] * BASE % U64;
        i := i + 1;
      }
    }

    method FillRemovals()
      requires powerLUT.Length == WINDOW && removeLUT.Length == 256 && powerLUT != removeLUT
      requires Congruent(powerLUT[WINDOW - 1], Pow(BASE, WINDOW - 1), U64)
      modifies removeLUT
      ensures forall v :: 0 <= v < 256 ==> Congruent(removeLUT[v], -(v * Pow(BASE, WINDOW - 1)), U64)
    {
      hide Congruent, Pow;
      var i := 0;
      while i < 256
        invariant 0 <= i <= 256
        invariant forall v :: 0 <= v < i ==> Congruent(removeLUT[v], -(v * Pow(BASE, WINDOW - 1)), U64)
      {
        Negative(i, i * powerLUT[WINDOW - 1] % U64, powerLUT[WINDOW - 1], WINDOW - 1);
        removeLUT[i] := i * powerLUT[WINDOW - 1] % U64;
        if removeLUT[i] != 0 {
          removeLUT[i] := (U64 - 1 - removeLUT[i] + 1) % U64;
        }
        i := i + 1;
      }
    }

    // The fingerprints of the windows of a chunk, the last window excepted: each is pushed when the byte after its
    // window comes in.
    method Fingerprints(chunk: Buffer) returns (fpList: seq<nat>)
      requires Tables()
      ensures |fpList| == if |chunk| > WINDOW then |chunk| - WINDOW else 0
      ensures forall j :: 0 <= j < |fpList| ==> fpList[j] == Poly(chunk, j, WINDOW, BASE) % U64
    {
      hide Congruent, Poly, Pow;
      fpList := [];
      var winFp: nat, cnt: nat := 0, 0;
      StartsEmpty(chunk);
      while cnt < |chunk|
        invariant 0 <= cnt <= |chunk| && winFp < U64
        invariant |fpList| == if cnt > WINDOW then cnt - WINDOW else 0
        invariant cnt <= WINDOW ==> Congruent(winFp, Poly(chunk, 0, cnt, BASE) * Pow(BASE, WINDOW - cnt), U64)
        invariant cnt >= WINDOW ==> Congruent(winFp, Poly(chunk, cnt - WINDOW, WINDOW, BASE), U64)
        invariant forall j :: 0 <= j < |fpList| ==> fpList[j] == Poly(chunk, j, WINDOW, BASE) % U64
      {
        if cnt < WINDOW {
          var next := winFp + chunk[cnt] * powerLUT[WINDOW - cnt - 1];
          Filled(chunk, cnt, winFp, powerLUT[WINDOW - cnt - 1]);
          Reduced(next, U64);
          CongruentThrough(next % U64, next, Poly(chunk, 0, cnt + 1, BASE) * Pow(BASE, WINDOW - cnt - 1), U64);
          winFp := next % U64;
          WindowFull(chunk, cnt + 1);
          cnt := cnt + 1;
          continue;
        }
        IsReduced(winFp, Poly(chunk, cnt - WINDOW, WINDOW, BASE), U64);
        fpList := fpList + [winFp];
        var v := chunk[cnt - WINDOW];
        var next := (winFp + removeLUT[v]) * BASE + chunk[cnt];
        Moved(chunk, cnt - WINDOW, winFp, removeLUT[v]);
        Reduced(next, U64);
        CongruentThrough(next % U64, next, Poly(chunk, cnt - WINDOW + 1, WINDOW, BASE), U64);
        winFp := next % U64;
        cnt := cnt + 1;
      }
    }
  }

  lemma PowerOfNone()
    ensures Congruent(1, Pow(BASE, 0), U64)
  {
    CongruentSame(1, U64);
  }

  lemma StartsEmpty(chunk: Buffer)
    ensures Congruent(0, Poly(chunk, 0, 0, BASE) * Pow(BASE, WINDOW), U64)
  {
    CongruentSame(0, U64);
  }

  lemma WindowFull(chunk: Buffer, cnt: nat)
    requires cnt <= |chunk|
    ensures cnt == WINDOW ==> Poly(chunk, 0, cnt, BASE) * Pow(BASE, WINDOW - cnt) == Poly(chunk, 0, WINDOW, BASE)
  {
  }
}
