// XXH64, in one shot and over packets, little-endian.
module XxHash {
  import opened Bytes
  import opened Memory
  import opened Packing
  import opened Words

  const PRIME64_1: u64 := 11400714785074694791
  const PRIME64_2: u64 := 14029467366897019727
  const PRIME64_3: u64 := 1609587929392839161
  const PRIME64_4: u64 := 9650029242287828579
  const PRIME64_5: u64 := 2870177450012600261

  const STRIPE: nat := 32

  // Little-endian words of the input.
  function ReadLE32(w: Buffer): (r: u64)
    requires |w| >= 4
    ensures r < 0x1_0000_0000
  {
    w[0] as int + 0x100 * (w[1] as int) + 0x1_0000 * (w[2] as int) + 0x100_0000 * (w[3] as int)
  }

  function ReadLE64(w: Buffer): u64
    requires |w| >= 8
  {
    ReadLE32(w[..4]) + 0x1_0000_0000 * ReadLE32(w[4..8])
  }

  // ---------------------------------------------------------------------------------------------
  // The hash
  // ---------------------------------------------------------------------------------------------

  function Round(acc: u64, word: u64): u64 {
    Mul(Rotl(Plus(acc, Mul(word, PRIME64_2)), 31), PRIME64_1)
  }

  function MergeRound(h: u64, v: u64): u64 {
    Plus(Mul(Xor(h, Mul(Rotl(Mul(v, PRIME64_2), 31), PRIME64_1)), PRIME64_1), PRIME64_4)
  }

  // The value accumulator `lane` starts with.
  function Initial(seed: u64, lane: nat): u64 {
    if lane == 0 then Plus(Plus(seed, PRIME64_1), PRIME64_2)
    else if lane == 1 then Plus(seed, PRIME64_2)
    else if lane == 2 then seed
    else Minus(seed, PRIME64_1)
  }

  // Accumulator `lane` after the first n stripes of s: it has taken the lane's word of each.
  function Lane(seed: u64, s: Buffer, lane: nat, n: nat): u64
    requires lane < 4 && STRIPE * n <= |s|
  {
    if n == 0 then Initial(seed, lane)
    else
      var at := STRIPE * (n - 1) + 8 * lane;
      Round(Lane(seed, s, lane, n - 1), ReadLE64(s[at..at + 8]))
  }

  function Converge(v1: u64, v2: u64, v3: u64, v4: u64): u64 {
    var h := Plus(Plus(Plus(Rotl(v1, 1), Rotl(v2, 7)), Rotl(v3, 12)), Rotl(v4, 18));
    MergeRound(MergeRound(MergeRound(MergeRound(h, v1), v2), v3), v4)
  }

  function TailWord(h: u64, word: u64): u64 {
    Plus(Mul(Rotl(Xor(h, Round(0, word)), 27), PRIME64_1), PRIME64_4)
  }

  function TailHalf(h: u64, half: u64): u64 {
    Plus(Mul(Rotl(Xor(h, Mul(half, PRIME64_1)), 23), PRIME64_2), PRIME64_3)
  }

  function TailByte(h: u64, b: byte): u64 {
    Mul(Rotl(Xor(h, Mul(b, PRIME64_5)), 11), PRIME64_1)
  }

  // What is left after the stripes: words, then half a word, then bytes.
  function Tail(h: u64, s: Buffer): u64
    decreases |s|
  {
    if |s| >= 8 then Tail(TailWord(h, ReadLE64(s[..8])), s[8..])
    else if |s| >= 4 then Tail(TailHalf(h, ReadLE32(s[..4])), s[4..])
    else if |s| > 0 then Tail(TailByte(h, s[0]), s[1..])
    else h
  }

  function Avalanche(h: u64): u64 {
    var h1 := Mul(Xor(h, ShiftRight(h, 33)), PRIME64_2);
    var h2 := Mul(Xor(h1, ShiftRight(h1, 29)), PRIME64_3);
    Xor(h2, ShiftRight(h2, 32))
  }

  // The hash of s.
  function Hash(s: Buffer, seed: u64): u64
    requires |s| < U64
  {
    var n := |s| / STRIPE;
    var h := if |s| >= STRIPE
             then Converge(Lane(seed, s, 0, n), Lane(seed, s, 1, n), Lane(seed, s, 2, n), Lane(seed, s, 3, n))
             else Plus(seed, PRIME64_5);
    Avalanche(Tail(Plus(h, |s|), s[STRIPE * n..]))
  }

  // The stripes before the end decide the accumulators.
  lemma {:induction false} LaneOfPrefix(seed: u64, s: Buffer, t: Buffer, lane: nat, n: nat)
    requires lane < 4 && STRIPE * n <= |s| && s <= t
    ensures Lane(seed, t, lane, n) == Lane(seed, s, lane, n)
  {
    hide Round, ReadLE64, Initial;
    if n > 0 {
      LaneOfPrefix(seed, s, t, lane, n - 1);
      var at := STRIPE * (n - 1) + 8 * lane;
      assert s[at..at + 8] == t[at..at + 8];
    }
  }

  lemma SliceOfSlice(s: Buffer, from: nat, end: nat, i: nat, j: nat)
    requires from <= end <= |s| && i <= j <= end - from
    ensures s[from..end][i..j] == s[from + i..from + j]
  {
    var a, b := s[from..end][i..j], s[from + i..from + j];
    forall k | 0 <= k < j - i ensures a[k] == b[k] {
    }
  }

  lemma LaneNext(seed: u64, s: Buffer, lane: nat, n: nat, stripe: Buffer)
    requires lane < 4 && STRIPE * (n + 1) <= |s| && stripe == s[STRIPE * n..STRIPE * (n + 1)]
    ensures Lane(seed, s, lane, n + 1) == Round(Lane(seed, s, lane, n), ReadLE64(stripe[8 * lane..8 * lane + 8]))
  {
    hide Round, ReadLE64, Initial;
    SliceOfSlice(s, STRIPE * n, STRIPE * (n + 1), 8 * lane, 8 * lane + 8);
  }

  datatype Lanes = Lanes(v1: u64, v2: u64, v3: u64, v4: u64)

  ghost function LanesAt(seed: u64, s: Buffer, n: nat): Lanes
    requires STRIPE * n <= |s|
  {
    Lanes(Lane(seed, s, 0, n), Lane(seed, s, 1, n), Lane(seed, s, 2, n), Lane(seed, s, 3, n))
  }

  lemma LanesNext(seed: u64, s: Buffer, n: nat, stripe: Buffer, v1: u64, v2: u64, v3: u64, v4: u64)
    requires STRIPE * (n + 1) <= |s| && stripe == s[STRIPE * n..STRIPE * (n + 1)]
    requires LanesAt(seed, s, n) == Lanes(v1, v2, v3, v4)
    ensures LanesAt(seed, s, n + 1)
            == Lanes(Round(v1, ReadLE64(stripe[0..8])), Round(v2, ReadLE64(stripe[8..16])),
                     Round(v3, ReadLE64(stripe[16..24])), Round(v4, ReadLE64(stripe[24..32])))
  {
    hide Round, ReadLE64, Lane;
    LaneNext(seed, s, 0, n, stripe);
    LaneNext(seed, s, 1, n, stripe);
    LaneNext(seed, s, 2, n, stripe);
    LaneNext(seed, s, 3, n, stripe);
  }

  lemma LanesOfPrefix(seed: u64, s: Buffer, t: Buffer, n: nat)
    requires STRIPE * n <= |s| && s <= t
    ensures LanesAt(seed, t, n) == LanesAt(seed, s, n)
  {
    hide Lane;
    LaneOfPrefix(seed, s, t, 0, n);
    LaneOfPrefix(seed, s, t, 1, n);
    LaneOfPrefix(seed, s, t, 2, n);
    LaneOfPrefix(seed, s, t, 3, n);
  }

  lemma LanesAtStart(seed: u64, s: Buffer)
    ensures LanesAt(seed, s, 0) == Lanes(Initial(seed, 0), Initial(seed, 1), Initial(seed, 2), Initial(seed, 3))
  {
  }

  ghost function Converged(v: Lanes): u64 {
    Converge(v.v1, v.v2, v.v3, v.v4)
  }

  // The hash from the accumulators and the rest.
  lemma HashIs(s: Buffer, seed: u64, n: nat)
    requires |s| < U64 && STRIPE * n <= |s| < STRIPE * n + STRIPE
    ensures Hash(s, seed)
            == Avalanche(Tail(Plus(if |s| >= STRIPE then Converged(LanesAt(seed, s, n))
                                   else Plus(seed, PRIME64_5), |s|),
                              s[STRIPE * n..]))
  {
    hide Lane, Converge, Avalanche, Tail, Plus;
    assert n == |s| / STRIPE;
  }

  // The loops over the rest, and the final mixing.
  method Finish(h: u64, s: Buffer) returns (r: u64)
    ensures r == Avalanche(Tail(h, s))
  {
    hide ReadLE64, ReadLE32, TailWord, TailHalf, TailByte, Avalanche;
    r := h;
    var p := 0;
    while p + 8 <= |s|
      invariant 0 <= p <= |s| && Tail(r, s[p..]) == Tail(h, s)
    {
      assert s[p..][..8] == s[p..p + 8] && s[p..][8..] == s[p + 8..];
      r := TailWord(r, ReadLE64(s[p..p + 8]));
      p := p + 8;
    }
    if p + 4 <= |s| {
      assert s[p..][..4] == s[p..p + 4] && s[p..][4..] == s[p + 4..];
      r := TailHalf(r, ReadLE32(s[p..p + 4]));
      p := p + 4;
    }
    while p < |s|
      invariant 0 <= p <= |s| < p + 4 && Tail(r, s[p..]) == Tail(h, s)
    {
      assert s[p..][0] == s[p] && s[p..][1..] == s[p + 1..];
      r := TailByte(r, s[p]);
      p := p + 1;
    }
    assert s[p..] == [];
    r := Avalanche(r);
  }

  // XXH64.
  method XXH64(input: Buffer, seed: u64) returns (h: u64)
    requires |input| < U64
    ensures h == Hash(input, seed)
  {
    hide Round, ReadLE64, Converge, Tail, Avalanche, Lane, Initial, LanesAt, Hash, Plus;
    var p := 0;
    ghost var n := 0;
    if |input| >= STRIPE {
      var v1, v2, v3, v4 := Initial(seed, 0), Initial(seed, 1), Initial(seed, 2), Initial(seed, 3);
      LanesAtStart(seed, input);
      while p <= |input| - STRIPE
        invariant p == STRIPE * n <= |input|
        invariant LanesAt(seed, input, n) == Lanes(v1, v2, v3, v4)
      {
        ghost var stripe := input[p..p + STRIPE];
        LanesNext(seed, input, n, stripe, v1, v2, v3, v4);
        WordsOfStripe(input, p);
        v1, p := TakeWord(v1, input, p);
        v2, p := TakeWord(v2, input, p);
        v3, p := TakeWord(v3, input, p);
        v4, p := TakeWord(v4, input, p);
        n := n + 1;
      }
      h := Converge(v1, v2, v3, v4);
    } else {
      h := Plus(seed, PRIME64_5);
    }
    HashIs(input, seed, n);
    h := Plus(h, |input|);
    h := Finish(h, input[p..]);
  }

  lemma WordsOfStripe(s: Buffer, p: nat)
    requires p + STRIPE <= |s|
    ensures var stripe := s[p..p + STRIPE];
            && stripe[0..8] == s[p..p + 8] && stripe[8..16] == s[p + 8..p + 16]
            && stripe[16..24] == s[p + 16..p + 24] && stripe[24..32] == s[p + 24..p + 32]
  {
    SliceOfSlice(s, p, p + STRIPE, 0, 8);
    SliceOfSlice(s, p, p + STRIPE, 8, 16);
    SliceOfSlice(s, p, p + STRIPE, 16, 24);
    SliceOfSlice(s, p, p + STRIPE, 24, 32);
  }

  // One accumulator takes a word, and the position moves on.
  method TakeWord(v: u64, s: Buffer, p: nat) returns (v': u64, p': nat)
    requires p + 8 <= |s|
    ensures v' == Round(v, ReadLE64(s[p..p + 8])) && p' == p + 8
  {
    hide Plus, Mul, Rotl, ReadLE64;
    v' := Plus(v, Mul(ReadLE64(s[p..p + 8]), PRIME64_2));
    v' := Rotl(v', 31);
    v' := Mul(v', PRIME64_1);
    p' := p + 8;
  }

  // ---------------------------------------------------------------------------------------------
  // Packets
  // ---------------------------------------------------------------------------------------------

  // The accumulators after the whole stripes of what was fed, and what is over.
  ghost predicate Follows(seed: u64, fed: Buffer, v: Lanes, rest: Buffer) {
    var n := |fed| / STRIPE;
    LanesAt(seed, fed, n) == v && rest == fed[STRIPE * n..]
  }

  // Stripes up to n of the data are in the accumulators.
  ghost predicate Taken(seed: u64, fed: Buffer, n: nat, v: Lanes) {
    STRIPE * n <= |fed| && LanesAt(seed, fed, n) == v
  }

  lemma FollowsTaken(seed: u64, fed: Buffer, more: Buffer, v: Lanes, rest: Buffer)
    requires Follows(seed, fed, v, rest)
    ensures Taken(seed, fed + more, |fed| / STRIPE, v) && |rest| == |fed| % STRIPE
    ensures (fed + more)[STRIPE * (|fed| / STRIPE)..] == rest + more
  {
    hide Lane, LanesAt;
    var n := |fed| / STRIPE;
    LanesOfPrefix(seed, fed, fed + more, n);
    assert (fed + more)[STRIPE * n..] == fed[STRIPE * n..] + more;
  }

  lemma TakenFollows(seed: u64, fed: Buffer, n: nat, v: Lanes, rest: Buffer)
    requires Taken(seed, fed, n, v) && rest == fed[STRIPE * n..] && |rest| < STRIPE
    ensures Follows(seed, fed, v, rest)
  {
    hide Lane, LanesAt;
    assert n == |fed| / STRIPE;
  }

  // One more stripe, from the start of what is left.
  lemma StripeTaken(seed: u64, fed: Buffer, n: nat, v1: u64, v2: u64, v3: u64, v4: u64, stripe: Buffer)
    requires Taken(seed, fed, n, Lanes(v1, v2, v3, v4)) && |stripe| == STRIPE && stripe <= fed[STRIPE * n..]
    ensures Taken(seed, fed, n + 1, Lanes(Round(v1, ReadLE64(stripe[0..8])), Round(v2, ReadLE64(stripe[8..16])),
                                          Round(v3, ReadLE64(stripe[16..24])), Round(v4, ReadLE64(stripe[24..32]))))
  {
    hide Lane, LanesAt, Round, ReadLE64;
    assert stripe == fed[STRIPE * n..STRIPE * (n + 1)];
    LanesNext(seed, fed, n, stripe, v1, v2, v3, v4);
  }

  class State {
    var seed: u64
    var v1: u64
    var v2: u64
    var v3: u64
    var v4: u64
    var totalLen: nat
    const mem: array<byte>
    var memsize: nat
    ghost var fed: Buffer          // all the packets, one after another

    ghost predicate Valid()
      reads this, mem
    {
      && mem.Length == STRIPE && memsize < STRIPE && totalLen == |fed| < U64
      && Follows(seed, fed, Lanes(v1, v2, v3, v4), mem[..memsize])
    }

    // XXH64_reset.
    constructor (seed: u64)
      ensures Valid() && fed == [] && this.seed == seed && fresh(mem)
    {
      hide Initial;
      this.seed := seed;
      v1, v2, v3, v4 := Initial(seed, 0), Initial(seed, 1), Initial(seed, 2), Initial(seed, 3);
      totalLen, memsize, fed := 0, 0, [];
      mem := new byte[STRIPE](_ => 0);
      LanesAtStart(seed, []);
    }

    // The four accumulators take a stripe.
    method TakeStripe(stripe: Buffer, ghost all: Buffer, ghost n: nat)
      requires |stripe| == STRIPE && Taken(seed, all, n, Lanes(v1, v2, v3, v4)) && stripe <= all[STRIPE * n..]
      modifies `v1, `v2, `v3, `v4
      ensures Taken(seed, all, n + 1, Lanes(v1, v2, v3, v4))
    {
      hide Taken, Round, ReadLE64;
      StripeTaken(seed, all, n, v1, v2, v3, v4, stripe);
      var p;
      v1, p := TakeWord(v1, stripe, 0);
      v2, p := TakeWord(v2, stripe, p);
      v3, p := TakeWord(v3, stripe, p);
      v4, p := TakeWord(v4, stripe, p);
    }

    // The buffer is filled up with the start of the packet, and its stripe taken.
    method FillUp(input: Buffer, ghost all: Buffer, ghost n: nat) returns (p: nat)
      requires mem.Length == STRIPE && 0 < memsize < STRIPE <= memsize + |input|
      requires Taken(seed, all, n, Lanes(v1, v2, v3, v4)) && STRIPE * n <= |all|
               && all[STRIPE * n..] == mem[..memsize] + input
      modifies `v1, `v2, `v3, `v4, `memsize, mem
      ensures p <= |input| && memsize == 0
      ensures Taken(seed, all, n + 1, Lanes(v1, v2, v3, v4)) && STRIPE * (n + 1) <= |all|
              && all[STRIPE * (n + 1)..] == input[p..]
    {
      hide Taken;
      ghost var rest := mem[..memsize] + input;
      p := STRIPE - memsize;
      Memcpy(mem, memsize, input[..p]);
      assert mem[..] == rest[..STRIPE] && rest[STRIPE..] == input[p..];
      TakeStripe(mem[..], all, n);
      DropStripe(all, n, rest);
      memsize := 0;
    }

    // The whole stripes of the packet are taken.
    method TakeStripes(input: Buffer, from: nat, ghost all: Buffer, ghost startN: nat) returns (p: nat, ghost n: nat)
      requires from <= |input| && STRIPE * startN <= |all| && all[STRIPE * startN..] == input[from..]
      requires Taken(seed, all, startN, Lanes(v1, v2, v3, v4))
      modifies `v1, `v2, `v3, `v4
      ensures from <= p <= |input| < p + STRIPE
      ensures Taken(seed, all, n, Lanes(v1, v2, v3, v4)) && STRIPE * n <= |all| && all[STRIPE * n..] == input[p..]
    {
      hide Taken;
      p, n := from, startN;
      while p + STRIPE <= |input|
        invariant from <= p <= |input|
        invariant Taken(seed, all, n, Lanes(v1, v2, v3, v4)) && STRIPE * n <= |all| && all[STRIPE * n..] == input[p..]
      {
        assert input[p..p + STRIPE] <= input[p..];
        TakeStripe(input[p..p + STRIPE], all, n);
        DropStripe(all, n, input[p..]);
        assert input[p..][STRIPE..] == input[p + STRIPE..];
        p := p + STRIPE;
        n := n + 1;
      }
    }

    // XXH64_update: the packet fills the buffer up, whole stripes go into the accumulators, and what is over stays.
    method Update(input: Buffer)
      requires Valid() && |fed| + |input| < U64
      modifies this, mem
      ensures Valid() && fed == old(fed) + input && seed == old(seed)
    {
      hide Follows, Taken;
      ghost var all := fed + input;
      ghost var n: nat := |fed| / STRIPE;
      FollowsTaken(seed, fed, input, Lanes(v1, v2, v3, v4), mem[..memsize]);
      totalLen := totalLen + |input|;
      fed := all;
      if memsize + |input| < STRIPE {
        Memcpy(mem, memsize, input);
        memsize := memsize + |input|;
        TakenFollows(seed, all, n, Lanes(v1, v2, v3, v4), mem[..memsize]);
        return;
      }
      var p: nat := 0;
      if memsize > 0 {
        p := FillUp(input, all, n);
        n := n + 1;
      } else {
        assert mem[..memsize] + input == input[p..];
      }
      p, n := TakeStripes(input, p, all, n);
      if p < |input| {
        Memcpy(mem, 0, input[p..]);
        memsize := |input| - p;
      }
      assert mem[..memsize] == input[p..];
      TakenFollows(seed, all, n, Lanes(v1, v2, v3, v4), mem[..memsize]);
    }

    // XXH64_digest.
    method Digest() returns (h: u64)
      requires Valid()
      ensures h == Hash(fed, seed)
    {
      hide Round, ReadLE64, Converge, Tail, Avalanche, Lane, Initial, LanesAt, Hash, Plus;
      if totalLen >= STRIPE {
        h := Converge(v1, v2, v3, v4);
      } else {
        h := Plus(seed, PRIME64_5);
      }
      HashIs(fed, seed, |fed| / STRIPE);
      h := Plus(h, totalLen);
      h := Finish(h, mem[..memsize]);
    }
  }

  lemma DropStripe(all: Buffer, n: nat, rest: Buffer)
    requires STRIPE * n <= |all| && all[STRIPE * n..] == rest && |rest| >= STRIPE
    ensures STRIPE * (n + 1) <= |all| && all[STRIPE * (n + 1)..] == rest[STRIPE..]
  {
  }

  // However the input is cut into packets, feeding them one by one gives the hash of all of it, as one shot does.
  method HashPackets(packets: seq<Buffer>, seed: u64) returns (h: u64)
    requires |Flat(packets)| < U64
    ensures h == Hash(Flat(packets), seed)
  {
    hide Hash, Flat, Follows;
    var state := new State(seed);
    assert packets[..0] == [];
    FlatOfNone();
    var i := 0;
    while i < |packets|
      invariant 0 <= i <= |packets| && fresh(state) && fresh(state.mem)
      invariant state.Valid() && state.fed == Flat(packets[..i]) && state.seed == seed
    {
      assert packets[..i + 1] == packets[..i] + [packets[i]];
      FlatSnoc(packets[..i], packets[i]);
      FlatSplit(packets, i + 1);
      state.Update(packets[i]);
      i := i + 1;
    }
    assert packets[..i] == packets;
    h := state.Digest();
  }

  lemma FlatOfNone()
    ensures Flat([]) == []
  {
  }
}
