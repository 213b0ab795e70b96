/** The second, independently written XXH64 (src/zupt_xxh.c), with its own constants, rotation and last steps. */
module ZuptXxh {
  import opened Bytes
  import opened Lz
  import opened Xxh

  const P1: Word := 0x9E3779B185EBCA87
  const P2: Word := 0xC2B2AE3D27D4EB4F
  const P3: Word := 0x165667B19E3779F9
  const P4: Word := 0x85EBCA77C2B2AE63
  const P5: Word := 0x27D4EB2F165667C5

  function Rotl64(x: Word, r: bv7): Word
    requires 0 < r < 64
  {
    (x << r) | (x >> (64 - r))
  }

  /** A word and its upper part, exclusively. */
  function Sink(x: Word, r: bv7): Word
    requires 0 < r < 64
  {
    x ^ (x >> r)
  }

  /** `xround`, `merge` and `aval` as single expressions. */
  function XRound(a: Word, i: Word): Word {
    Times(Rotl64(Plus(a, Times(i, P2)), 31), P1)
  }

  function Merge(a: Word, v: Word): Word {
    Plus(Times(Xor(a, XRound(0, v)), P1), P4)
  }

  function Aval(h: Word): Word {
    Sink(Times(Sink(Times(Sink(h, 33), P2), 29), P3), 32)
  }

  lemma SameRotation(x: Word, r: bv7)
    requires 0 < r < 64
    ensures Rotl64(x, r) == Rotl(x, r) && Sink(x, r) == Fold(x, r)
  {
  }

  lemma SameLast(h: Word)
    ensures Aval(h) == Avalanche(h)
  {
    hide Times, Sink, Fold;
    SameRotation(h, 33);
    var h1 := Times(Fold(h, 33), P2);
    SameRotation(h1, 29);
    SameRotation(Times(Fold(h1, 29), P3), 32);
  }

  lemma SameRound(a: Word, i: Word)
    ensures XRound(a, i) == Round(a, i)
  {
    hide Times, Rotl64, Rotl, Plus;
    SameRotation(Plus(a, Times(i, P2)), 31);
  }

  lemma SameMerge(a: Word, v: Word)
    ensures Merge(a, v) == MergeRound(a, v)
  {
    hide XRound, Round, Times, Plus, Xor;
    SameRound(0, v);
  }

  /** The eight-byte step of the tail goes through a round from an accumulator of 0; that is the other
      implementation's mixing of the key. */
  lemma TailRound(h: Word, k: Word)
    ensures Plus(Times(Rotl64(Xor(h, XRound(0, k)), 27), P1), P4) == Mix8(h, k)
  {
    hide Rotl64, Rotl, Xor, Times;
    SameRotation(Plus(0, Times(k, P2)), 31);
    SameRotation(Xor(h, XRound(0, k)), 27);
    assert Plus(0, Times(k, PRIME2)) == Times(k, PRIME2);
  }

  lemma Fours(h: Word, k: Word)
    ensures Plus(Times(Rotl64(Xor(h, Times(k, P1)), 23), P2), P3) == Mix4(h, k)
  {
    hide Rotl64, Rotl, Xor, Times, Plus;
    SameRotation(Xor(h, Times(k, P1)), 23);
  }

  lemma Ones(h: Word, b: Byte)
    ensures Times(Rotl64(Xor(h, Times(b as Word, P5)), 11), P1) == Mix1(h, b)
  {
    hide Rotl64, Rotl, Xor, Times;
    SameRotation(Xor(h, Times(b as Word, P5)), 11);
  }

  /** The stripes: at least one, while a whole stripe is left before the last position. */
  method TakeAll(data: seq<Byte>, seed: Word) returns (l: Lanes, p: nat)
    requires |data| >= 32
    ensures p <= |data| && l == Stripes(Xxh.Start(seed), data) && data[p..] == Rest(data)
  {
    hide Stripes, Stripe, Round, XRound, Rest, Load8, Plus;
    var lim := |data| - 32;
    l := Lanes(Plus(Plus(seed, P1), P2), Plus(seed, P2), seed, seed - P1);
    p := 0;
    assert data[0..] == data;
    ghost var goal := Stripes(l, data);
    var first := true;
    while first || p <= lim
      invariant p <= |data| && (first ==> p == 0) && Stripes(l, data[p..]) == goal && Rest(data[p..]) == Rest(data)
      decreases |data| - p, first
    {
      StripesStep(l, data, p);
      l := NextStripe(l, data, p);
      p := p + 32;
      first := false;
    }
    StripesStep(l, data, p);
  }

  method NextStripe(l: Lanes, data: seq<Byte>, p: nat) returns (r: Lanes)
    requires p + 32 <= |data|
    ensures r == Stripe(l, data, p)
  {
    hide Round, XRound, Load8;
    SameRound(l.v1, Load8(data, p));
    SameRound(l.v2, Load8(data, p + 8));
    SameRound(l.v3, Load8(data, p + 16));
    SameRound(l.v4, Load8(data, p + 24));
    r := Lanes(XRound(l.v1, Load8(data, p)), XRound(l.v2, Load8(data, p + 8)), XRound(l.v3, Load8(data, p + 16)),
               XRound(l.v4, Load8(data, p + 24)));
  }

  method Converged(l: Lanes) returns (h: Word)
    ensures h == Converge(l)
  {
    hide Rotl, Rotl64, MergeRound, Merge, Plus;
    SameRotation(l.v1, 1);
    SameRotation(l.v2, 7);
    SameRotation(l.v3, 12);
    SameRotation(l.v4, 18);
    h := Plus(Plus(Plus(Rotl64(l.v1, 1), Rotl64(l.v2, 7)), Rotl64(l.v3, 12)), Rotl64(l.v4, 18));
    SameMerge(h, l.v1);
    h := Merge(h, l.v1);
    SameMerge(h, l.v2);
    h := Merge(h, l.v2);
    SameMerge(h, l.v3);
    h := Merge(h, l.v3);
    SameMerge(h, l.v4);
    h := Merge(h, l.v4);
  }

  /** The remaining bytes: eights, at most one four, and single ones. */
  method Eights(h0: Word, data: seq<Byte>, p0: nat) returns (h: Word, p: nat)
    requires p0 <= |data|
    ensures p0 <= p <= |data| < p + 8 && MixTail(h, data[p..]) == MixTail(h0, data[p0..])
  {
    hide MixTail, Mix8, XRound, Rotl64, Load8, Xor, Plus, Times;
    h, p := h0, p0;
    while p + 8 <= |data|
      invariant p0 <= p <= |data| && MixTail(h, data[p..]) == MixTail(h0, data[p0..])
    {
      MixStep(h, data, p);
      TailRound(h, Load8(data, p));
      h := Xor(h, XRound(0, Load8(data, p)));
      h := Plus(Times(Rotl64(h, 27), P1), P4);
      p := p + 8;
    }
  }

  method LastBytes(h0: Word, data: seq<Byte>, p0: nat) returns (h: Word)
    requires p0 <= |data| < p0 + 8
    ensures h == MixTail(h0, data[p0..])
  {
    hide MixTail, Mix8, Mix4, Mix1, Rotl64, Load8, Load4, Xor, Plus, Times;
    h := h0;
    var p := p0;
    if p + 4 <= |data| {
      MixStep(h, data, p);
      Fours(h, Load4(data, p));
      h := Xor(h, Times(Load4(data, p), P1));
      h := Plus(Times(Rotl64(h, 23), P2), P3);
      p := p + 4;
    }
    while p < |data|
      invariant p <= |data| < p + 4 && MixTail(h, data[p..]) == MixTail(h0, data[p0..])
    {
      MixStep(h, data, p);
      Ones(h, data[p]);
      h := Xor(h, Times(data[p] as Word, P5));
      h := Times(Rotl64(h, 11), P1);
      p := p + 1;
    }
    MixStep(h, data, p);
  }

  /** `zupt_xxh64` computes the same hash. */
  method Xxh64(data: seq<Byte>, seed: Word) returns (h: Word)
    ensures h == Xxh.Hash(data, seed)
  {
    hide Stripes, MixTail, Avalanche, Aval, Converge, Xxh.Start, Rest, Plus, Wrap;
    var p: nat := 0;
    assert data[0..] == data;
    if |data| >= 32 {
      var l;
      l, p := TakeAll(data, seed);
      h := Converged(l);
    } else {
      ShortRest(Xxh.Start(seed), data);
      h := Plus(seed, P5);
    }
    h := Plus(h, Wrap(|data|));
    h, p := Eights(h, data, p);
    h := LastBytes(h, data, p);
    SameLast(h);
    h := Aval(h);
  }
}
