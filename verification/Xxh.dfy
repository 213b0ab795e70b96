/** XXH64, at once and in pieces (src/vv_xxh64.c). The words are 64-bit vectors. */
module Xxh {
  import Arith
  import Bits
  import opened Bytes
  import opened Copies
  import opened Lz

  const TWO_TO_THE_64: int := 0x1_0000_0000_0000_0000
  type Word = bv64

  const PRIME1: Word := 0x9E3779B185EBCA87
  const PRIME2: Word := 0xC2B2AE3D27D4EB4F
  const PRIME3: Word := 0x165667B19E3779F9
  const PRIME4: Word := 0x85EBCA77C2B2AE63
  const PRIME5: Word := 0x27D4EB2F165667C5

  /** A number's low 64 bits. */
  function Wrap(v: nat): Word {
    (v % TWO_TO_THE_64) as Word
  }

  lemma WordSmall(w: Word)
    ensures w as nat % TWO_TO_THE_64 == w as nat
  {
    WordBound(w);
    Small(w as nat);
  }

  lemma WordBound(w: Word)
    ensures 0 <= w as int < TWO_TO_THE_64
  {
  }

  lemma Small(n: nat)
    requires n < TWO_TO_THE_64
    ensures n % TWO_TO_THE_64 == n
  {
  }

  function Times(a: Word, b: Word): Word {
    a * b
  }

  function Plus(a: Word, b: Word): Word {
    a + b
  }

  function Xor(a: Word, b: Word): Word {
    a ^ b
  }

  function Rotl(a: Word, r: bv7): Word
    requires 0 < r < 64
  {
    (a << r) | (a >> (64 - r))
  }

  function Round(acc: Word, input: Word): Word {
    Times(Rotl(Plus(acc, Times(input, PRIME2)), 31), PRIME1)
  }

  function MergeRound(acc: Word, v: Word): Word {
    Plus(Times(Xor(acc, Round(0, v)), PRIME1), PRIME4)
  }

  /** A word with its upper part folded onto the lower one. */
  function Fold(a: Word, r: bv7): Word
    requires 0 < r < 64
  {
    a ^ (a >> r)
  }

  function Avalanche(h: Word): Word {
    Fold(Times(Fold(Times(Fold(h, 33), PRIME2), 29), PRIME3), 32)
  }

  datatype Lanes = Lanes(v1: Word, v2: Word, v3: Word, v4: Word)

  function Start(seed: Word): Lanes {
    Lanes(Plus(Plus(seed, PRIME1), PRIME2), Plus(seed, PRIME2), seed, seed - PRIME1)
  }

  function Load8(s: seq<Byte>, p: nat): Word
    requires p + 8 <= |s|
  {
    Wrap(LittleEndian(s, p, 8))
  }

  /** One stripe of 32 bytes at `p`. */
  function Stripe(l: Lanes, s: seq<Byte>, p: nat): Lanes
    requires p + 32 <= |s|
  {
    Lanes(Round(l.v1, Load8(s, p)), Round(l.v2, Load8(s, p + 8)), Round(l.v3, Load8(s, p + 16)), Round(l.v4, Load8(s, p + 24)))
  }

  /** All whole stripes of a text. */
  function Stripes(l: Lanes, s: seq<Byte>): Lanes
    decreases |s|
  {
    if |s| < 32 then l else Stripes(Stripe(l, s, 0), s[32..])
  }

  /** What is left after the whole stripes. */
  function Rest(s: seq<Byte>): (r: seq<Byte>)
    ensures |r| < 32 && |r| <= |s|
    decreases |s|
  {
    if |s| < 32 then s else Rest(s[32..])
  }

  function Converge(l: Lanes): Word {
    var h := Plus(Plus(Plus(Rotl(l.v1, 1), Rotl(l.v2, 7)), Rotl(l.v3, 12)), Rotl(l.v4, 18));
    MergeRound(MergeRound(MergeRound(MergeRound(h, l.v1), l.v2), l.v3), l.v4)
  }

  function Mix8(h: Word, k: Word): Word {
    var k1 := Times(Rotl(Times(k, PRIME2), 31), PRIME1);
    Plus(Times(Rotl(Xor(h, k1), 27), PRIME1), PRIME4)
  }

  function Mix4(h: Word, k: Word): Word {
    Plus(Times(Rotl(Xor(h, Times(k, PRIME1)), 23), PRIME2), PRIME3)
  }

  function Mix1(h: Word, b: Byte): Word {
    Times(Rotl(Xor(h, Times(b as Word, PRIME5)), 11), PRIME1)
  }

  function Load4(s: seq<Byte>, p: nat): Word
    requires p + 4 <= |s|
  {
    Wrap(LittleEndian(s, p, 4))
  }

  /** The remaining bytes: eights, then fours, then single bytes. */
  function MixTail(h: Word, s: seq<Byte>): Word
    decreases |s|
  {
    if |s| >= 8 then MixTail(Mix8(h, Load8(s, 0)), s[8..])
    else if |s| >= 4 then MixTail(Mix4(h, Load4(s, 0)), s[4..])
    else if |s| > 0 then MixTail(Mix1(h, s[0]), s[1..])
    else h
  }

  function Begin(l: Lanes, seed: Word, len: nat): Word {
    if len >= 32 then Converge(l) else Plus(seed, PRIME5)
  }

  /** The hash of a text. */
  function Hash(s: seq<Byte>, seed: Word): Word {
    Avalanche(MixTail(Plus(Begin(Stripes(Start(seed), s), seed, |s|), Wrap(|s|)), Rest(s)))
  }

  //////////////////////////////////////////////////////////////////////////////
  // Pieces
  //////////////////////////////////////////////////////////////////////////////

  lemma {:induction false} LittleEndianAppend(a: seq<Byte>, b: seq<Byte>, p: nat, n: nat)
    requires p + n <= |a|
    ensures LittleEndian(a + b, p, n) == LittleEndian(a, p, n)
    decreases n
  {
    if n > 0 {
      LittleEndianAppend(a, b, p + 1, n - 1);
    }
  }

  lemma {:induction false} LittleEndianDrop(s: seq<Byte>, d: nat, p: nat, n: nat)
    requires d + p + n <= |s|
    ensures LittleEndian(s[d..], p, n) == LittleEndian(s, d + p, n)
    decreases n
  {
    if n > 0 {
      LittleEndianDrop(s, d, p + 1, n - 1);
    }
  }

  lemma StripePrefix(l: Lanes, a: seq<Byte>, b: seq<Byte>)
    requires |a| >= 32
    ensures Stripe(l, a + b, 0) == Stripe(l, a, 0)
  {
    hide Round, LittleEndian;
    LittleEndianAppend(a, b, 0, 8);
    LittleEndianAppend(a, b, 8, 8);
    LittleEndianAppend(a, b, 16, 8);
    LittleEndianAppend(a, b, 24, 8);
  }

  lemma StripeAt(l: Lanes, s: seq<Byte>, p: nat)
    requires p + 32 <= |s|
    ensures Stripe(l, s[p..], 0) == Stripe(l, s, p)
  {
    hide Round, LittleEndian;
    LittleEndianDrop(s, p, 0, 8);
    LittleEndianDrop(s, p, 8, 8);
    LittleEndianDrop(s, p, 16, 8);
    LittleEndianDrop(s, p, 24, 8);
  }

  /** Taking in `a` and then `b` is taking in both: the whole stripes of `a`, and what was left of it
      in front of `b`. */
  lemma {:induction false} StripesAppend(l: Lanes, a: seq<Byte>, b: seq<Byte>)
    ensures Stripes(l, a + b) == Stripes(Stripes(l, a), Rest(a) + b)
    ensures Rest(a + b) == Rest(Rest(a) + b)
    decreases |a|
  {
    hide Stripe;
    if |a| >= 32 {
      StripePrefix(l, a, b);
      assert (a + b)[32..] == a[32..] + b;
      StripesAppend(Stripe(l, a, 0), a[32..], b);
    }
  }

  /** One more whole stripe from position `p`. */
  lemma StripesStep(l: Lanes, s: seq<Byte>, p: nat)
    requires p <= |s|
    ensures p + 32 <= |s| ==>
              Stripes(l, s[p..]) == Stripes(Stripe(l, s, p), s[p + 32..]) && Rest(s[p..]) == Rest(s[p + 32..])
    ensures p + 32 > |s| ==> Stripes(l, s[p..]) == l && Rest(s[p..]) == s[p..]
  {
    hide Stripe;
    if p + 32 <= |s| {
      StripeAt(l, s, p);
      assert s[p..][32..] == s[p + 32..];
    }
  }

  /** One more mix of the tail from position `p`. */
  lemma MixStep(h: Word, s: seq<Byte>, p: nat)
    requires p <= |s|
    ensures p + 8 <= |s| ==> MixTail(h, s[p..]) == MixTail(Mix8(h, Load8(s, p)), s[p + 8..])
    ensures p + 4 <= |s| < p + 8 ==> MixTail(h, s[p..]) == MixTail(Mix4(h, Load4(s, p)), s[p + 4..])
    ensures p < |s| < p + 4 ==> MixTail(h, s[p..]) == MixTail(Mix1(h, s[p]), s[p + 1..])
    ensures p == |s| ==> MixTail(h, s[p..]) == h
  {
    hide Mix8, Mix4, Mix1, LittleEndian;
    if p + 8 <= |s| {
      LittleEndianDrop(s, p, 0, 8);
      assert s[p..][8..] == s[p + 8..];
    } else if p + 4 <= |s| {
      LittleEndianDrop(s, p, 0, 4);
      assert s[p..][4..] == s[p + 4..];
    } else if p < |s| {
      assert s[p..][1..] == s[p + 1..];
    }
  }

  //////////////////////////////////////////////////////////////////////////////
  // At once
  //////////////////////////////////////////////////////////////////////////////

  /** The three loops over what is left. */
  method Finish(h0: Word, s: seq<Byte>, p0: nat) returns (h: Word)
    requires p0 <= |s|
    ensures h == MixTail(h0, s[p0..])
  {
    hide MixTail, Mix8, Mix4, Mix1, Load8, Load4;
    h := h0;
    var p: nat := p0;
    ghost var goal := MixTail(h0, s[p0..]);
    while |s| - p >= 8
      invariant p <= |s| && MixTail(h, s[p..]) == goal
    {
      MixStep(h, s, p);
      h := Mix8(h, Load8(s, p));
      p := p + 8;
    }
    while |s| - p >= 4
      invariant p <= |s| && |s| - p < 8 && MixTail(h, s[p..]) == goal
    {
      MixStep(h, s, p);
      h := Mix4(h, Load4(s, p));
      p := p + 4;
    }
    while |s| - p > 0
      invariant p <= |s| && |s| - p < 4 && MixTail(h, s[p..]) == goal
    {
      MixStep(h, s, p);
      h := Mix1(h, s[p]);
      p := p + 1;
    }
    MixStep(h, s, p);
  }

  /** Whole stripes from `p0` on. */
  method TakeStripes(l0: Lanes, s: seq<Byte>, p0: nat) returns (l: Lanes, p: nat)
    requires p0 <= |s|
    ensures p0 <= p <= |s| && |s| - p < 32
    ensures l == Stripes(l0, s[p0..]) && s[p..] == Rest(s[p0..])
  {
    hide Stripes, Stripe;
    l, p := l0, p0;
    ghost var goal, rest := Stripes(l0, s[p0..]), Rest(s[p0..]);
    while |s| - p >= 32
      invariant p0 <= p <= |s| && Stripes(l, s[p..]) == goal && Rest(s[p..]) == rest
    {
      StripesStep(l, s, p);
      l := Stripe(l, s, p);
      p := p + 32;
    }
    StripesStep(l, s, p);
  }

  /** `vv_xxh64`. */
  method VvXxh64(data: seq<Byte>, seed: Word) returns (h: Word)
    ensures h == Hash(data, seed)
  {
    hide Stripes, MixTail, Avalanche, Begin, Start, Wrap, Plus;
    assert data[0..] == data;
    if data == [] {
      EmptyHash(seed);
      return Avalanche(Plus(seed, PRIME5));
    }
    var l, p := TakeStripes(Start(seed), data, 0);
    h := Begin(l, seed, |data|);
    h := Plus(h, Wrap(|data|));
    h := Finish(h, data, p);
    h := Avalanche(h);
  }

  lemma EmptyHash(seed: Word)
    ensures Hash([], seed) == Avalanche(Plus(seed, PRIME5))
  {
    hide Avalanche;
    assert Wrap(0) == 0;
  }

  //////////////////////////////////////////////////////////////////////////////
  // In pieces
  //////////////////////////////////////////////////////////////////////////////

  /** `vv_xxh64_state_t`. */
  class State {
    var l: Lanes
    var total: nat
    const buf: array<Byte>
    var bufLen: nat
    var seed: Word
    /** Everything taken in so far. */
    ghost var taken: seq<Byte>

    constructor (seed: Word)
      ensures Valid() && taken == [] && this.seed == seed && fresh(buf)
    {
      this.l, this.seed := Start(seed), seed;
      total, bufLen := 0, 0;
      buf := new Byte[32](_ => 0);
      taken := [];
    }

    ghost predicate Valid()
      reads this, buf
    {
      && buf.Length == 32 && bufLen < 32 && total == |taken|
      && l == Stripes(Start(seed), taken) && buf[..bufLen] == Rest(taken)
    }

    method Append(v: seq<Byte>)
      requires bufLen + |v| <= buf.Length
      modifies this`bufLen, buf
      ensures bufLen == old(bufLen) + |v| && buf[..bufLen] == old(buf[..bufLen]) + v
    {
      ghost var before := buf[..bufLen];
      StoreBytes(buf, bufLen, v);
      bufLen := bufLen + |v|;
      assert buf[..bufLen] == buf[..][..bufLen] == before + v;
    }

    /** What fits behind the buffered bytes; a full buffer is one stripe. */
    method FillUp(data: seq<Byte>) returns (p: nat)
      requires buf.Length == 32 && 0 < bufLen < 32
      modifies this`l, this`bufLen, buf
      ensures old(bufLen) + |data| < 32 ==> p == |data| && l == old(l) && bufLen < 32 && buf[..bufLen] == old(buf[..bufLen]) + data
      ensures old(bufLen) + |data| >= 32 ==> p <= |data| && old(bufLen) + p == 32 && bufLen == 0
      ensures old(bufLen) + |data| >= 32 ==> l == Stripes(old(l), old(buf[..bufLen]) + data[..p])
    {
      hide Stripes, Stripe, Rest;
      p := if 32 - bufLen > |data| then |data| else 32 - bufLen;
      ghost var filled := buf[..bufLen] + data[..p];
      Append(data[..p]);
      if bufLen < 32 {
        assert data[..p] == data;
        return;
      }
      OneStripe(l, filled);
      assert buf[..] == filled;
      l := Stripe(l, buf[..], 0);
      bufLen := 0;
    }

    /** `vv_xxh64_update`. */
    method Update(data: seq<Byte>)
      requires Valid() && |taken| + |data| < TWO_TO_THE_64
      modifies this, buf
      ensures Valid() && taken == old(taken) + data && seed == old(seed)
    {
      hide Stripes, Stripe, Start;
      if data == [] {
        assert taken + data == taken;
        return;
      }
      ghost var left := Rest(taken);
      StripesAppend(Start(seed), taken, data);
      taken, total := taken + data, total + |data|;
      var p: nat := 0;
      if bufLen > 0 {
        p := FillUp(data);
        if bufLen > 0 {
          ShortRest(l, left + data);
          return;
        }
        assert left + data == (left + data[..p]) + data[p..];
        StripesAppend(old(l), left + data[..p], data[p..]);
        OneStripe(old(l), left + data[..p]);
        assert [] + data[p..] == data[p..];
      } else {
        assert left + data == data[p..];
      }
      TakeWhole(data, p);
    }

    /** What comes when nothing is buffered. */
    method TakeWhole(data: seq<Byte>, p0: nat)
      requires bufLen == 0 && buf.Length == 32 && p0 <= |data|
      modifies this`l, this`bufLen, buf
      ensures bufLen < 32 && l == Stripes(old(l), data[p0..]) && buf[..bufLen] == Rest(data[p0..])
    {
      hide Stripes, Stripe, Rest;
      var p;
      l, p := TakeStripes(l, data, p0);
      if p < |data| {
        assert buf[..bufLen] == [];
        Append(data[p..]);
      }
    }

    /** `vv_xxh64_finalize`: the hash of all that was taken in, however it was cut. */
    method Finalize() returns (h: Word)
      requires Valid()
      ensures h == Hash(taken, seed)
    {
      hide Stripes, MixTail, Begin, Start, Wrap, Plus, Times, Fold;
      h := Begin(l, seed, total);
      h := Plus(h, Wrap(total));
      assert buf[..bufLen][0..] == buf[..bufLen];
      h := Finish(h, buf[..bufLen], 0);
      h := Fold(h, 33);
      h := Times(h, PRIME2);
      h := Fold(h, 29);
      h := Times(h, PRIME3);
      h := Fold(h, 32);
    }
  }

  lemma ShortRest(l: Lanes, s: seq<Byte>)
    requires |s| < 32
    ensures Stripes(l, s) == l && Rest(s) == s
  {
  }

  lemma OneStripe(l: Lanes, s: seq<Byte>)
    requires |s| == 32
    ensures Stripes(l, s) == Stripe(l, s, 0) && Rest(s) == []
  {
    assert s[32..] == [];
  }

  function Joined(pieces: seq<seq<Byte>>): seq<Byte> {
    if pieces == [] then [] else Joined(pieces[..|pieces| - 1]) + pieces[|pieces| - 1]
  }

  /** Any partition of a text hashes to the hash of the text. */
  method HashPieces(pieces: seq<seq<Byte>>, seed: Word) returns (h: Word)
    requires |Joined(pieces)| < TWO_TO_THE_64
    ensures h == Hash(Joined(pieces), seed)
  {
    hide Hash;
    var s := new State(seed);
    for i := 0 to |pieces|
      invariant s.Valid() && s.taken == Joined(pieces[..i]) && s.seed == seed && fresh(s) && fresh(s.buf)
    {
      PiecesStep(pieces, i);
      s.Update(pieces[i]);
    }
    assert pieces[..|pieces|] == pieces;
    h := s.Finalize();
  }

  lemma {:induction false} PiecesStep(pieces: seq<seq<Byte>>, i: nat)
    requires i < |pieces|
    ensures Joined(pieces[..i + 1]) == Joined(pieces[..i]) + pieces[i]
    ensures |Joined(pieces[..i + 1])| <= |Joined(pieces)|
    decreases |pieces|
  {
    assert pieces[..i + 1][..i] == pieces[..i];
    if i + 1 < |pieces| {
      var front := pieces[..|pieces| - 1];
      assert front[..i + 1] == pieces[..i + 1];
      PiecesStep(front, i);
    } else {
      assert pieces[..i + 1] == pieces;
    }
  }
}
