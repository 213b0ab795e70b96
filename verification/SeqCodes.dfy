/** Literal-length, match-length and offset codes of the sequence coder (src/vv_ans.c). */
module SeqCodes {
  import opened Arith
  import opened Bits
  import opened Bytes

  const ML_CODES: nat := 36
  const OF_CODES: nat := 27
  const LL_CODES: nat := 36

  /** `ml_base` (min_match 4), and the shared extra-bit widths. */
  function MlBaseAt(c: nat): nat {
    if c < 16 then c + 4
    else if c == 16 then 20
    else if c == 17 then 22
    else if c == 18 then 24
    else if c == 19 then 28
    else if c == 20 then 32
    else if c == 21 then 40
    else if c == 22 then 48
    else if c == 23 then 64
    else if c == 24 then 96
    else if c == 25 then 128
    else if c == 26 then 192
    else if c == 27 then 256
    else if c == 28 then 384
    else if c == 29 then 512
    else if c == 30 then 1024
    else if c == 31 then 2048
    else if c == 32 then 4096
    else if c == 33 then 8192
    else if c == 34 then 16384
    else 32768
  }

  function MlExtraAt(c: nat): nat {
    if c < 16 then 0
    else if c == 16 then 1
    else if c == 17 then 1
    else if c == 18 then 2
    else if c == 19 then 2
    else if c == 20 then 3
    else if c == 21 then 3
    else if c == 22 then 4
    else if c == 23 then 5
    else if c == 24 then 5
    else if c == 25 then 6
    else if c == 26 then 6
    else if c == 27 then 7
    else if c == 28 then 7
    else if c == 29 then 9
    else if c == 30 then 10
    else if c == 31 then 11
    else if c == 32 then 12
    else if c == 33 then 13
    else if c == 34 then 14
    else 15
  }

  /** `ll_base` and its extra-bit widths. */
  function LlBaseAt(c: nat): nat {
    if c < 16 then c
    else if c == 16 then 16
    else if c == 17 then 18
    else if c == 18 then 20
    else if c == 19 then 24
    else if c == 20 then 28
    else if c == 21 then 32
    else if c == 22 then 48
    else if c == 23 then 64
    else if c == 24 then 128
    else if c == 25 then 256
    else if c == 26 then 512
    else if c == 27 then 1024
    else if c == 28 then 2048
    else if c == 29 then 4096
    else if c == 30 then 8192
    else if c == 31 then 16384
    else if c == 32 then 32768
    else if c == 33 then 49152
    else if c == 34 then 57344
    else 61440
  }

  function LlExtraAt(c: nat): nat {
    if c < 16 then 0
    else if c == 16 then 1
    else if c == 17 then 1
    else if c == 18 then 2
    else if c == 19 then 2
    else if c == 20 then 2
    else if c == 21 then 4
    else if c == 22 then 4
    else if c == 23 then 6
    else if c == 24 then 7
    else if c == 25 then 8
    else if c == 26 then 9
    else if c == 27 then 10
    else if c == 28 then 11
    else if c == 29 then 12
    else if c == 30 then 13
    else if c == 31 then 14
    else if c == 32 then 14
    else if c == 33 then 13
    else if c == 34 then 12
    else 12
  }

  function MlBase(): (s: seq<nat>)
    ensures |s| == 36
  {
    seq(36, c requires 0 <= c < 36 => MlBaseAt(c))
  }

  /** `ml_base_v2` (min_match 3): every base one lower. */
  function MlBaseV2(): (s: seq<nat>)
    ensures |s| == 36
  {
    seq(36, c requires 0 <= c < 36 => MlBaseAt(c) - 1)
  }

  function MlExtra(): (s: seq<nat>)
    ensures |s| == 36
  {
    seq(36, c requires 0 <= c < 36 => MlExtraAt(c))
  }

  function LlBase(): (s: seq<nat>)
    ensures |s| == 36
  {
    seq(36, c requires 0 <= c < 36 => LlBaseAt(c))
  }

  function LlExtra(): (s: seq<nat>)
    ensures |s| == 36
  {
    seq(36, c requires 0 <= c < 36 => LlExtraAt(c))
  }

  /** Tag 'S' uses MlBase(), tag 'T' uses MlBaseV2(). */
  predicate IsMlBase(base: seq<nat>) {
    base == MlBase() || base == MlBaseV2()
  }

  lemma Pow2Widths()
    ensures Pow2(0) == 1 && Pow2(1) == 2 && Pow2(2) == 4 && Pow2(3) == 8 && Pow2(4) == 16 && Pow2(5) == 32
    ensures Pow2(6) == 64 && Pow2(7) == 128 && Pow2(8) == 256 && Pow2(9) == 512 && Pow2(10) == 1024
    ensures Pow2(11) == 2048 && Pow2(12) == 4096 && Pow2(13) == 8192 && Pow2(14) == 16384 && Pow2(15) == 32768
  {
    assert Pow2(4) == 16;
    assert Pow2(8) == 16 * Pow2(4);
    assert Pow2(12) == 16 * Pow2(8);
  }

  /** Code `c` covers the values from its base up to the next base, exactly the range of its
      extra bits; the last code covers a full range as well. */
  ghost predicate Ladder(base: seq<nat>, extra: seq<nat>) {
    && |base| == |extra| == 36
    && (forall c :: 0 <= c < 35 ==> base[c + 1] == base[c] + Pow2(extra[c]))
    && (forall c :: 0 <= c < 16 ==> base[c] == base[0] + c && extra[c] == 0)
  }

  lemma LlStep(c: nat)
    requires c < 35
    ensures LlBaseAt(c + 1) == LlBaseAt(c) + Pow2(LlExtraAt(c))
  {
    hide Pow2;
    Pow2Widths();
    if c < 22 {
    } else if c < 29 {
    } else {
    }
  }

  lemma MlStep(c: nat)
    requires c < 35
    ensures MlBaseAt(c + 1) == MlBaseAt(c) + Pow2(MlExtraAt(c))
  {
    hide Pow2;
    Pow2Widths();
    if c < 22 {
    } else if c < 29 {
    } else {
    }
  }

  lemma LadderLl()
    ensures Ladder(LlBase(), LlExtra()) && LlBase()[0] == 0 && LlBase()[35] + Pow2(LlExtra()[35]) == 65536
  {
    Pow2Widths();
    hide LlBaseAt, LlExtraAt, Pow2;
    forall c | 0 <= c < 35
      ensures LlBase()[c + 1] == LlBase()[c] + Pow2(LlExtra()[c])
    {
      LlStep(c);
    }
    LlEnds();
  }

  lemma LlEnds()
    ensures forall c: nat :: c < 16 ==> LlBaseAt(c) == c && LlExtraAt(c) == 0
    ensures LlBaseAt(35) == 61440 && LlExtraAt(35) == 12
  {
  }

  lemma LadderMl(base: seq<nat>)
    requires IsMlBase(base)
    ensures Ladder(base, MlExtra()) && 3 <= base[0] <= 4 && base[35] + Pow2(MlExtra()[35]) == base[0] + 65532
  {
    Pow2Widths();
    hide MlBaseAt, MlExtraAt, Pow2;
    forall c | 0 <= c < 35
      ensures base[c + 1] == base[c] + Pow2(MlExtra()[c])
    {
      MlStep(c);
    }
    MlEnds();
  }

  lemma MlEnds()
    ensures forall c: nat :: c < 16 ==> MlBaseAt(c) == c + 4 && MlExtraAt(c) == 0
    ensures MlBaseAt(35) == 32768 && MlExtraAt(35) == 15
  {
  }

  lemma {:induction false} LadderAscends(base: seq<nat>, extra: seq<nat>, i: nat, j: nat)
    requires Ladder(base, extra) && i < j < 36
    ensures base[i] < base[j]
    decreases j
  {
    assert base[j - 1 + 1] == base[j - 1] + Pow2(extra[j - 1]);
    if i < j - 1 {
      LadderAscends(base, extra, i, j - 1);
    }
  }

  /** A coded value: the symbol, and the extra bits as they are written, truncated to width. */
  datatype Coded = Coded(code: nat, extra: nat, nbits: nat)

  /** The last code whose base does not exceed `v` (the first code when all do). */
  function CodeFor(base: seq<nat>, v: nat, i: nat): (c: nat)
    requires |base| == 36 && i < 36
    ensures c <= i && (c > 0 ==> base[c] <= v) && forall d :: c < d <= i ==> base[d] > v
  {
    if i == 0 || base[i] <= v then i else CodeFor(base, v, i - 1)
  }

  /** What the length coders write for `v`. Values below the first base take code 0. */
  function LengthCode(base: seq<nat>, extra: seq<nat>, v: nat): (e: Coded)
    requires |base| == |extra| == 36
    ensures e.code < 36 && e.nbits == extra[e.code] && e.extra < Pow2(e.nbits)
  {
    var c := CodeFor(base, v, 35);
    Coded(c, if v <= base[c] then 0 else (v - base[c]) % Pow2(extra[c]), extra[c])
  }

  function LengthOf(base: seq<nat>, code: nat, extra: nat): nat
    requires code < |base|
  {
    base[code] + extra
  }

  /** A length survives coding exactly when it lies between the first base and the end of the
      last code's range: 0..65535 for literal runs, 4..65535 and 3..65534 for matches. */
  lemma LengthRoundTrip(base: seq<nat>, extra: seq<nat>, v: nat)
    requires Ladder(base, extra)
    ensures var e := LengthCode(base, extra, v);
            LengthOf(base, e.code, e.extra) == v <==> base[0] <= v < base[35] + Pow2(extra[35])
  {
    var e := LengthCode(base, extra, v);
    var c := e.code;
    if v < base[0] {
      assert c == 0 by {
        if c > 0 {
          LadderAscends(base, extra, 0, c);
        }
      }
    } else if v < base[35] + Pow2(extra[35]) {
      if c < 35 {
        assert base[c + 1] == base[c] + Pow2(extra[c]);
      }
      DivModUnique(v - base[c], Pow2(extra[c]), 0, v - base[c]);
    } else {
      assert c == 35;
    }
  }

  /** `ll_encode` and `ml_encode_with`: direct lookup below code 16, binary search above. */
  method EncodeLength(base: seq<nat>, extra: seq<nat>, v: nat) returns (e: Coded)
    requires Ladder(base, extra)
    ensures e == LengthCode(base, extra, v)
  {
    hide LengthCode;
    if v <= base[15] {
      var c := if v >= base[0] then v - base[0] else 0;
      SmallCode(base, extra, v, c);
      return Coded(c, 0, 0);
    }
    var lo, hi := 16, 35;
    LadderAscends(base, extra, 15, 16);
    assert base[15 + 1] == base[15] + Pow2(extra[15]);
    while lo < hi
      invariant 16 <= lo <= hi <= 35
      invariant base[lo] <= v
      invariant hi < 35 ==> v < base[hi + 1]
    {
      var mid := (lo + hi + 1) / 2;
      if v >= base[mid] {
        lo := mid;
      } else {
        hi := mid - 1;
      }
    }
    FoundCode(base, extra, v, lo);
    e := Coded(lo, (v - base[lo]) % Pow2(extra[lo]), extra[lo]);
  }

  lemma SmallCode(base: seq<nat>, extra: seq<nat>, v: nat, c: nat)
    requires Ladder(base, extra) && v <= base[15]
    requires c == if v >= base[0] then v - base[0] else 0
    ensures LengthCode(base, extra, v) == Coded(c, 0, 0)
  {
    var d := CodeFor(base, v, 35);
    assert base[c] == base[0] + c;
    if d > c {
      LadderAscends(base, extra, c, d);
    }
  }

  lemma FoundCode(base: seq<nat>, extra: seq<nat>, v: nat, c: nat)
    requires Ladder(base, extra) && 16 <= c <= 35
    requires base[c] <= v && (c < 35 ==> v < base[c + 1])
    ensures LengthCode(base, extra, v) == Coded(c, (v - base[c]) % Pow2(extra[c]), extra[c])
  {
    var d := CodeFor(base, v, 35);
    if d > c {
      if d > c + 1 {
        LadderAscends(base, extra, c + 1, d);
      }
    }
    if v == base[c] {
      DivModUnique(0, Pow2(extra[c]), 0, 0);
    }
  }

  //////////////////////////////////////////////////////////////////////////////
  // Offsets
  //////////////////////////////////////////////////////////////////////////////

  /** `of_extra`: repeat codes carry none, explicit code c carries c - 3. */
  function OfExtra(code: nat): (n: nat)
    requires code < OF_CODES
    ensures n <= 23
  {
    if code < 3 then 0 else code - 3
  }

  function FloorLog2(v: nat): (r: nat)
    requires v > 0
    ensures Pow2(r) <= v < Pow2(r + 1)
  {
    if v == 1 then 0 else 1 + FloorLog2(v / 2)
  }

  /** `of_encode`: an explicit offset code; offset 0 is written like offset 1. */
  function OffsetCode(offset: nat): (e: Coded)
    ensures 3 <= e.code < OF_CODES && e.nbits == OfExtra(e.code) && e.extra < Pow2(e.nbits)
  {
    if offset == 0 then Coded(3, 0, 0)
    else
      var c := if FloorLog2(offset) >= 24 then 23 else FloorLog2(offset);
      Pow2Monotone(c, FloorLog2(offset));
      Coded(c + 3, (offset - Pow2(c)) % Pow2(c), c)
  }

  /** `of_decode` for explicit codes. */
  function OffsetOf(code: nat, extra: nat): nat
    requires code >= 3
  {
    Pow2(code - 3) + extra
  }

  /** An explicit offset survives coding exactly when it is in 1..2^24 - 1. */
  lemma OffsetRoundTrip(offset: nat)
    ensures var e := OffsetCode(offset);
            OffsetOf(e.code, e.extra) == offset <==> 1 <= offset < Pow2(24)
  {
    if offset > 0 {
      var r := FloorLog2(offset);
      if r >= 24 {
        Pow2Monotone(24, r);
      } else {
        Pow2Monotone(r + 1, 24);
        DivModUnique(offset - Pow2(r), Pow2(r), 0, offset - Pow2(r));
      }
    }
  }

  /** `of_encode`'s shift loop. */
  method EncodeOffset(offset: nat) returns (e: Coded)
    ensures e == OffsetCode(offset)
  {
    if offset == 0 {
      return Coded(3, 0, 0);
    }
    var c, v := 0, offset;
    while v > 1
      invariant v > 0 && FloorLog2(offset) == c + FloorLog2(v)
    {
      v := v / 2;
      c := c + 1;
    }
    if c >= 24 {
      c := 23;
    }
    Pow2Monotone(c, FloorLog2(offset));
    e := Coded(c + 3, (offset - Pow2(c)) % Pow2(c), c);
  }
}
