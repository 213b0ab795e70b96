/** Bit strings, least significant bit first, and their numeric values. */
module Bits {
  import opened Arith
  import opened Bytes

  function Pow2(n: nat): (p: nat)
    ensures p >= 1
  {
    if n == 0 then 1 else 2 * Pow2(n - 1)
  }

  lemma {:induction false} Pow2Add(a: nat, b: nat)
    ensures Pow2(a + b) == Pow2(a) * Pow2(b)
  {
    if a > 0 {
      Pow2Add(a - 1, b);
      MulAssociative(2, Pow2(a - 1), Pow2(b));
    }
  }

  lemma {:induction false} Pow2Monotone(a: nat, b: nat)
    requires a <= b
    ensures Pow2(a) <= Pow2(b)
    decreases b
  {
    if a < b {
      Pow2Monotone(a, b - 1);
    }
  }

  function Bit(b: bool): nat {
    if b then 1 else 0
  }

  /** The number a bit string denotes. */
  function Val(bits: seq<bool>): nat {
    if bits == [] then 0 else Bit(bits[0]) + 2 * Val(bits[1..])
  }

  /** The low `n` bits of `v`. */
  function ToBits(v: nat, n: nat): (bits: seq<bool>)
    ensures |bits| == n
  {
    if n == 0 then [] else [v % 2 == 1] + ToBits(v / 2, n - 1)
  }

  lemma {:induction false} ValBound(bits: seq<bool>)
    ensures Val(bits) < Pow2(|bits|)
  {
    if bits != [] {
      ValBound(bits[1..]);
    }
  }

  lemma {:induction false} ToBitsVal(bits: seq<bool>)
    ensures ToBits(Val(bits), |bits|) == bits
  {
    if bits != [] {
      ToBitsVal(bits[1..]);
      DivModUnique(Val(bits), 2, Val(bits[1..]), Bit(bits[0]));
    }
  }

  lemma {:induction false} ValToBits(v: nat, n: nat)
    requires v < Pow2(n)
    ensures Val(ToBits(v, n)) == v
  {
    if n > 0 {
      ValToBits(v / 2, n - 1);
      assert ToBits(v, n)[1..] == ToBits(v / 2, n - 1);
    }
  }

  /** Bits above the width do not matter. */
  lemma {:induction false} ToBitsMod(v: nat, n: nat)
    ensures ToBits(v % Pow2(n), n) == ToBits(v, n)
  {
    if n > 0 {
      var p := Pow2(n - 1);
      ModHalves(v, p);
      ToBitsMod(v / 2, n - 1);
    }
  }

  lemma ModHalves(v: nat, p: nat)
    requires p > 0
    ensures v % (2 * p) % 2 == v % 2
    ensures v % (2 * p) / 2 == v / 2 % p
  {
    var h, b := v / 2, v % 2;
    var q, r := h / p, h % p;
    MulAssociative(q, 2, p);
    assert v == q * (2 * p) + (2 * r + b);
    DivModUnique(v, 2 * p, q, 2 * r + b);
    DivModUnique(2 * r + b, 2, r, b);
  }

  lemma {:induction false} ValAppend(a: seq<bool>, b: seq<bool>)
    ensures Val(a + b) == Val(a) + Pow2(|a|) * Val(b)
  {
    if a == [] {
      assert a + b == b;
    } else {
      assert (a + b)[1..] == a[1..] + b;
      ValAppend(a[1..], b);
      MulAssociative(2, Pow2(|a| - 1), Val(b));
    }
  }

  /** Taking and dropping bits are remainder and quotient by a power of two. */
  lemma ValSplit(bits: seq<bool>, k: nat)
    requires k <= |bits|
    ensures Val(bits[..k]) == Val(bits) % Pow2(k)
    ensures Val(bits[k..]) == Val(bits) / Pow2(k)
  {
    var lo, hi := bits[..k], bits[k..];
    assert lo + hi == bits;
    ValAppend(lo, hi);
    ValBound(lo);
    assert Pow2(k) * Val(hi) == Val(hi) * Pow2(k);
    DivModUnique(Val(bits), Pow2(k), Val(hi), Val(lo));
  }

  lemma {:induction false} ValZeros(bits: seq<bool>)
    requires forall i :: 0 <= i < |bits| ==> !bits[i]
    ensures Val(bits) == 0
  {
    if bits != [] {
      ValZeros(bits[1..]);
    }
  }

  /** The bits of a byte string, each byte least significant bit first. */
  function ByteBits(bytes: seq<Byte>): (bits: seq<bool>)
    ensures |bits| == 8 * |bytes|
  {
    if bytes == [] then [] else ToBits(bytes[0], 8) + ByteBits(bytes[1..])
  }

  lemma {:induction false} ByteBitsAppend(a: seq<Byte>, b: seq<Byte>)
    ensures ByteBits(a + b) == ByteBits(a) + ByteBits(b)
  {
    if a == [] {
      assert a + b == b;
    } else {
      assert (a + b)[1..] == a[1..] + b;
      ByteBitsAppend(a[1..], b);
    }
  }

  lemma {:induction false} ByteBitsSlice(bytes: seq<Byte>, i: nat, j: nat)
    requires i <= j <= |bytes|
    ensures ByteBits(bytes)[8 * i..8 * j] == ByteBits(bytes[i..j])
  {
    assert bytes == bytes[..i] + (bytes[i..j] + bytes[j..]);
    ByteBitsAppend(bytes[..i], bytes[i..j] + bytes[j..]);
    ByteBitsAppend(bytes[i..j], bytes[j..]);
  }

  lemma Pow2Small()
    ensures Pow2(8) == 0x100 && Pow2(11) == 2048 && Pow2(12) == 4096 && Pow2(16) == 0x1_0000
  {
    assert Pow2(4) == 16;
    Pow2Add(4, 4);
    Pow2Add(8, 4);
    Pow2Add(8, 8);
  }

  /** The value of a byte is the value of its bits. */
  lemma ByteVal(b: Byte)
    ensures Val(ToBits(b, 8)) == b
    ensures ByteBits([b]) == ToBits(b, 8)
  {
    Pow2Small();
    ValToBits(b, 8);
    assert [b][1..] == [];
  }
}
