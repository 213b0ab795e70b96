/** The LSB-first bit writer and reader of src/vv_ans.c over 64-bit accumulators. */
module BitIo {
  import opened Arith
  import opened Bits
  import opened Bytes

  /** `ans_bw_t`: an accumulator of fewer than eight pending bits over a fixed buffer. */
  class BitWriter {
    var acc: nat
    var n: nat
    var p: nat
    const buf: array<Byte>

    constructor (capacity: nat)
      ensures Valid() && Written() == [] && fresh(buf) && buf.Length == capacity
    {
      acc, n, p := 0, 0, 0;
      buf := new Byte[capacity](_ => 0);
    }

    ghost predicate Valid()
      reads this, buf
    {
      p <= buf.Length && n < 8 && acc < Pow2(n)
    }

    /** Every bit added so far: the stored bytes and then the pending bits. */
    ghost function Written(): seq<bool>
      requires Valid()
      reads this, buf
    {
      ByteBits(buf[..p]) + ToBits(acc, n)
    }

    /** `ans_bw_add`: appends the low `nb` bits of `v`. */
    method Add(v: nat, nb: nat)
      requires Valid() && nb < 32
      requires |Written()| + nb <= 8 * buf.Length
      modifies this, buf
      ensures Valid()
      ensures Written() == old(Written()) + ToBits(v, nb)
    {
      hide ByteBits, ToBits, Pow2;
      if nb == 0 {
        assert Written() + ToBits(v, nb) == Written();
        return;
      }
      var low := v % Pow2(nb);
      AppendPending(acc, n, v, nb);
      ghost var want := Written() + ToBits(v, nb);
      AppendAssociative(ByteBits(buf[..p]), ToBits(acc, n), ToBits(v, nb));
      acc := acc + low * Pow2(n);
      n := n + nb;
      while n >= 8 && p < buf.Length
        invariant p <= buf.Length && acc < Pow2(n) && n < 40
        invariant ByteBits(buf[..p]) + ToBits(acc, n) == want
        decreases n
      {
        n, acc := StoreByte(n, want);
      }
      assert 8 * p + n == |want|;
    }

    /** Moves the low eight pending bits, zero-padded when fewer remain, to the buffer. */
    method StoreByte(pending: nat, ghost want: seq<bool>) returns (left: nat, rest: nat)
      requires p < buf.Length && pending >= 8 && acc < Pow2(pending)
      requires ByteBits(buf[..p]) + ToBits(acc, pending) == want
      modifies this`p, buf
      ensures p == old(p) + 1 && left == pending - 8 && rest < Pow2(left)
      ensures ByteBits(buf[..p]) + ToBits(rest, left) == want
    {
      SplitByte(acc, pending);
      buf[p] := acc % 0x100;
      assert buf[..p + 1] == old(buf[..p]) + [acc % 0x100];
      ByteBitsAppend(old(buf[..p]), [acc % 0x100]);
      ByteVal(acc % 0x100);
      p := p + 1;
      left, rest := pending - 8, acc / 0x100;
      AppendAssociative(old(ByteBits(buf[..p])), ToBits(acc % 0x100, 8), ToBits(rest, left));
    }

    /** `ans_bw_flush`: stores the last partial byte; the result is the encoded length. */
    method Flush() returns (len: nat)
      requires Valid()
      requires |Written()| <= 8 * buf.Length
      modifies this, buf
      ensures len == p == (|old(Written())| + 7) / 8 && len <= buf.Length
      ensures old(Written()) <= ByteBits(buf[..len])
    {
      hide ByteBits, ToBits, Pow2;
      ghost var stored := buf[..p];
      if n > 0 {
        Pow2Small();
        Pow2Monotone(n, 8);
        PadByte(acc, n);
        buf[p] := acc;
        assert buf[..p + 1] == stored + [acc];
        ByteBitsAppend(stored, [acc]);
        ByteVal(acc);
        PrefixOfSum(ByteBits(stored), ToBits(acc, n), ToBits(acc, 8));
        p := p + 1;
        acc, n := 0, 0;
      }
      len := p;
    }
  }

  lemma AppendAssociative<T>(a: seq<T>, b: seq<T>, c: seq<T>)
    ensures a + (b + c) == (a + b) + c
  {
  }

  lemma PrefixOfSum<T>(a: seq<T>, b: seq<T>, c: seq<T>)
    requires b <= c
    ensures a + b <= a + c
  {
  }

  lemma AppendPending(acc: nat, n: nat, v: nat, nb: nat)
    requires acc < Pow2(n)
    ensures acc + v % Pow2(nb) * Pow2(n) < Pow2(n + nb)
    ensures ToBits(acc, n) + ToBits(v, nb) == ToBits(acc + v % Pow2(nb) * Pow2(n), n + nb)
  {
    var low := v % Pow2(nb);
    ToBitsMod(v, nb);
    var bits := ToBits(acc, n) + ToBits(low, nb);
    ValToBits(acc, n);
    ValToBits(low, nb);
    ValAppend(ToBits(acc, n), ToBits(low, nb));
    ToBitsVal(bits);
    ValBound(bits);
  }

  lemma SplitByte(acc: nat, n: nat)
    requires n >= 8 && acc < Pow2(n)
    ensures acc / 0x100 < Pow2(n - 8)
    ensures ToBits(acc, n) == ToBits(acc % 0x100, 8) + ToBits(acc / 0x100, n - 8)
  {
    hide ToBits, Pow2;
    Pow2Small();
    Pow2Add(n - 8, 8);
    DigitBound(acc, 0x100, Pow2(n - 8));
    AppendPending(acc % 0x100, 8, acc / 0x100, n - 8);
    DivModUnique(acc / 0x100, Pow2(n - 8), 0, acc / 0x100);
  }

  lemma PadByte(acc: nat, n: nat)
    requires n <= 8 && acc < Pow2(n)
    ensures ToBits(acc, 8)[..n] == ToBits(acc, n)
  {
    hide ToBits, Pow2;
    AppendPending(acc, n, 0, 8 - n);
    assert 0 % Pow2(8 - n) == 0 by { DivModUnique(0, Pow2(8 - n), 0, 0); }
  }

  //////////////////////////////////////////////////////////////////////////////
  // Reader
  //////////////////////////////////////////////////////////////////////////////

  /** `k` bits of `stream` from position `t`; positions past the end read as zero. */
  ghost function Window(stream: seq<bool>, t: nat, k: nat): (w: seq<bool>)
    ensures |w| == k
  {
    seq(k, j requires 0 <= j < k => t + j < |stream| && stream[t + j])
  }

  lemma WindowSplit(stream: seq<bool>, t: nat, a: nat, b: nat)
    ensures Window(stream, t, a + b) == Window(stream, t, a) + Window(stream, t + a, b)
    ensures Val(Window(stream, t, a + b)) == Val(Window(stream, t, a)) + Val(Window(stream, t + a, b)) * Pow2(a)
  {
    hide Val, Pow2, Window;
    WindowConcat(stream, t, a, b);
    ValAppend(Window(stream, t, a), Window(stream, t + a, b));
  }

  lemma WindowConcat(stream: seq<bool>, t: nat, a: nat, b: nat)
    ensures Window(stream, t, a + b) == Window(stream, t, a) + Window(stream, t + a, b)
  {
  }

  /** Low and high part of a window, as remainder and quotient. */
  lemma WindowDivMod(stream: seq<bool>, t: nat, k: nat, n: nat)
    requires k <= n
    ensures Val(Window(stream, t, n)) % Pow2(k) == Val(Window(stream, t, k))
    ensures Val(Window(stream, t, n)) / Pow2(k) == Val(Window(stream, t + k, n - k))
  {
    WindowSplit(stream, t, k, n - k);
    var w := Window(stream, t, n);
    assert w[..k] == Window(stream, t, k) && w[k..] == Window(stream, t + k, n - k);
    ValSplit(w, k);
  }

  lemma WindowPastEnd(stream: seq<bool>, t: nat, k: nat)
    requires |stream| <= t
    ensures Val(Window(stream, t, k)) == 0
  {
    ValZeros(Window(stream, t, k));
  }

  lemma WindowBytes(src: seq<Byte>, p: nat, k: nat)
    requires p + k <= |src|
    ensures Window(ByteBits(src), 8 * p, 8 * k) == ByteBits(src[p..p + k])
  {
    hide ByteBits;
    ByteBitsSlice(src, p, p + k);
    var s := ByteBits(src);
    assert |s| == 8 * |src| && 8 * p + 8 * k <= |s|;
    WindowIsSlice(s, 8 * p, 8 * k);
  }

  lemma WindowIsSlice(stream: seq<bool>, t: nat, k: nat)
    requires t + k <= |stream|
    ensures Window(stream, t, k) == stream[t..t + k]
  {
  }

  /** `bits` lie ahead of position `t` of the stream. */
  ghost predicate Ahead(stream: seq<bool>, t: nat, bits: seq<bool>) {
    t <= |stream| && bits <= stream[t..]
  }

  lemma AheadTake(stream: seq<bool>, t: nat, bits: seq<bool>, nb: nat)
    requires Ahead(stream, t, bits) && nb <= |bits|
    ensures Window(stream, t, nb) == bits[..nb]
    ensures Ahead(stream, t + nb, bits[nb..])
  {
    assert stream[t..][nb..] == stream[t + nb..];
    assert bits[nb..] <= stream[t..][nb..];
    forall j | 0 <= j < nb
      ensures Window(stream, t, nb)[j] == bits[j]
    {
      assert bits[j] == stream[t..][j];
    }
  }

  /** `ans_br_t`: `n` buffered bits in front of byte `p`. A read past the end of the stream
      yields zero bits and leaves `n` negative. */
  class BitReader {
    var a: nat
    var n: int
    var p: nat
    const src: seq<Byte>

    constructor (src: seq<Byte>)
      ensures Valid() && this.src == src && Consumed() == 0
    {
      a, n, p := 0, 0, 0;
      this.src := src;
    }

    ghost predicate Valid()
      reads this
    {
      && p <= |src| && n <= 64 && n <= 8 * p
      && (n >= 0 ==> a == Val(Window(ByteBits(src), 8 * p - n, n)))
      && (n < 0 ==> p == |src| && a == 0)
    }

    /** The number of bits handed out so far. */
    ghost function Consumed(): nat
      requires Valid()
      reads this
    {
      8 * p - n
    }

    /** `ans_br_fill`: the bulk eight-byte load or, near the end, the byte loop. */
    method Fill()
      requires Valid()
      modifies this`a, this`n, this`p
      ensures Valid() && Consumed() == old(Consumed())
      ensures n > 56 || p == |src|
      ensures n >= old(n)
    {
      hide ByteBits, Window, Val, Pow2;
      if n <= 56 {
        if p + 8 <= |src| {
          var k := (64 - n) / 8;
          BufferBytes(src, p, 8 * p - n, n, k);
          a := a + LoadWord(p) % Pow2(8 * k) * Pow2(n);
          p := p + k;
          n := n + 8 * k;
        } else {
          while n <= 56 && p < |src|
            invariant Valid() && Consumed() == old(Consumed()) && n >= old(n)
            decreases |src| - p
          {
            BufferByte(src, p, 8 * p - n, n);
            a := a + src[p] * Pow2(n);
            p := p + 1;
            n := n + 8;
          }
        }
      }
    }

    /** An unaligned little-endian load of eight bytes. */
    function LoadWord(i: nat): nat
      requires i + 8 <= |src|
    {
      Val(ByteBits(src[i..i + 8]))
    }

    /** Takes `nb` bits that are known to be buffered or past the end. */
    method Take(nb: nat) returns (v: nat)
      requires Valid()
      requires nb <= n || p == |src|
      modifies this`a, this`n
      ensures Valid() && Consumed() == old(Consumed()) + nb
      ensures v == Val(Window(ByteBits(src), old(Consumed()), nb)) && v < Pow2(nb)
    {
      hide ByteBits, Window, Val, Pow2;
      v := a % Pow2(nb);
      TakeBits(ByteBits(src), 8 * p - n, a, n, nb, 8 * p);
      a := a / Pow2(nb);
      n := n - nb;
      assert 8 * p - n == old(Consumed()) + nb;
    }

    /** `ans_br_read`. */
    method Read(nb: nat) returns (v: nat)
      requires Valid() && nb <= 56
      modifies this`a, this`n, this`p
      ensures Valid() && Consumed() == old(Consumed()) + nb
      ensures v == Val(Window(ByteBits(src), old(Consumed()), nb)) && v < Pow2(nb)
    {
      if nb == 0 {
        return 0;
      }
      if n < nb {
        Fill();
      }
      v := Take(nb);
    }
  }

  /** Masking a wide load keeps the first `k` bytes, which extend the buffered window. */
  lemma BufferBytes(src: seq<Byte>, p: nat, t: nat, n: nat, k: nat)
    requires p + 8 <= |src| && k <= 8 && t + n == 8 * p
    ensures Val(Window(ByteBits(src), t, n)) + Val(ByteBits(src[p..p + 8])) % Pow2(8 * k) * Pow2(n) ==
            Val(Window(ByteBits(src), t, n + 8 * k))
  {
    hide ByteBits, Window, Val, Pow2;
    WindowBytes(src, p, 8);
    var bits := ByteBits(src);
    WindowDivMod(bits, 8 * p, 8 * k, 64);
    WindowSplit(bits, t, n, 8 * k);
  }

  lemma BufferByte(src: seq<Byte>, p: nat, t: nat, n: nat)
    requires p < |src| && t + n == 8 * p
    ensures Val(Window(ByteBits(src), t, n)) + src[p] * Pow2(n) == Val(Window(ByteBits(src), t, n + 8))
  {
    hide ByteBits, Window, Val, Pow2;
    WindowBytes(src, p, 1);
    assert src[p..p + 1] == [src[p]];
    ByteVal(src[p]);
    WindowSplit(ByteBits(src), t, n, 8);
  }

  lemma TakeBits(stream: seq<bool>, t: nat, a: nat, n: int, nb: nat, end: nat)
    requires t + n == end <= |stream|
    requires n >= 0 ==> a == Val(Window(stream, t, n))
    requires n < 0 ==> a == 0
    requires nb <= n || end == |stream|
    ensures a % Pow2(nb) == Val(Window(stream, t, nb)) < Pow2(nb)
    ensures nb <= n ==> a / Pow2(nb) == Val(Window(stream, t + nb, n - nb))
    ensures nb > n ==> a / Pow2(nb) == 0
  {
    ValBound(Window(stream, t, nb));
    if nb <= n {
      WindowDivMod(stream, t, nb, n);
    } else {
      if n >= 0 {
        WindowSplit(stream, t, n, nb - n);
        WindowPastEnd(stream, end, nb - n);
        assert Pow2(n) * 0 == 0;
      } else {
        WindowPastEnd(stream, t, nb);
      }
      DivModUnique(a, Pow2(nb), 0, a);
    }
  }
}
