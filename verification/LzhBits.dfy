/** The LSB-first bit writer and reader of src/zupt_lzh.c:150-167. */
module LzhBits {
  import opened Arith
  import opened BitIo
  import opened Bits
  import opened Bytes

  /** `bitwr_t`: pending bits in front of byte `pos` of a buffer. Bits that no longer fit stay pending,
      and the accumulator is a number of any size. */
  class Writer {
    const buf: array<Byte>
    const start: nat
    var pos: nat
    var acc: nat
    var nb: nat

    constructor (buf: array<Byte>, start: nat)
      requires start <= buf.Length
      ensures Valid() && this.buf == buf && this.start == start && pos == start && Written() == []
    {
      this.buf, this.start := buf, start;
      pos, acc, nb := start, 0, 0;
      new;
      assert buf[start..start] == [];
    }

    ghost predicate Valid()
      reads this, buf
    {
      start <= pos <= buf.Length && acc < Pow2(nb) && (nb >= 8 ==> pos == buf.Length)
    }

    /** Every bit put so far. */
    ghost function Written(): seq<bool>
      requires Valid()
      reads this, buf
    {
      ByteBits(buf[start..pos]) + ToBits(acc, nb)
    }

    /** Moves the low eight pending bits, zero-padded when fewer remain, to the buffer. */
    method StoreByte(ghost bits: seq<bool>)
      requires start <= pos < buf.Length && acc < Pow2(nb) && bits == ByteBits(buf[start..pos]) + ToBits(acc, nb)
      modifies this`pos, this`acc, this`nb, buf
      ensures start <= pos <= buf.Length && acc < Pow2(nb) && pos == old(pos) + 1
      ensures nb == if old(nb) >= 8 then old(nb) - 8 else 0
      ensures old(nb) >= 8 ==> ByteBits(buf[start..pos]) + ToBits(acc, nb) == bits
      ensures old(nb) < 8 ==> bits <= ByteBits(buf[start..pos])
      ensures buf[..start] == old(buf[..start])
    {
      hide ByteBits, ToBits, Pow2;
      ghost var was := buf[start..pos];
      ghost var low := acc % 0x100;
      Pow2Small();
      if nb >= 8 {
        SplitByte(acc, nb);
        AppendAssociative(ByteBits(was), ToBits(low, 8), ToBits(acc / 0x100, nb - 8));
      } else {
        Pow2Monotone(nb, 8);
        DivModUnique(acc, 0x100, 0, acc);
        PadByte(acc, nb);
        PrefixOfSum(ByteBits(was), ToBits(acc, nb), ToBits(acc, 8));
      }
      buf[pos] := acc % 0x100;
      assert buf[start..pos + 1] == was + [low];
      ByteBitsAppend(was, [low]);
      ByteVal(low);
      pos, acc := pos + 1, acc / 0x100;
      nb := if nb >= 8 then nb - 8 else 0;
    }

    /** `bw_put`: appends the low `n` bits, which are all of `v`. */
    method Put(v: nat, n: nat)
      requires Valid() && v < Pow2(n)
      modifies this`pos, this`acc, this`nb, buf
      ensures Valid() && Written() == old(Written()) + ToBits(v, n)
      ensures buf[..start] == old(buf[..start])
    {
      hide ByteBits, ToBits, Pow2;
      AppendPending(acc, nb, v, n);
      DivModUnique(v, Pow2(n), 0, v);
      AppendAssociative(ByteBits(buf[start..pos]), ToBits(acc, nb), ToBits(v, n));
      ghost var want := Written() + ToBits(v, n);
      acc, nb := acc + v * Pow2(nb), nb + n;
      while nb >= 8 && pos < buf.Length
        invariant start <= pos <= buf.Length && acc < Pow2(nb)
        invariant ByteBits(buf[start..pos]) + ToBits(acc, nb) == want
        invariant buf[..start] == old(buf[..start])
        decreases nb
      {
        StoreByte(want);
      }
    }

    /** `bw_flush`: the last byte is padded with zeros. */
    method Flush()
      requires Valid()
      modifies this`pos, this`acc, this`nb, buf
      ensures start <= pos <= buf.Length
      ensures var bits := old(Written());
              if |bits| <= 8 * (buf.Length - start)
              then pos == start + (|bits| + 7) / 8 && bits <= ByteBits(buf[start..pos])
              else pos == buf.Length
      ensures buf[..start] == old(buf[..start])
    {
      hide ByteBits, ToBits, Pow2;
      ghost var bits := Written();
      while nb > 0 && pos < buf.Length
        invariant start <= pos <= buf.Length && acc < Pow2(nb) && (nb >= 8 ==> pos == buf.Length)
        invariant old(nb) > 0 && nb == 0 ==> |bits| <= 8 * (pos - start) < |bits| + 8 && bits <= ByteBits(buf[start..pos])
        invariant nb == old(nb) ==> pos == old(pos) && ByteBits(buf[start..pos]) + ToBits(acc, nb) == bits
        invariant nb == 0 || nb == old(nb)
        invariant buf[..start] == old(buf[..start])
        decreases nb
      {
        StoreByte(bits);
      }
      if nb == 0 && old(nb) == 0 {
        assert ByteBits(buf[start..pos]) + ToBits(acc, 0) == ByteBits(buf[start..pos]);
      }
    }
  }

  /** `bitrd_t`: `nb` buffered bits in front of byte `pos`. Bits past the end read as zero, and skipping
      them leaves `nb` negative. */
  class Reader {
    const src: seq<Byte>
    var pos: nat
    var acc: nat
    var nb: int

    constructor (src: seq<Byte>)
      ensures Valid() && this.src == src && At() == 0
    {
      this.src := src;
      pos, acc, nb := 0, 0, 0;
    }

    ghost predicate Valid()
      reads this
    {
      && pos <= |src| && nb <= 8 * pos
      && (nb >= 0 ==> acc == Val(BitIo.Window(ByteBits(src), 8 * pos - nb, nb)))
      && (nb < 0 ==> pos == |src| && acc == 0)
    }

    /** The number of bits handed out so far. */
    ghost function At(): nat
      requires Valid()
      reads this
    {
      8 * pos - nb
    }

    /** Buffers `n` bits, or all that are left, a byte at a time. */
    method Load(n: nat)
      requires Valid()
      modifies this
      ensures Valid() && At() == old(At()) && (n <= nb || pos == |src|)
    {
      hide ByteBits, BitIo.Window, Val, Pow2;
      while nb < n && pos < |src|
        invariant Valid() && At() == old(At())
        decreases |src| - pos
      {
        BufferByte(src, pos, 8 * pos - nb, nb);
        acc := acc + src[pos] * Pow2(nb);
        pos, nb := pos + 1, nb + 8;
      }
    }

    /** `br_peek`. */
    method Peek(n: nat) returns (v: nat)
      requires Valid()
      modifies this
      ensures Valid() && At() == old(At()) && (n <= nb || pos == |src|)
      ensures v == Val(BitIo.Window(ByteBits(src), At(), n)) < Pow2(n)
    {
      hide ByteBits, BitIo.Window, Val, Pow2;
      Load(n);
      TakeBits(ByteBits(src), 8 * pos - nb, acc, nb, n, 8 * pos);
      v := acc % Pow2(n);
    }

    /** `br_skip`. */
    method Skip(n: nat)
      requires Valid() && (n <= nb || pos == |src|)
      modifies this
      ensures Valid() && At() == old(At()) + n
    {
      hide ByteBits, BitIo.Window, Val, Pow2;
      TakeBits(ByteBits(src), 8 * pos - nb, acc, nb, n, 8 * pos);
      acc, nb := acc / Pow2(n), nb - n;
      assert 8 * pos - nb == old(8 * pos - nb) + n;
    }

    /** `br_get`. */
    method Get(n: nat) returns (v: nat)
      requires Valid()
      modifies this
      ensures Valid() && At() == old(At()) + n
      ensures v == Val(BitIo.Window(ByteBits(src), old(At()), n)) < Pow2(n)
    {
      v := Peek(n);
      Skip(n);
    }
  }
}
