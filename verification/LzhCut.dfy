/** Sources that `zupt_lzh_compress` cuts off in a small buffer: what it returns is as long as the buffer, below the
    source's length, and no longer decompresses to the source. */
module LzhCut {
  import BitIo
  import opened Bits
  import opened Bytes
  import Counter
  import opened Lz
  import Lzh
  import opened LzhFrame
  import opened LzhLut
  import opened LzhSyms

  ghost function Three(s: seq<Byte>, i: nat): seq<Byte>
    requires i + 3 <= |s|
  {
    s[i..i + 3]
  }

  ghost predicate Still(s: seq<Byte>, i: nat)
    requires i + 2 <= |s|
  {
    s[i] == s[i + 1]
  }

  /** No three bytes occur twice, and no byte follows itself. */
  ghost predicate Unrepeating(s: seq<Byte>) {
    && (forall i: nat, j: nat :: i < j && j + 3 <= |s| ==> Three(s, i) != Three(s, j))
    && forall i: nat :: i + 2 <= |s| ==> !Still(s, i)
  }

  /** Past the end of the stream every symbol is the same. */
  lemma PastEnd(lengths: seq<nat>, stream: seq<bool>, t: nat, u: nat)
    requires t >= |stream| && u >= |stream|
    ensures Symbol(lengths, stream, t) == Symbol(lengths, stream, u)
  {
    hide LutFor;
    assert BitIo.Window(stream, t, 15) == BitIo.Window(stream, u, 15);
  }

  lemma {:induction false} InflateExtends(ll: seq<nat>, d: seq<nat>, stream: seq<bool>, t: nat, out: seq<Byte>, cap: nat)
    requires |out| <= cap
    ensures out <= Inflate(ll, d, stream, t, out, cap)
    decreases cap - |out|
  {
    hide Copy, ReadPair, Symbol;
    match Symbol(ll, stream, t) {
      case NoSymbol =>
      case Entry(sym, len) =>
        if sym < 256 {
          if |out| < cap {
            InflateExtends(ll, d, stream, t + len, out + [sym], cap);
          }
        } else if sym > END_OF_BLOCK {
          var p := ReadPair(d, stream, t + len, sym);
          if p.Pair? && p.dist <= |out| && |out| + p.len <= cap {
            InflateExtends(ll, d, stream, p.next, Copy(out, p.dist, p.len), cap);
          }
        }
    }
  }

  /** A match repeats three bytes. */
  lemma MatchRepeats(s: seq<Byte>, out: seq<Byte>, dist: nat, len: nat)
    requires 1 <= dist <= |out| && len >= 3 && Copy(out, dist, len) <= s
    ensures !Unrepeating(s)
  {
    hide Copy;
    var c, j := Copy(out, dist, len), |out|;
    CopyPeriod(out, dist, len, j);
    CopyPeriod(out, dist, len, j + 1);
    CopyPeriod(out, dist, len, j + 2);
    var i := j - dist;
    assert s[j] == c[j] == c[i] == s[i] && s[j + 1] == c[j + 1] == c[i + 1] == s[i + 1] && s[j + 2] == c[j + 2] == c[i + 2] == s[i + 2];
    assert Three(s, i) == Three(s, j);
  }

  /** Past the end at most one more byte comes out before one would follow itself. */
  lemma Stuck(ll: seq<nat>, d: seq<nat>, stream: seq<bool>, t: nat, out: seq<Byte>, cap: nat)
    requires |out| <= cap && t >= |stream| && Unrepeating(Inflate(ll, d, stream, t, out, cap))
    ensures |Inflate(ll, d, stream, t, out, cap)| <= |out| + 1
  {
    hide Copy, ReadPair, Symbol, Unrepeating;
    var s, e := Inflate(ll, d, stream, t, out, cap), Symbol(ll, stream, t);
    if e.Entry? && e.sym < 256 && |out| < cap {
      var next := out + [e.sym];
      PastEnd(ll, stream, t, t + e.len);
      if |next| < cap {
        InflateExtends(ll, d, stream, t + e.len + e.len, next + [e.sym], cap);
        FollowsItself(s, out, e.sym);
      }
    } else if e.Entry? && e.sym > END_OF_BLOCK {
      var p := ReadPair(d, stream, t + e.len, e.sym);
      if p.Pair? && p.dist <= |out| && |out| + p.len <= cap {
        InflateExtends(ll, d, stream, p.next, Copy(out, p.dist, p.len), cap);
        MatchRepeats(s, out, p.dist, p.len);
      }
    }
  }

  lemma FollowsItself(s: seq<Byte>, out: seq<Byte>, b: Byte)
    requires out + [b] + [b] <= s
    ensures !Unrepeating(s)
  {
    assert s[|out|] == (out + [b] + [b])[|out|] && s[|out| + 1] == (out + [b] + [b])[|out| + 1];
    assert Still(s, |out|);
  }

  /** A byte of such an output takes a bit at least. */
  lemma {:induction false} BitEach(ll: seq<nat>, d: seq<nat>, stream: seq<bool>, t: nat, out: seq<Byte>, cap: nat)
    requires |out| <= cap && |out| <= t && |out| <= |stream| && Unrepeating(Inflate(ll, d, stream, t, out, cap))
    ensures |Inflate(ll, d, stream, t, out, cap)| <= |stream| + 1
    decreases cap - |out|
  {
    hide Copy, ReadPair, Symbol, Unrepeating;
    var s, e := Inflate(ll, d, stream, t, out, cap), Symbol(ll, stream, t);
    if t >= |stream| {
      Stuck(ll, d, stream, t, out, cap);
    } else if e.Entry? && e.sym < 256 && |out| < cap {
      BitEach(ll, d, stream, t + e.len, out + [e.sym], cap);
    } else if e.Entry? && e.sym > END_OF_BLOCK {
      var p := ReadPair(d, stream, t + e.len, e.sym);
      if p.Pair? && p.dist <= |out| && |out| + p.len <= cap {
        InflateExtends(ll, d, stream, p.next, Copy(out, p.dist, p.len), cap);
        MatchRepeats(s, out, p.dist, p.len);
      }
    }
  }

  /** So no short input without run-length coding decompresses to such a source. */
  lemma NoShortForm(s: seq<Byte>, src: seq<Byte>, dlen: nat)
    requires s != [] && s[0] == 0 && Unrepeating(src) && 8 * |s| + 1 < |src|
    ensures Decompress(s, dlen) != src
  {
    hide Inflate, Unrepeating, ByteBits;
    var h := ReadHeader(s);
    if h.Header? {
      BodyInside(s);
      if Inflate(h.ll, h.d, ByteBits(h.body), 0, [], dlen) == src {
        BitEach(h.ll, h.d, ByteBits(h.body), 0, [], dlen);
      }
    }
  }

  lemma BodyInside(s: seq<Byte>)
    requires s != [] && s[0] == 0 && ReadHeader(s).Header?
    ensures !ReadHeader(s).rle && |ReadHeader(s).body| <= |s|
  {
    hide LittleEndian, ReadTable;
  }

  /** The counter text repeats nothing. */
  lemma TextUnrepeating(n: nat)
    requires n <= Counter.LENGTH
    ensures Unrepeating(Counter.Text(n)) && 0 !in Counter.Text(n)
  {
    hide Counter.At;
    var s := Counter.Text(n);
    forall i: nat, j: nat | i < j && j + 3 <= n
      ensures Three(s, i) != Three(s, j)
    {
      Counter.NoRepeat(i, j);
      assert Three(s, i)[0] == Counter.At(i) && Three(s, i)[1] == Counter.At(i + 1) && Three(s, i)[2] == Counter.At(i + 2);
      assert Three(s, j)[0] == Counter.At(j) && Three(s, j)[1] == Counter.At(j + 1) && Three(s, j)[2] == Counter.At(j + 2);
    }
    forall i: nat | i + 2 <= n
      ensures !Still(s, i)
    {
      Counter.Neighbours(i);
    }
  }

  /** Any such source without zeros, in any buffer with room for a header and less than a bit for each of its bytes:
      the buffer is filled, and what is in it decompresses to something else. The first 4000 bytes of the counter text in 400
      bytes, for example. */
  method CutOff(src: seq<Byte>, dst: array<Byte>, level: int) returns (n: nat)
    requires Unrepeating(src) && 0 !in src && Lzh.HEADER_MOST <= dst.Length && 8 * dst.Length + 1 < |src|
    modifies dst
    ensures 0 < n == dst.Length < |src|
    ensures forall dlen: nat :: Decompress(dst[..n], dlen) != src
  {
    hide Decompress, Unrepeating;
    ghost var p;
    n, p := Lzh.LzhCompress(src, dst, level);
    forall dlen: nat
      ensures Decompress(dst[..n], dlen) != src
    {
      NoShortForm(dst[..n], src, dlen);
    }
    assert Decompress(dst[..n], |src|) != src;
  }
}
