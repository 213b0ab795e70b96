/** Decoding a symbol with one look-up (`huff_lut` and `huff_dec`, src/zupt_lzh.c:319-351): the table has
    an entry for every fifteen bits that may come next. */
module LzhLut {
  import opened Arith
  import opened BitIo
  import opened Bits
  import opened Bytes
  import opened HuffCode
  import opened HuffLengths
  import opened LzhBits

  const LUT_SIZE: nat := 0x8000

  /** `hlut_t`: no symbol, or a symbol and the length of its code. */
  datatype Entry = NoSymbol | Entry(sym: nat, len: nat)

  /** Does index `idx` start with symbol `s`'s code word? */
  ghost predicate Matches(lengths: seq<nat>, s: nat, idx: nat)
    requires s < |lengths|
  {
    1 <= lengths[s] <= MAX_CODE_LEN && idx % Pow2(lengths[s]) == Val(WordOf(lengths, s))
  }

  /** The entry at `idx` after the first `k` symbols: the last that matches. */
  ghost function LutFor(lengths: seq<nat>, k: nat, idx: nat): (e: Entry)
    requires k <= |lengths|
    ensures e.Entry? ==> e.sym < k && 1 <= e.len <= MAX_CODE_LEN
  {
    if k == 0 then NoSymbol
    else if Matches(lengths, k - 1, idx) then Entry(k - 1, lengths[k - 1])
    else LutFor(lengths, k - 1, idx)
  }

  ghost predicate IsLut(lut: seq<Entry>, lengths: seq<nat>) {
    |lut| == LUT_SIZE && forall i :: 0 <= i < LUT_SIZE ==> lut[i] == LutFor(lengths, |lengths|, i)
  }

  lemma LutStep(lengths: seq<nat>, s: nat, i: nat)
    requires s < |lengths|
    ensures LutFor(lengths, s + 1, i) ==
            if 1 <= lengths[s] <= MAX_CODE_LEN && i % Pow2(lengths[s]) == Val(WordOf(lengths, s))
            then Entry(s, lengths[s]) else LutFor(lengths, s, i)
  {
  }

  lemma LutSize()
    ensures Pow2(MAX_CODE_LEN) == LUT_SIZE
  {
    FullIsPow2();
  }

  /** Fills every entry whose low `bits` bits are `rev`. */
  method Fill(lut: array<Entry>, rev: nat, bits: nat, sym: nat)
    requires lut.Length == LUT_SIZE && 1 <= bits <= MAX_CODE_LEN && rev < Pow2(bits)
    modifies lut
    ensures forall i :: 0 <= i < LUT_SIZE ==> lut[i] == if i % Pow2(bits) == rev then Entry(sym, bits) else old(lut[i])
  {
    hide Pow2;
    var step := Pow2(bits);
    var fill := Pow2(MAX_CODE_LEN - bits);
    LutSize();
    Pow2Add(bits, MAX_CODE_LEN - bits);
    ghost var was := lut[..];
    for j := 0 to fill
      invariant forall i :: 0 <= i < LUT_SIZE ==> lut[i] == if i % step == rev && i / step < j then Entry(sym, bits) else was[i]
    {
      MulMono(j + 1, fill, step);
      assert (j + 1) * step == j * step + step;
      DivModUnique(rev + j * step, step, j, rev);
      lut[rev + j * step] := Entry(sym, bits);
      forall i | 0 <= i < LUT_SIZE && i % step == rev && i / step == j
        ensures i == rev + j * step
      {
        assert i == i / step * step + i % step;
      }
    }
    forall i | 0 <= i < LUT_SIZE
      ensures i / step < fill
    {
      assert i < step * fill && step * fill == fill * step;
      DigitBound(i, step, fill);
    }
  }

  /** `huff_lut`. */
  method BuildLut(lengths: seq<nat>) returns (lut: array<Entry>)
    ensures fresh(lut) && IsLut(lut[..], lengths)
  {
    hide Pow2, Counts, FirstCode, NextCode, Code, Word, LutFor;
    var next := FirstCodes(lengths);
    lut := new Entry[LUT_SIZE](_ => NoSymbol);
    NothingBuilt(lengths);
    for s := 0 to |lengths|
      invariant forall l :: 0 <= l < LEVELS ==> next[l] == NextCode(lengths, s, l)
      invariant forall i :: 0 <= i < LUT_SIZE ==> lut[i] == LutFor(lengths, s, i)
    {
      forall l | 0 <= l < LEVELS
        ensures NextCode(lengths, s + 1, l) ==
                if l == lengths[s] > 0 then (NextCode(lengths, s, l) + 1) % 0x1_0000 else NextCode(lengths, s, l)
      {
        NextStep(lengths, s, l);
      }
      var bits := lengths[s];
      if 0 < bits <= MAX_CODE_LEN {
        NextStep(lengths, s, bits);
        var rev := ReverseBits(next[bits], bits);
        next[bits] := (next[bits] + 1) % 0x1_0000;
        Fill(lut, rev, bits, s);
      }
      forall i | 0 <= i < LUT_SIZE
        ensures lut[i] == LutFor(lengths, s + 1, i)
      {
        LutStep(lengths, s, i);
      }
    }
  }

  lemma NothingBuilt(lengths: seq<nat>)
    ensures forall i: nat :: LutFor(lengths, 0, i) == NoSymbol
  {
  }

  //////////////////////////////////////////////////////////////////////////////
  // Looking up
  //////////////////////////////////////////////////////////////////////////////

  ghost function PeekAt(stream: seq<bool>, t: nat): (i: nat)
    ensures i < LUT_SIZE
  {
    ValBound(BitIo.Window(stream, t, MAX_CODE_LEN));
    LutSize();
    Val(BitIo.Window(stream, t, MAX_CODE_LEN))
  }

  /** The symbol at bit `t`; past its end the stream reads as zeros. */
  ghost function Symbol(lengths: seq<nat>, stream: seq<bool>, t: nat): (e: Entry)
    ensures e.Entry? ==> e.sym < |lengths| && 1 <= e.len <= MAX_CODE_LEN
  {
    LutFor(lengths, |lengths|, PeekAt(stream, t))
  }

  /** Matching an index made of the next bits is being at their front. */
  lemma MatchesWindow(lengths: seq<nat>, s: nat, stream: seq<bool>, t: nat)
    requires s < |lengths| && 1 <= lengths[s] <= MAX_CODE_LEN
    ensures Matches(lengths, s, PeekAt(stream, t)) <==> BitIo.Window(stream, t, lengths[s]) == WordOf(lengths, s)
  {
    hide Code, Word, Pow2, Val, BitIo.Window;
    WindowDivMod(stream, t, lengths[s], MAX_CODE_LEN);
    if Val(BitIo.Window(stream, t, lengths[s])) == Val(WordOf(lengths, s)) {
      ToBitsVal(BitIo.Window(stream, t, lengths[s]));
      ToBitsVal(WordOf(lengths, s));
    }
  }

  lemma {:induction false} LutFinds(lengths: seq<nat>, s: nat, stream: seq<bool>, t: nat, k: nat)
    requires Decodable(lengths) && NextIs(lengths, s, stream, t) && k <= |lengths|
    ensures LutFor(lengths, k, PeekAt(stream, t)) == if s < k then Entry(s, lengths[s]) else NoSymbol
    decreases k
  {
    hide Kraft, Code, Word, PeekAt, BitIo.Window, Matches;
    if k > 0 {
      var u := k - 1;
      LutFinds(lengths, s, stream, t, u);
      if 1 <= lengths[u] <= MAX_CODE_LEN {
        MatchesWindow(lengths, u, stream, t);
        WindowIsSlice(stream, t, lengths[s]);
        if BitIo.Window(stream, t, lengths[u]) == WordOf(lengths, u) {
          OnlyNext(lengths, s, stream, t, u);
        }
      } else {
        NoMatch(lengths, u, PeekAt(stream, t));
      }
    }
  }

  lemma NoMatch(lengths: seq<nat>, u: nat, idx: nat)
    requires u < |lengths| && !(1 <= lengths[u] <= MAX_CODE_LEN)
    ensures !Matches(lengths, u, idx)
  {
  }

  /** One look-up finds the symbol whose code word is next. */
  lemma SymbolFound(lengths: seq<nat>, s: nat, stream: seq<bool>, t: nat)
    requires Decodable(lengths) && NextIs(lengths, s, stream, t)
    ensures Symbol(lengths, stream, t) == Entry(s, lengths[s])
  {
    LutFinds(lengths, s, stream, t, |lengths|);
  }

  /** `huff_dec`. */
  method HuffDec(r: Reader, lut: array<Entry>, ghost lengths: seq<nat>) returns (e: Entry)
    requires r.Valid() && IsLut(lut[..], lengths)
    modifies r
    ensures r.Valid()
    ensures e == Symbol(lengths, ByteBits(r.src), old(r.At()))
    ensures r.At() == old(r.At()) + if e.Entry? then e.len else 0
  {
    hide ByteBits, BitIo.Window, Val, Pow2, LutFor;
    var v := r.Peek(MAX_CODE_LEN);
    LutSize();
    e := lut[v];
    assert lut[v] == lut[..][v];
    if e.Entry? {
      r.Skip(e.len);
    }
  }
}
