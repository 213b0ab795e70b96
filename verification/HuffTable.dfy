/** The decode table (`build_dec_table`, src/vv_huffman.c:360-390) and why it finds the symbol that
    was written. */
module HuffTable {
  import opened Arith
  import opened BitIo
  import opened Bits
  import opened Bytes
  import opened HuffCode
  import opened HuffDecode
  import opened HuffLengths

  ghost predicate LengthsOkay(lengths: seq<nat>) {
    |lengths| == SYMBOLS && forall s :: 0 <= s < SYMBOLS ==> lengths[s] <= MAX_CODE_LEN
  }

  /** Does index `idx` start with symbol `s`'s code word? */
  ghost predicate Matches(lengths: seq<nat>, s: nat, idx: nat)
    requires LengthsOkay(lengths) && s < SYMBOLS
  {
    1 <= lengths[s] <= DECODE_BITS && idx % Pow2(lengths[s]) == Val(WordOf(lengths, s))
  }

  /** The entry at `idx` after the first `k` symbols: the last that matches. */
  ghost function FastFor(lengths: seq<nat>, k: nat, idx: nat): (h: Hit)
    requires LengthsOkay(lengths) && k <= SYMBOLS
    ensures h.Hit? ==> 1 <= h.len <= DECODE_BITS
  {
    if k == 0 then NoHit
    else if Matches(lengths, k - 1, idx) then Hit(k - 1, lengths[k - 1])
    else FastFor(lengths, k - 1, idx)
  }

  /** The longer codes among the first `k` symbols. */
  ghost function SlowFor(lengths: seq<nat>, k: nat): (slow: seq<Slow>)
    requires LengthsOkay(lengths) && k <= SYMBOLS
    ensures |slow| <= k && forall i :: 0 <= i < |slow| ==> DECODE_BITS < slow[i].len <= MAX_CODE_LEN
  {
    if k == 0 then []
    else
      SlowFor(lengths, k - 1) +
      (if lengths[k - 1] > DECODE_BITS then [Slow(Val(WordOf(lengths, k - 1)), lengths[k - 1], k - 1)] else [])
  }

  ghost predicate IsTableFor(d: DecTable, lengths: seq<nat>) {
    && LengthsOkay(lengths) && |d.fast| == DECODE_SIZE
    && (forall i :: 0 <= i < DECODE_SIZE ==> d.fast[i] == FastFor(lengths, SYMBOLS, i))
    && d.slow == SlowFor(lengths, SYMBOLS)
  }

  lemma TableForOkay(d: DecTable, lengths: seq<nat>)
    requires IsTableFor(d, lengths)
    ensures TableOkay(d)
  {
  }

  //////////////////////////////////////////////////////////////////////////////
  // Building
  //////////////////////////////////////////////////////////////////////////////

  /** Fills every entry whose low `len` bits are `rev`. */
  method FillEntries(table: array<Hit>, rev: nat, len: nat, sym: Byte)
    requires table.Length == DECODE_SIZE && 1 <= len <= DECODE_BITS && rev < Pow2(len)
    modifies table
    ensures forall i :: 0 <= i < DECODE_SIZE ==>
              table[i] == if i % Pow2(len) == rev then Hit(sym, len) else old(table[i])
  {
    hide Pow2;
    var step := Pow2(len);
    var fill := Pow2(DECODE_BITS - len);
    Pow2Small();
    Pow2Add(len, DECODE_BITS - len);
    ghost var was := table[..];
    for j := 0 to fill
      invariant forall i :: 0 <= i < DECODE_SIZE ==>
                  table[i] == if i % step == rev && i / step < j then Hit(sym, len) else was[i]
    {
      MulMono(j + 1, fill, step);
      assert (j + 1) * step == j * step + step;
      DivModUnique(rev + j * step, step, j, rev);
      table[rev + j * step] := Hit(sym, len);
      forall i | 0 <= i < DECODE_SIZE && i % step == rev && i / step == j
        ensures i == rev + j * step
      {
        assert i == i / step * step + i % step;
      }
    }
    forall i | 0 <= i < DECODE_SIZE
      ensures i / step < fill
    {
      assert i < step * fill && step * fill == fill * step;
      DigitBound(i, step, fill);
    }
  }

  /** `build_dec_table`. */
  method BuildDecTable(lengths: seq<nat>) returns (d: DecTable)
    requires LengthsOkay(lengths)
    ensures IsTableFor(d, lengths)
  {
    hide Pow2, Code, Word, FastFor, SlowFor;
    var codes := AssignCodes(lengths);
    var table := new Hit[DECODE_SIZE](_ => NoHit);
    var slow: seq<Slow> := [];
    NothingBuilt(lengths);
    for s := 0 to SYMBOLS
      invariant forall i :: 0 <= i < DECODE_SIZE ==> table[i] == FastFor(lengths, s, i)
      invariant slow == SlowFor(lengths, s)
      invariant forall u :: 0 <= u < SYMBOLS && lengths[u] > 0 ==> codes[u] == Code(lengths, u)
    {
      BuildStep(lengths, s);
      var len := lengths[s];
      if len > 0 {
        var rev := ReverseBits(codes[s], len);
        if len <= DECODE_BITS {
          FillEntries(table, rev, len, s);
        } else {
          slow := slow + [Slow(rev, len, s)];
        }
      }
      forall i | 0 <= i < DECODE_SIZE
        ensures table[i] == FastFor(lengths, s + 1, i)
      {
        FastStep(lengths, s, i);
      }
    }
    d := DecTable(table[..], slow);
  }

  lemma NothingBuilt(lengths: seq<nat>)
    requires LengthsOkay(lengths)
    ensures SlowFor(lengths, 0) == [] && forall i: nat :: FastFor(lengths, 0, i) == NoHit
  {
  }

  lemma FastStep(lengths: seq<nat>, s: nat, i: nat)
    requires LengthsOkay(lengths) && s < SYMBOLS
    ensures FastFor(lengths, s + 1, i) ==
            if 1 <= lengths[s] <= DECODE_BITS && i % Pow2(lengths[s]) == Val(WordOf(lengths, s)) then Hit(s, lengths[s])
            else FastFor(lengths, s, i)
  {
  }

  lemma BuildStep(lengths: seq<nat>, s: nat)
    requires LengthsOkay(lengths) && s < SYMBOLS
    ensures SlowFor(lengths, s + 1) ==
            if lengths[s] > DECODE_BITS then SlowFor(lengths, s) + [Slow(Val(WordOf(lengths, s)), lengths[s], s)]
            else SlowFor(lengths, s)
  {
  }

  //////////////////////////////////////////////////////////////////////////////
  // Looking up
  //////////////////////////////////////////////////////////////////////////////

  lemma ValInjective(a: seq<bool>, b: seq<bool>)
    requires |a| == |b| && Val(a) == Val(b)
    ensures a == b
  {
    ToBitsVal(a);
    ToBitsVal(b);
  }

  /** Matching an index made of the next bits is being at their front. */
  lemma MatchesWindow(lengths: seq<nat>, s: nat, stream: seq<bool>, t: nat)
    requires LengthsOkay(lengths) && s < SYMBOLS && 1 <= lengths[s] <= DECODE_BITS
    ensures Matches(lengths, s, Peek(stream, t)) <==> BitIo.Window(stream, t, lengths[s]) == WordOf(lengths, s)
  {
    hide Code, Word, Pow2, Val, BitIo.Window;
    WindowDivMod(stream, t, lengths[s], DECODE_BITS);
    if Val(BitIo.Window(stream, t, lengths[s])) == Val(WordOf(lengths, s)) {
      ValInjective(BitIo.Window(stream, t, lengths[s]), WordOf(lengths, s));
    }
  }

  lemma {:induction false} FastFinds(lengths: seq<nat>, s: nat, stream: seq<bool>, t: nat, k: nat)
    requires Usable(lengths) && LengthsOkay(lengths) && s < SYMBOLS && NextIs(lengths, s, stream, t) && k <= SYMBOLS
    ensures FastFor(lengths, k, Peek(stream, t)) == if s < k && lengths[s] <= DECODE_BITS then Hit(s, lengths[s]) else NoHit
    decreases k
  {
    hide Kraft, Code, Word, Peek, BitIo.Window, Matches;
    if k > 0 {
      var u := k - 1;
      FastFinds(lengths, s, stream, t, u);
      if 1 <= lengths[u] <= DECODE_BITS {
        MatchesWindow(lengths, u, stream, t);
        WindowIsSlice(stream, t, lengths[s]);
        if BitIo.Window(stream, t, lengths[u]) == WordOf(lengths, u) {
          OnlyNext(lengths, s, stream, t, u);
        }
      } else {
        NoMatch(lengths, u, Peek(stream, t));
      }
    }
  }

  lemma NoMatch(lengths: seq<nat>, u: nat, idx: nat)
    requires LengthsOkay(lengths) && u < SYMBOLS && !(1 <= lengths[u] <= DECODE_BITS)
    ensures !Matches(lengths, u, idx)
  {
  }

  lemma {:induction false} ScanAppend(slow: seq<Slow>, one: Slow, stream: seq<bool>, t: nat)
    ensures SlowScan(slow + [one], stream, t) ==
            if SlowScan(slow, stream, t).Got? then SlowScan(slow, stream, t) else SlowScan([one], stream, t)
    decreases |slow|
  {
    hide BitIo.Window, Val;
    if slow == [] {
      assert slow + [one] == [one];
    } else {
      assert (slow + [one])[1..] == slow[1..] + [one];
      ScanAppend(slow[1..], one, stream, t);
    }
  }

  lemma ScanOne(one: Slow, stream: seq<bool>, t: nat)
    ensures SlowScan([one], stream, t) ==
            if t + one.len <= |stream| && Val(BitIo.Window(stream, t, one.len)) == one.rev then Got(one.sym, t + one.len) else Bad
  {
    assert SlowScan([one][1..], stream, t) == Bad;
  }

  lemma {:induction false} SlowFinds(lengths: seq<nat>, s: nat, stream: seq<bool>, t: nat, k: nat)
    requires Usable(lengths) && LengthsOkay(lengths) && s < SYMBOLS && NextIs(lengths, s, stream, t)
    requires lengths[s] > DECODE_BITS && k <= SYMBOLS
    ensures SlowScan(SlowFor(lengths, k), stream, t) == if s < k then Got(s, t + lengths[s]) else Bad
    decreases k
  {
    hide Kraft, Code, Word, BitIo.Window, SlowScan, Val, SlowFor;
    NothingBuilt(lengths);
    if k == 0 {
      ScanNone(stream, t);
    } else {
      var u := k - 1;
      SlowFinds(lengths, s, stream, t, u);
      BuildStep(lengths, u);
      if lengths[u] > DECODE_BITS {
        var one := Slow(Val(WordOf(lengths, u)), lengths[u], u);
        ScanAppend(SlowFor(lengths, u), one, stream, t);
        ScanOne(one, stream, t);
        WindowIsSlice(stream, t, lengths[s]);
        if Val(BitIo.Window(stream, t, lengths[u])) == Val(WordOf(lengths, u)) {
          ValInjective(BitIo.Window(stream, t, lengths[u]), WordOf(lengths, u));
          OnlyNext(lengths, s, stream, t, u);
        }
      }
    }
  }

  lemma ScanNone(stream: seq<bool>, t: nat)
    ensures SlowScan([], stream, t) == Bad
  {
  }

  /** Fast table and slow list together resolve the unique code word at the front of the stream. */
  lemma DecodeFinds(lengths: seq<nat>, d: DecTable, s: nat, stream: seq<bool>, t: nat)
    requires Usable(lengths) && IsTableFor(d, lengths) && s < SYMBOLS && NextIs(lengths, s, stream, t)
    ensures TableOkay(d) && Decode(d, stream, t) == Got(s, t + lengths[s])
  {
    hide Kraft, Code, Word, Peek, FastFor, SlowFor, SlowScan;
    TableForOkay(d, lengths);
    FastFinds(lengths, s, stream, t, SYMBOLS);
    if lengths[s] > DECODE_BITS {
      SlowFinds(lengths, s, stream, t, SYMBOLS);
    }
  }
}
