/** The single-stream literal coder (`vva_encode`, `vva_decode`, src/vv_ans.c). */
module AnsSingle {
  import opened AnsBuild
  import opened AnsCoder
  import opened AnsEncode
  import opened AnsHeader
  import opened AnsTables
  import opened Arith
  import opened BitIo
  import opened Bits
  import opened Bytes
  import opened Normalize

  datatype Error = Overflow | Corrupt | Param

  datatype Status = Ok | Fail(error: Error)

  datatype EncodeResult = Encoded(bytes: seq<Byte>) | EncodeFailed(error: Error)

  datatype DecodeResult = Decoded(dst: seq<Byte>, consumed: nat) | DecodeFailed(error: Error)

  //////////////////////////////////////////////////////////////////////////////
  // Histogram
  //////////////////////////////////////////////////////////////////////////////

  /** Counts the bytes of the source. */
  method CountBytes(src: seq<Byte>) returns (raw: array<nat>)
    ensures fresh(raw) && raw.Length == NSYM
    ensures forall s :: 0 <= s < NSYM ==> raw[s] == multiset(src)[s]
    ensures Sum(raw[..]) == |src|
  {
    hide Sum;
    raw := new nat[NSYM](_ => 0);
    ZeroSum(raw[..]);
    for i := 0 to |src|
      invariant forall s :: 0 <= s < NSYM ==> raw[s] == multiset(src[..i])[s]
      invariant Sum(raw[..]) == i
    {
      assert src[..i + 1] == src[..i] + [src[i]];
      SumUpdate(raw[..], src[i], raw[src[i]] + 1);
      raw[src[i]] := raw[src[i]] + 1;
    }
    assert src[..|src|] == src;
  }

  /** Every symbol of the source has a positive frequency. */
  ghost predicate Covers(norm: seq<nat>, src: seq<Byte>) {
    Normalized(norm) && forall i :: 0 <= i < |src| ==> norm[src[i]] > 0
  }

  /** How often each byte occurs. */
  ghost function CountsOf(src: seq<Byte>): (raw: seq<nat>)
    ensures |raw| == NSYM
  {
    seq(NSYM, s requires 0 <= s < NSYM => multiset(src)[s])
  }

  /** `norm` is a table the normalization may give the source. */
  ghost predicate Tabled(src: seq<Byte>, norm: seq<nat>) {
    Sum(CountsOf(src)) == |src| > 0 && Apportioned(CountsOf(src), norm)
  }

  /** There is only one. */
  lemma OneTable(src: seq<Byte>, a: seq<nat>, b: seq<nat>)
    requires Tabled(src, a) && Tabled(src, b)
    ensures a == b
  {
    hide Apportioned;
    OneApportionment(CountsOf(src), a, b);
  }

  lemma TabledCovers(src: seq<Byte>, norm: seq<nat>)
    requires Tabled(src, norm)
    ensures Covers(norm, src) && TableShape(norm)
  {
    hide Sum, Apportioned;
    HistogramCovers(CountsOf(src), norm, src);
    NormalizedShape(norm);
  }

  lemma HistogramCovers(raw: seq<nat>, norm: seq<nat>, src: seq<Byte>)
    requires |raw| == NSYM && Sum(raw) > 0 && Apportioned(raw, norm)
    requires forall s :: 0 <= s < NSYM ==> raw[s] == multiset(src)[s]
    ensures Covers(norm, src)
  {
    hide Sum, Bases, Remainders, LargestRemainders;
    forall i | 0 <= i < |src|
      ensures norm[src[i]] > 0
    {
      assert src[i] in multiset(src);
    }
  }

  lemma {:induction false} PresenceAgrees(raw: seq<nat>, norm: seq<nat>, i: nat)
    requires |raw| == |norm| && i <= |raw|
    requires forall j :: 0 <= j < |raw| ==> (norm[j] > 0 <==> raw[j] > 0)
    ensures PresentCount(raw, i) == PresentCount(norm, i)
  {
    if i > 0 {
      PresenceAgrees(raw, norm, i - 1);
    }
  }

  //////////////////////////////////////////////////////////////////////////////
  // Encoder
  //////////////////////////////////////////////////////////////////////////////

  /** The source as operations on one state. */
  function SymbolOps(src: seq<Byte>): (ops: seq<Op>)
    ensures |ops| == |src|
  {
    seq(|src|, i requires 0 <= i < |src| => Sym(0, src[i]))
  }

  /** `bytes` is an encoding of `src` under frequencies `norm`. */
  ghost predicate EncodesWith(norm: seq<nat>, src: seq<Byte>, bytes: seq<Byte>) {
    && Covers(norm, src) && TableShape(norm)
    && AllEncodable([norm], SymbolOps(src))
    && var h := Header(norm);
       if PresentCount(norm, NSYM) == 1 then bytes == h
       else EncodesBody([norm], Encode([norm], SymbolOps(src)), bytes, h)
  }

  /** Header, initial state in two bytes, bitstream padded to a whole byte. */
  ghost predicate EncodesBody(tables: seq<seq<nat>>, c: Coded, bytes: seq<Byte>, h: seq<Byte>)
    requires ValidStates(tables, c.states) && |tables| == 1
  {
    && |bytes| == |h| + 2 + (|c.bits| + 7) / 8
    && bytes[..|h|] == h
    && bytes[|h|..|h| + 2] == Le16(c.states[0])
    && c.bits <= ByteBits(bytes[|h| + 2..])
  }

  ghost predicate Encodes(src: seq<Byte>, bytes: seq<Byte>) {
    exists norm :: EncodesWith(norm, src, bytes)
  }

  /** The size of the encoding: a header alone when there is one symbol. */
  ghost function SingleSize(norm: seq<nat>, src: seq<Byte>): nat
    requires Covers(norm, src) && TableShape(norm)
  {
    if PresentCount(norm, NSYM) == 1 then |Header(norm)|
    else
      CoveredOps(norm, src);
      |Header(norm)| + 2 + (|Encode([norm], SymbolOps(src)).bits| + 7) / 8
  }

  /** What the coder answers for a source, and the size it compares: it accepts (`ok`) exactly when that
      is smaller than the source and fits. */
  ghost predicate Accounts(src: seq<Byte>, dstCap: nat, ok: bool, size: nat) {
    exists norm :: AccountsFor(norm, src, dstCap, ok, size)
  }

  ghost predicate AccountsFor(norm: seq<nat>, src: seq<Byte>, dstCap: nat, ok: bool, size: nat) {
    && Tabled(src, norm) && Covers(norm, src) && TableShape(norm)
    && size == SingleSize(norm, src) && (ok <==> size <= dstCap && size < |src|)
  }

  lemma CoveredOps(norm: seq<nat>, src: seq<Byte>)
    requires Covers(norm, src)
    ensures AllEncodable([norm], SymbolOps(src))
    ensures forall i :: 0 <= i < |src| ==> InRange([norm], SymbolOps(src)[i])
  {
  }

  /** `vva_encode`. It accepts a source exactly when its encoding, under the frequencies the
      normalization gives, is shorter than the source and fits the buffer; the result encodes the
      source. */
  method VvaEncode(src: seq<Byte>, dstCap: nat) returns (r: EncodeResult)
    requires |src| <= 0x8000_0000
    ensures src == [] ==> r == Encoded([])
    ensures r.EncodeFailed? ==> r.error == Overflow
    ensures r.Encoded? && src != [] ==> Encodes(src, r.bytes) && |r.bytes| <= dstCap && |r.bytes| < |src|
    ensures src != [] ==> if r.Encoded? then Accounts(src, dstCap, true, |r.bytes|) else exists size :: Accounts(src, dstCap, false, size)
  {
    hide Sum, Normalized, Apportioned, Encode, Header, Covers, PairBits, ByteBits, Le16, EncodesBody, PresentCount, SingleSize;
    if |src| == 0 {
      return Encoded([]);
    }
    var raw := CountBytes(src);
    var norm, np := NormalizeFreq(raw[..]);
    if np == 0 {
      return EncodeFailed(Param);
    }
    assert raw[..] == CountsOf(src);
    assert Tabled(src, norm[..]);
    TabledCovers(src, norm[..]);
    PresenceAgrees(raw[..], norm[..], NSYM) by { PresenceFromApportioned(raw[..], norm[..]); }
    var h := WriteHeader(norm[..], dstCap);
    HeaderNotEmpty(norm[..]);
    SizeIs(norm[..], src);
    ghost var size := SingleSize(norm[..], src);
    if h == [] {
      assert AccountsFor(norm[..], src, dstCap, false, size);
      assert Accounts(src, dstCap, false, size);
      return EncodeFailed(Overflow);
    }
    CoveredOps(norm[..], src);
    if np == 1 {
      if |h| >= |src| {
        assert AccountsFor(norm[..], src, dstCap, false, size);
      assert Accounts(src, dstCap, false, size);
        return EncodeFailed(Overflow);
      }
      assert EncodesWith(norm[..], src, h);
      assert AccountsFor(norm[..], src, dstCap, true, size);
      return Encoded(h);
    }
    r := EncodeBody(norm[..], src, h, dstCap);
    assert AccountsFor(norm[..], src, dstCap, r.Encoded?, size);
    assert Accounts(src, dstCap, r.Encoded?, size);
  }

  lemma SizeIs(norm: seq<nat>, src: seq<Byte>)
    requires Covers(norm, src) && TableShape(norm)
    ensures AllEncodable([norm], SymbolOps(src))
    ensures SingleSize(norm, src) ==
            if PresentCount(norm, NSYM) == 1 then |Header(norm)|
            else |Header(norm)| + 2 + (|Encode([norm], SymbolOps(src)).bits| + 7) / 8
  {
    hide Encode, Header, PresentCount;
    CoveredOps(norm, src);
  }

  lemma PresenceFromApportioned(raw: seq<nat>, norm: seq<nat>)
    requires Sum(raw) > 0 && Apportioned(raw, norm)
    ensures |norm| == |raw| && forall j :: 0 <= j < |raw| ==> (norm[j] > 0 <==> raw[j] > 0)
  {
  }

  lemma HeaderNotEmpty(norm: seq<nat>)
    requires TableShape(norm) && PresentCount(norm, NSYM) > 0
    ensures Header(norm) != []
  {
  }

  method EncodeBody(norm: seq<nat>, src: seq<Byte>, h: seq<Byte>, dstCap: nat) returns (r: EncodeResult)
    requires src != [] && Covers(norm, src) && TableShape(norm) && h == Header(norm)
    requires PresentCount(norm, NSYM) > 1
    ensures r.EncodeFailed? ==> r.error == Overflow
    ensures r.Encoded? ==> EncodesWith(norm, src, r.bytes) && |r.bytes| <= dstCap && |r.bytes| < |src|
    ensures var size := SingleSize(norm, src);
            (r.Encoded? <==> size <= dstCap && size < |src|) && (r.Encoded? ==> |r.bytes| == size)
  {
    hide Sum, Normalized, Encode, Header, PairBits, ByteBits, Le16, PresentCount, AllReady, Ready, SingleSize, Covers;
    CoveredOps(norm, src);
    SizeIs(norm, src);
    CoversNormalized(norm, src);
    var enc := BuildAll(norm);
    OneReady(norm, enc);
    var states, pairs, ok := BackwardEncode([norm], [enc], SymbolOps(src));
    ghost var c := Encode([norm], SymbolOps(src));
    var cap := (|src| * 15 + 7) / 8 + 16;
    AnyWidth(norm, src);
    var buf, len := WritePairs(pairs, cap);
    var total := |h| + 2 + len;
    if total > dstCap || total >= |src| {
      return EncodeFailed(Overflow);
    }
    assert ValidState([norm][0], c.states[0]);
    var state := states[0];
    var bytes := h + Le16(state) + buf[..len];
    assert bytes[..|h|] == h && bytes[|h|..|h| + 2] == Le16(state) && bytes[|h| + 2..] == buf[..len];
    return Encoded(bytes);
  }

  lemma OneReady(norm: seq<nat>, e: EncCtx)
    requires Ready(norm, e)
    ensures AllReady([norm], [e])
  {
  }

  /** Every symbol costs at most `w` bits. */
  ghost predicate Narrow(tables: seq<seq<nat>>, ops: seq<Op>, w: nat)
    requires AllEncodable(tables, ops)
  {
    w <= ANS_LOG && forall i :: 0 <= i < |ops| ==> ops[i].Sym? && tables[ops[i].table][ops[i].symbol] >= Pow2(ANS_LOG - w)
  }

  lemma {:induction false} EncodedWidth(tables: seq<seq<nat>>, ops: seq<Op>, w: nat)
    requires AllEncodable(tables, ops) && Narrow(tables, ops, w)
    ensures |Encode(tables, ops).bits| <= w * |ops|
  {
    hide EncStep, Normalized;
    if ops != [] {
      EncodedWidth(tables, ops[1..], w);
      var rest := Encode(tables, ops[1..]);
      var t, x := ops[0].table, ops[0].symbol;
      assert Encodable(tables, ops[0]) && ValidState(tables[t], rest.states[t]);
      NarrowStep(tables[t], rest.states[t], x, w);
      assert Encode(tables, ops) == EncodeOne(tables, ops[0], rest);
      assert w * |ops| == w * (|ops| - 1) + w;
    }
  }

  /** Twelve bits are always enough. */
  lemma AnyWidth(norm: seq<nat>, src: seq<Byte>)
    requires Covers(norm, src)
    ensures AllEncodable([norm], SymbolOps(src)) && |Encode([norm], SymbolOps(src)).bits| <= 12 * |src|
  {
    hide Encode, Normalized;
    CoveredOps(norm, src);
    assert Pow2(0) == 1;
    EncodedWidth([norm], SymbolOps(src), ANS_LOG);
  }

  //////////////////////////////////////////////////////////////////////////////
  // Decoder
  //////////////////////////////////////////////////////////////////////////////

  /** `n` decoder steps from state `x` at stream position `t`: the bytes and the end position. */
  ghost function Run(norm: seq<nat>, stream: seq<bool>, t: nat, x: nat, n: nat): (r: (seq<Byte>, nat))
    requires Normalized(norm) && x < ANS_L
    ensures |r.0| == n
    decreases n
  {
    if n == 0 then ([], t)
    else
      var e := DecTable(norm)[x];
      NextStateInRange(norm, x, stream, t);
      var (rest, end) := Run(norm, stream, t + e.nbits, NextState(e, stream, t), n - 1);
      ([e.symbol] + rest, end)
  }

  /** The bytes a reader has used after `t` bits, not counting whole bytes read ahead. */
  function BytesUsed(t: nat, len: nat): nat {
    var k := (t + 7) / 8;
    if k <= len then k else len
  }

  /** `vva_decode` on every input. */
  ghost function DecodeSingle(src: seq<Byte>, dstCap: nat, num: nat): (r: DecodeResult)
    ensures r.Decoded? ==> |r.dst| == num
  {
    if num == 0 then Decoded([], 0)
    else if num > dstCap then DecodeFailed(Overflow)
    else
      match ReadHeader(src)
      case BadHeader => DecodeFailed(Corrupt)
      case GoodHeader(norm, h) =>
        if Sum(norm) != ANS_L then DecodeFailed(Corrupt)
        else if PresentCount(norm, NSYM) == 1 then
          Decoded(Repeat(OnlySymbol(norm), num), h)
        else DecodeBody(norm, src, h, num)
  }

  function Repeat(b: Byte, n: nat): (r: seq<Byte>)
    ensures |r| == n && forall i :: 0 <= i < n ==> r[i] == b
  {
    if n == 0 then [] else [b] + Repeat(b, n - 1)
  }

  ghost function OnlySymbol(norm: seq<nat>): Byte
    requires Normalized(norm)
  {
    NormalizedShape(norm);
    LastPresent(norm, NSYM) - 1
  }

  ghost function DecodeBody(norm: seq<nat>, src: seq<Byte>, h: nat, num: nat): DecodeResult
    requires Normalized(norm) && h <= |src|
  {
    if h + 2 > |src| then DecodeFailed(Corrupt)
    else
      var x := FromLe16(src[h], src[h + 1]);
      if x >= ANS_L then DecodeFailed(Corrupt)
      else
        var (dst, t) := Run(norm, ByteBits(src[h + 2..]), 0, x, num);
        Decoded(dst, h + 2 + BytesUsed(t, |src| - h - 2))
  }

  /** Running the decoder over an encoded run returns the source and stops after its last bit. */
  lemma {:induction false} RunInverse(norm: seq<nat>, src: seq<Byte>, stream: seq<bool>, t: nat)
    requires Covers(norm, src) && AllEncodable([norm], SymbolOps(src))
    requires Ahead(stream, t, Encode([norm], SymbolOps(src)).bits)
    ensures var c := Encode([norm], SymbolOps(src));
            Run(norm, stream, t, c.states[0], |src|) == (src, t + |c.bits|)
    decreases |src|
  {
    hide DecTable, Normalized, Window, Encode, Ahead, NextState, Run;
    var ops := SymbolOps(src);
    var c := Encode([norm], ops);
    assert ValidState([norm][0], c.states[0]);
    RunStep(norm, stream, t, c.states[0], |src|);
    if src == [] {
      EncodedEmpty([norm]);
    } else {
      var e := Lookup([norm], c, 0);
      assert ops[1..] == SymbolOps(src[1..]);
      CoveredOps(norm, src[1..]);
      var c' := Encode([norm], SymbolOps(src[1..]));
      assert ValidState([norm][0], c'.states[0]);
      DecodeOne([norm], ops, stream, t);
      RunInverse(norm, src[1..], stream, t + e.nbits);
      assert src == [src[0]] + src[1..];
    }
  }

  /** The single-stream coder round-trips: decoding an encoding, whatever bytes follow it, returns
      the source and reports exactly the encoding's length despite the reader's look-ahead. */
  lemma SingleRoundTrip(src: seq<Byte>, bytes: seq<Byte>, rest: seq<Byte>, dstCap: nat)
    requires src != [] && |src| <= dstCap && Encodes(src, bytes)
    ensures DecodeSingle(bytes + rest, dstCap, |src|) == Decoded(src, |bytes|)
  {
    hide Sum, Normalized, Encode, Header, ReadHeader, Run, Covers, PresentCount, OnlySymbol, EncodesBody, DecodeBody;
    var norm :| EncodesWith(norm, src, bytes);
    assert Normalized(norm) && Sum(norm) == ANS_L by { CoversNormalized(norm, src); }
    var h := Header(norm);
    var input := bytes + rest;
    assert h <= bytes by { HeaderPrefix(norm, src, bytes); }
    assert input == h + (bytes[|h|..] + rest);
    HeaderRoundTrip(norm, bytes[|h|..] + rest);
    if PresentCount(norm, NSYM) == 1 {
      AllOnlySymbol(norm, src);
    } else {
      BodyRoundTrip(norm, src, bytes, rest);
    }
  }

  lemma CoversNormalized(norm: seq<nat>, src: seq<Byte>)
    requires Covers(norm, src)
    ensures Normalized(norm) && Sum(norm) == ANS_L
  {
  }

  lemma HeaderPrefix(norm: seq<nat>, src: seq<Byte>, bytes: seq<Byte>)
    requires EncodesWith(norm, src, bytes)
    ensures Header(norm) <= bytes
  {
    hide Encode, Header, Le16, ByteBits, PresentCount, Covers;
    var h := Header(norm);
    if PresentCount(norm, NSYM) != 1 {
      assert bytes[..|h|] == h;
    }
  }

  lemma AllOnlySymbol(norm: seq<nat>, src: seq<Byte>)
    requires Covers(norm, src) && PresentCount(norm, NSYM) == 1
    ensures Repeat(OnlySymbol(norm), |src|) == src
  {
    NormalizedShape(norm);
    OnlyOne(norm, OnlySymbol(norm), NSYM);
  }

  lemma BodyRoundTrip(norm: seq<nat>, src: seq<Byte>, bytes: seq<Byte>, rest: seq<Byte>)
    requires EncodesWith(norm, src, bytes) && Normalized(norm) && PresentCount(norm, NSYM) != 1
    ensures DecodeBody(norm, bytes + rest, |Header(norm)|, |src|) == Decoded(src, |bytes|)
  {
    hide Sum, Normalized, Encode, Header, Run, Covers, PresentCount, ByteBits, Le16, FromLe16;
    var h := |Header(norm)|;
    var c := Encode([norm], SymbolOps(src));
    var input := bytes + rest;
    assert ValidState([norm][0], c.states[0]);
    var two := bytes[h..h + 2];
    assert input[h] == two[0] && input[h + 1] == two[1];
    Le16RoundTrip(c.states[0]);
    assert input[h + 2..] == bytes[h + 2..] + rest;
    ByteBitsAppend(bytes[h + 2..], rest);
    var stream := ByteBits(input[h + 2..]);
    assert stream[0..] == stream;
    RunInverse(norm, src, stream, 0);
  }

  /** The decoder's loop over a table, a bit reader and the destination buffer. */
  method DecodeLoop(norm: seq<nat>, dec: array<Entry>, r: BitReader, x0: nat, dst: array<Byte>, num: nat)
    requires Normalized(norm) && dec.Length == ANS_L && dec[..] == DecTable(norm)
    requires r.Valid() && r.Consumed() == 0 && x0 < ANS_L && num <= dst.Length
    modifies r, dst
    ensures r.Valid()
    ensures (dst[..num], r.Consumed()) == Run(norm, ByteBits(r.src), 0, x0, num)
    ensures dst[num..] == old(dst[num..])
  {
    hide DecTable, Normalized, Window, ByteBits, Run;
    ghost var stream := ByteBits(r.src);
    ghost var table := dec[..];
    ghost var goal := Run(norm, stream, 0, x0, num);
    var state: nat := x0;
    r.Fill();
    assert dst[..0] + goal.0 == goal.0;
    for i := 0 to num
      invariant r.Valid() && state < ANS_L
      invariant dec[..] == table
      invariant dst[num..] == old(dst[num..])
      invariant goal == Prepend(dst[..i], Run(norm, stream, r.Consumed(), state, num - i))
    {
      if r.n < ANS_LOG {
        r.Fill();
      }
      var e := dec[state];
      assert e == DecTable(norm)[state];
      NextStateInRange(norm, state, stream, r.Consumed());
      RunStep(norm, stream, r.Consumed(), state, num - i);
      ghost var before := dst[..i];
      ghost var rest := Run(norm, stream, r.Consumed() + e.nbits, NextState(e, stream, r.Consumed()), num - i - 1);
      dst[i] := e.symbol;
      assert dst[..i + 1] == before + [e.symbol];
      PrependTwice(before, [e.symbol], rest);
      var bits := r.Take(e.nbits);
      state := e.baseline + bits;
    }
    RunStep(norm, stream, r.Consumed(), state, 0);
    assert dst[..num] + [] == dst[..num];
  }

  ghost function Prepend(a: seq<Byte>, r: (seq<Byte>, nat)): (seq<Byte>, nat) {
    (a + r.0, r.1)
  }

  lemma PrependTwice(a: seq<Byte>, b: seq<Byte>, r: (seq<Byte>, nat))
    ensures Prepend(a, Prepend(b, r)) == Prepend(a + b, r)
  {
    AppendAssociative(a, b, r.0);
  }

  lemma RunStep(norm: seq<nat>, stream: seq<bool>, t: nat, x: nat, n: nat)
    requires Normalized(norm) && x < ANS_L
    ensures n == 0 ==> Run(norm, stream, t, x, n) == ([], t)
    ensures n > 0 ==>
              var e := DecTable(norm)[x];
              && NextState(e, stream, t) < ANS_L
              && Run(norm, stream, t, x, n) ==
                 Prepend([e.symbol], Run(norm, stream, t + e.nbits, NextState(e, stream, t), n - 1))
  {
    hide DecTable, NextState;
    NextStateInRange(norm, x, stream, t);
  }

  /** `validated_symbol_count`: 0 unless the frequencies fill the table. */
  method ValidatedSymbolCount(norm: array<nat>) returns (count: nat, single: int)
    requires norm.Length == NSYM
    ensures count == if Sum(norm[..]) == ANS_L then PresentCount(norm[..], NSYM) else 0
    ensures single == LastPresent(norm[..], NSYM) - 1
  {
    hide Sum, Cum;
    ghost var f := norm[..];
    var total := 0;
    count, single := 0, -1;
    CumStart(f);
    for i := 0 to NSYM
      invariant total == Cum(f, i) && count == PresentCount(f, i) && single == LastPresent(f, i) - 1
    {
      CumStep(f, i);
      total := total + norm[i];
      if norm[i] > 0 {
        count := count + 1;
        single := i;
      }
    }
    CumEnd(f);
    if total != ANS_L {
      count := 0;
    }
  }

  /** `vva_decode`. On failure only the destination's first `num` bytes may have changed. */
  method VvaDecode(src: seq<Byte>, dst: array<Byte>, num: nat) returns (status: Status, consumed: nat)
    modifies dst
    ensures DecodeSingle(src, dst.Length, num).DecodeFailed? ==>
              status == Fail(DecodeSingle(src, dst.Length, num).error)
    ensures DecodeSingle(src, dst.Length, num).Decoded? ==>
              status == Ok && DecodeSingle(src, dst.Length, num) == Decoded(dst[..num], consumed)
    ensures num <= dst.Length ==> dst[num..] == old(dst[num..])
  {
    hide Sum, DecTable, ReadHeader, Run, PresentCount, ByteBits, FromLe16;
    consumed := 0;
    if num == 0 {
      assert dst[..0] == [];
      return Ok, 0;
    }
    if num > dst.Length {
      return Fail(Overflow), 0;
    }
    var norm := new nat[NSYM](_ => 0);
    var h := ReadHeaderInto(src, norm);
    if h == 0 {
      return Fail(Corrupt), 0;
    }
    var np, single := ValidatedSymbolCount(norm);
    if np == 0 {
      EmptyTable(norm[..]);
      return Fail(Corrupt), 0;
    }
    if np == 1 {
      FillWith(dst, single, num);
      assert dst[..num] == Repeat(OnlySymbol(norm[..]), num);
      return Ok, h;
    }
    var dec := new Entry[ANS_L](_ => Entry(0, 0, 0));
    BuildDecDirect(norm[..], dec);
    if h + 2 > |src| {
      return Fail(Corrupt), 0;
    }
    var state := FromLe16(src[h], src[h + 1]);
    if state >= ANS_L {
      return Fail(Corrupt), 0;
    }
    var r := new BitReader(src[h + 2..]);
    DecodeLoop(norm[..], dec, r, state, dst, num);
    consumed := h + 2 + r.p;
    if r.n >= 8 {
      consumed := consumed - r.n / 8;
    }
    LookAhead(r.p, r.n, |src| - h - 2);
    status := Ok;
  }

  lemma EmptyTable(norm: seq<nat>)
    requires |norm| == NSYM && (if Sum(norm) == ANS_L then PresentCount(norm, NSYM) else 0) == 0
    ensures Sum(norm) != ANS_L
  {
    if Sum(norm) == ANS_L {
      PositiveSum(norm);
    }
  }

  method FillWith(dst: array<Byte>, b: Byte, num: nat)
    requires num <= dst.Length
    modifies dst
    ensures forall i :: 0 <= i < num ==> dst[i] == b
    ensures dst[num..] == old(dst[num..])
  {
    for i := 0 to num
      invariant forall j :: 0 <= j < i ==> dst[j] == b
      invariant dst[num..] == old(dst[num..])
    {
      dst[i] := b;
    }
  }

  /** Giving back the whole bytes still buffered leaves the rounded-up bit count. */
  lemma LookAhead(p: nat, n: int, len: nat)
    requires p <= len && n <= 8 * p && n <= 64
    requires n < 0 ==> p == len
    ensures BytesUsed(8 * p - n, len) == p - (if n >= 8 then n / 8 else 0)
  {
  }
}
