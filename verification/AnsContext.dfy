/** The order-1 context coder (`vva_encode_ctx`, `vva_decode_ctx`, src/vv_ans.c): 256 tables and
    256 states, each step's table and state chosen by the byte before it. */
module AnsContext {
  import opened AnsBuild
  import opened AnsCoder
  import opened AnsEncode
  import opened AnsHeader
  import opened AnsSingle
  import opened AnsTables
  import opened Arith
  import opened BitIo
  import opened Bits
  import opened Bytes
  import opened Normalize

  const CTX_MIN_OBS: nat := 16

  /** The content of a context-coded block: one table and one state per context, and the shared
      bitstream. */
  datatype CtxImage = CtxImage(tables: seq<seq<nat>>, states: seq<nat>, bs: seq<Byte>)

  //////////////////////////////////////////////////////////////////////////////
  // Encoder
  //////////////////////////////////////////////////////////////////////////////

  /** `prev_ctx`: the byte before position `i`, 0 at the start. */
  function Context(src: seq<Byte>, i: nat): Byte
    requires i < |src|
  {
    if i == 0 then 0 else src[i - 1]
  }

  /** The operations of `src` when the byte before it is `prev`. */
  function ContextOps(prev: Byte, src: seq<Byte>): (ops: seq<Op>)
    ensures |ops| == |src|
    decreases |src|
  {
    if src == [] then [] else [Sym(prev, src[0])] + ContextOps(src[0], src[1..])
  }

  lemma {:induction false} ContextOpsAt(prev: Byte, src: seq<Byte>, i: nat)
    requires i < |src|
    ensures ContextOps(prev, src)[i] == Sym(if i == 0 then prev else src[i - 1], src[i])
    decreases |src|
  {
    if i > 0 {
      ContextOpsAt(src[0], src[1..], i - 1);
    }
  }

  /** How often `s` follows context `c` among the first `n` bytes. */
  ghost function Follows(src: seq<Byte>, n: nat, c: nat, s: nat): nat
    requires n <= |src|
  {
    if n == 0 then 0
    else Follows(src, n - 1, c, s) + (if Context(src, n - 1) == c && src[n - 1] == s then 1 else 0)
  }

  lemma {:induction false} FollowsMonotone(src: seq<Byte>, m: nat, n: nat, c: nat, s: nat)
    requires m <= n <= |src|
    ensures Follows(src, m, c, s) <= Follows(src, n, c, s)
    decreases n
  {
    if m < n {
      FollowsMonotone(src, m, n - 1, c, s);
    }
  }

  ghost predicate Image(img: CtxImage, src: seq<Byte>) {
    && |img.tables| == NSYM
    && AllEncodable(img.tables, ContextOps(0, src))
    && (forall c :: 0 <= c < NSYM ==> Normalized(img.tables[c]))
    && var coded := Encode(img.tables, ContextOps(0, src));
       && img.states == coded.states
       && coded.bits <= ByteBits(img.bs)
       && |img.bs| == (|coded.bits| + 7) / 8
  }

  ghost predicate RowOf(src: seq<Byte>, c: nat, row: seq<nat>) {
    |row| == NSYM && Sum(row) <= |src| && forall s :: 0 <= s < NSYM ==> row[s] == Follows(src, |src|, c, s)
  }

  /** The histogram rows: row `c` counts the bytes that follow context `c`. */
  method CountPairs(src: seq<Byte>) returns (hist: seq<seq<nat>>)
    ensures |hist| == NSYM
    ensures forall c :: 0 <= c < NSYM ==> RowOf(src, c, hist[c])
  {
    hide Sum;
    var rows: seq<array<nat>> := [];
    for c := 0 to NSYM
      invariant |rows| == c
      invariant forall d :: 0 <= d < c ==> fresh(rows[d]) && rows[d].Length == NSYM
      invariant forall d, e :: 0 <= d < e < c ==> rows[d] != rows[e]
      invariant forall d, s :: 0 <= d < c && 0 <= s < NSYM ==> rows[d][s] == 0
    {
      var row := new nat[NSYM](_ => 0);
      rows := rows + [row];
    }
    forall c | 0 <= c < NSYM
      ensures Sum(rows[c][..]) == 0
    {
      ZeroSum(rows[c][..]);
    }
    var prev: Byte := 0;
    for i := 0 to |src|
      invariant prev == if i == 0 then 0 else src[i - 1]
      invariant forall c, s :: 0 <= c < NSYM && 0 <= s < NSYM ==> rows[c][s] == Follows(src, i, c, s)
      invariant forall c :: 0 <= c < NSYM ==> Sum(rows[c][..]) <= i
    {
      var cur := src[i];
      SumUpdate(rows[prev][..], cur, rows[prev][cur] + 1);
      BumpRow(rows, prev, cur);
      prev := cur;
    }
    hist := [];
    for c := 0 to NSYM
      invariant |hist| == c
      invariant forall d :: 0 <= d < c ==> hist[d] == rows[d][..]
    {
      hist := hist + [rows[c][..]];
    }
  }

  method BumpRow(rows: seq<array<nat>>, c: nat, s: nat)
    requires |rows| == NSYM && c < NSYM && s < NSYM
    requires forall d :: 0 <= d < NSYM ==> rows[d].Length == NSYM
    requires forall d, e :: 0 <= d < e < NSYM ==> rows[d] != rows[e]
    modifies rows[c]
    ensures rows[c][..] == old(rows[c][..])[s := old(rows[c][s]) + 1]
    ensures forall d :: 0 <= d < NSYM && d != c ==> rows[d][..] == old(rows[d][..])
  {
    rows[c][s] := rows[c][s] + 1;
  }

  /** Every byte of the source has a positive frequency in the table of its context. */
  ghost predicate CoversContexts(tables: seq<seq<nat>>, src: seq<Byte>) {
    && |tables| == NSYM
    && (forall c :: 0 <= c < NSYM ==> Normalized(tables[c]))
    && forall i :: 0 <= i < |src| ==> tables[Context(src, i)][src[i]] > 0
  }

  /** Inherited contexts have the global table. */
  ghost predicate Shares(tables: seq<seq<nat>>, inherited: seq<bool>, global: seq<nat>) {
    && |tables| == |inherited| == NSYM && Normalized(global)
    && forall c :: 0 <= c < NSYM && inherited[c] ==> tables[c] == global
  }

  /** How often each byte follows context `c`. */
  ghost function RowCounts(src: seq<Byte>, c: nat): (row: seq<nat>)
    ensures |row| == NSYM
  {
    seq(NSYM, s requires 0 <= s < NSYM => Follows(src, |src|, c, s))
  }

  /** Context `c` has the table its row is given, or the global one if it was seen too rarely. */
  ghost predicate RowTabled(src: seq<Byte>, c: nat, table: seq<nat>, inherited: bool) {
    && (inherited <==> Sum(RowCounts(src, c)) < CTX_MIN_OBS)
    && (!inherited ==> Sum(RowCounts(src, c)) > 0 && Apportioned(RowCounts(src, c), table))
  }

  /** The tables are ones the normalization may give the source and its contexts. */
  ghost predicate ContextsTabled(src: seq<Byte>, tables: seq<seq<nat>>, inherited: seq<bool>, global: seq<nat>) {
    && |tables| == |inherited| == NSYM && Tabled(src, global)
    && forall c :: 0 <= c < NSYM ==> RowTabled(src, c, tables[c], inherited[c])
  }

  lemma RowDone(src: seq<Byte>, c: nat, row: seq<nat>, table: seq<nat>, inherited: bool)
    requires |row| == NSYM && forall s :: 0 <= s < NSYM ==> row[s] == Follows(src, |src|, c, s)
    requires inherited <==> Sum(row) < CTX_MIN_OBS
    requires !inherited ==> Sum(row) > 0 && Apportioned(row, table)
    ensures RowTabled(src, c, table, inherited)
  {
    assert row == RowCounts(src, c);
  }

  method ChooseRow(src: seq<Byte>, c: nat, row: seq<nat>, global: seq<nat>) returns (table: seq<nat>, inherits: bool)
    requires |src| <= 0x8000_0000 && c < NSYM && RowOf(src, c, row) && Covers(global, src)
    ensures Normalized(table) && (inherits ==> table == global) && RowTabled(src, c, table, inherits)
    ensures forall i :: 0 <= i < |src| && Context(src, i) == c ==> table[src[i]] > 0
  {
    hide Sum, Normalized, Follows, Apportioned, RowTabled;
    var rowTotal := RowTotal(row);
    if rowTotal >= CTX_MIN_OBS {
      var own, ownNp := NormalizeFreq(row);
      table, inherits := own[..], false;
      RowCovers(src, row, table, c);
    } else {
      GlobalCovers(src, global);
      table, inherits := global, true;
    }
    RowDone(src, c, row, table, inherits);
  }

  /** Rows with enough observations get their own table, the others inherit the global one. */
  method ChooseTables(src: seq<Byte>) returns (tables: seq<seq<nat>>, inherited: seq<bool>, global: seq<nat>)
    requires 0 < |src| <= 0x8000_0000
    ensures CoversContexts(tables, src) && Shares(tables, inherited, global)
    ensures ContextsTabled(src, tables, inherited, global)
  {
    hide Sum, Normalized, Follows, CoversFirst, Apportioned, RowTabled;
    var hist := CountPairs(src);
    var raw := CountBytes(src);
    var norm, np := NormalizeFreq(raw[..]);
    global := norm[..];
    assert raw[..] == CountsOf(src);
    assert Tabled(src, global);
    HistogramCovers(raw[..], global, src);
    GlobalCovers(src, global);
    tables, inherited := [], [];
    CoversNone(src);
    for c := 0 to NSYM
      invariant |tables| == |inherited| == c
      invariant forall d :: 0 <= d < c && inherited[d] ==> tables[d] == global
      invariant forall d :: 0 <= d < c ==> RowTabled(src, d, tables[d], inherited[d])
      invariant CoversFirst(tables, src)
    {
      assert RowOf(src, c, hist[c]);
      var table, inherits := ChooseRow(src, c, hist[c], global);
      CoversNext(tables, src, table);
      tables, inherited := tables + [table], inherited + [inherits];
    }
    CoversEvery(tables, src);
  }

  /** The first contexts' tables are usable and cover the bytes seen in those contexts. */
  ghost predicate CoversFirst(tables: seq<seq<nat>>, src: seq<Byte>) {
    && (forall c :: 0 <= c < |tables| ==> Normalized(tables[c]))
    && forall i :: 0 <= i < |src| && Context(src, i) < |tables| ==> tables[Context(src, i)][src[i]] > 0
  }

  lemma CoversNone(src: seq<Byte>)
    ensures CoversFirst([], src)
  {
  }

  lemma CoversNext(tables: seq<seq<nat>>, src: seq<Byte>, norm: seq<nat>)
    requires CoversFirst(tables, src) && Normalized(norm)
    requires forall i :: 0 <= i < |src| && Context(src, i) == |tables| ==> norm[src[i]] > 0
    ensures CoversFirst(tables + [norm], src)
  {
    hide Sum;
  }

  lemma CoversEvery(tables: seq<seq<nat>>, src: seq<Byte>)
    requires CoversFirst(tables, src) && |tables| == NSYM
    ensures CoversContexts(tables, src)
  {
    hide Normalized;
  }

  method RowTotal(row: seq<nat>) returns (total: nat)
    ensures total == Sum(row)
  {
    hide Sum, Cum;
    total := 0;
    CumStart(row);
    for s := 0 to |row|
      invariant total == Cum(row, s)
    {
      CumStep(row, s);
      total := total + row[s];
    }
    CumEnd(row);
  }

  lemma RowCovers(src: seq<Byte>, row: seq<nat>, norm: seq<nat>, c: nat)
    requires |row| == NSYM && Sum(row) > 0 && Apportioned(row, norm)
    requires forall s :: 0 <= s < NSYM ==> row[s] == Follows(src, |src|, c, s)
    ensures |norm| == NSYM
    ensures forall i :: 0 <= i < |src| && Context(src, i) == c ==> norm[src[i]] > 0
  {
    hide Sum, Bases, Remainders, LargestRemainders;
    forall i | 0 <= i < |src| && Context(src, i) == c
      ensures norm[src[i]] > 0
    {
      FollowsMonotone(src, i + 1, |src|, c, src[i]);
    }
  }

  lemma GlobalCovers(src: seq<Byte>, norm: seq<nat>)
    requires Covers(norm, src)
    ensures |norm| == NSYM && Normalized(norm) && forall i :: 0 <= i < |src| ==> norm[src[i]] > 0
  {
  }

  lemma ContextsEncodable(tables: seq<seq<nat>>, src: seq<Byte>)
    requires CoversContexts(tables, src)
    ensures AllEncodable(tables, ContextOps(0, src))
    ensures forall i :: 0 <= i < |src| ==> InRange(tables, ContextOps(0, src)[i]) && ContextOps(0, src)[i].Sym?
  {
    hide Normalized;
    forall i | 0 <= i < |src|
      ensures Encodable(tables, ContextOps(0, src)[i]) && InRange(tables, ContextOps(0, src)[i]) && ContextOps(0, src)[i].Sym?
    {
      ContextOpsAt(0, src, i);
    }
  }

  /** The encode tables; inherited contexts share the global one. */
  method BuildContexts(tables: seq<seq<nat>>) returns (encs: seq<EncCtx>)
    requires |tables| == NSYM && forall c :: 0 <= c < NSYM ==> Normalized(tables[c])
    ensures AllReady(tables, encs)
  {
    hide Normalized, EncTable, Cum;
    encs := [];
    for c := 0 to NSYM
      invariant |encs| == c
      invariant forall d :: 0 <= d < c ==> Ready(tables[d], encs[d])
    {
      var e := BuildAll(tables[c]);
      encs := encs + [e];
    }
  }

  lemma AnyWidths(tables: seq<seq<nat>>, ops: seq<Op>)
    requires AllEncodable(tables, ops) && forall i :: 0 <= i < |ops| ==> ops[i].Sym?
    ensures |Encode(tables, ops).bits| <= 12 * |ops|
  {
    hide Encode, Sum;
    assert Pow2(0) == 1;
    assert forall i :: 0 <= i < |ops| ==> Encodable(tables, ops[i]);
    EncodedWidth(tables, ops, ANS_LOG);
  }

  /** `vva_encode_ctx`: histogram, tables, backward pass over 256 states, forward write. */
  method EncodeContexts(src: seq<Byte>) returns (img: CtxImage, inherited: seq<bool>, global: seq<nat>)
    requires 0 < |src| <= 0x8000_0000
    ensures Image(img, src) && Shares(img.tables, inherited, global) && ContextsTabled(src, img.tables, inherited, global)
  {
    hide Sum, Normalized, Encode, PairBits, ByteBits, AllReady, Ready, CoversContexts, ContextsTabled;
    var tables;
    tables, inherited, global := ChooseTables(src);
    ContextsEncodable(tables, src);
    assert |tables| == NSYM && forall c :: 0 <= c < NSYM ==> Normalized(tables[c]) by { CoveredTables(tables, src); }
    var encs := BuildContexts(tables);
    var ops := ContextOps(0, src);
    var states, pairs, ok := BackwardEncode(tables, encs, ops);
    AnyWidths(tables, ops);
    var buf, len := WritePairs(pairs, (|src| * 15 + 7) / 8 + 16);
    img := CtxImage(tables, states[..], buf[..len]);
  }

  lemma CoveredTables(tables: seq<seq<nat>>, src: seq<Byte>)
    requires CoversContexts(tables, src)
    ensures |tables| == NSYM && forall c :: 0 <= c < NSYM ==> Normalized(tables[c])
  {
  }

  //////////////////////////////////////////////////////////////////////////////
  // Decoder
  //////////////////////////////////////////////////////////////////////////////

  datatype CtxResult = CtxFail | CtxDone(bytes: seq<Byte>, end: nat)

  ghost function Prefixed(b: Byte, r: CtxResult): CtxResult {
    match r
    case CtxFail => CtxFail
    case CtxDone(bytes, end) => CtxDone([b] + bytes, end)
  }

  ghost predicate CtxTables(tables: seq<seq<nat>>) {
    |tables| == NSYM && forall c :: 0 <= c < NSYM ==> Normalized(tables[c])
  }

  /** `n` decoder steps with context `prev`, from stream position `t`. A state out of range, which
      only a corrupt block can hold, fails when its context is first used. */
  ghost function CtxRun(tables: seq<seq<nat>>, states: seq<nat>, stream: seq<bool>, t: nat, prev: Byte, n: nat): CtxResult
    requires CtxTables(tables) && |states| == NSYM
    decreases n
  {
    if n == 0 then CtxDone([], t)
    else if states[prev] >= ANS_L then CtxFail
    else
      var e := DecTable(tables[prev])[states[prev]];
      Prefixed(e.symbol, CtxRun(tables, states[prev := NextState(e, stream, t)], stream, t + e.nbits, e.symbol, n - 1))
  }

  /** `vva_decode_ctx` on every image; `consumed` counts bytes of the bitstream. */
  ghost function DecodeContexts(img: CtxImage, dstCap: nat, num: nat): DecodeResult
    requires |img.tables| == |img.states| == NSYM
  {
    if num == 0 then Decoded([], 0)
    else if num > dstCap then DecodeFailed(Overflow)
    else if !CtxTables(img.tables) then DecodeFailed(Corrupt)
    else
      match CtxRun(img.tables, img.states, ByteBits(img.bs), 0, 0, num)
      case CtxFail => DecodeFailed(Corrupt)
      case CtxDone(bytes, end) => Decoded(bytes, BytesUsed(end, |img.bs|))
  }

  /** Each decoded byte selects the table and state of the next step exactly as the encoder did,
      so the interleaved bits are consumed in step. */
  lemma {:induction false} CtxRunInverse(tables: seq<seq<nat>>, prev: Byte, src: seq<Byte>, stream: seq<bool>, t: nat)
    requires CtxTables(tables) && AllEncodable(tables, ContextOps(prev, src))
    requires Ahead(stream, t, Encode(tables, ContextOps(prev, src)).bits)
    ensures var c := Encode(tables, ContextOps(prev, src));
            CtxRun(tables, c.states, stream, t, prev, |src|) == CtxDone(src, t + |c.bits|)
    decreases |src|
  {
    hide DecTable, Normalized, Window, Encode, Ahead, NextState;
    var ops := ContextOps(prev, src);
    var c := Encode(tables, ops);
    if src == [] {
      EncodedEmpty(tables);
    } else {
      assert ops[1..] == ContextOps(src[0], src[1..]);
      assert ValidState(tables[prev], c.states[prev]);
      var c' := Encode(tables, ops[1..]);
      DecodeOne(tables, ops, stream, t);
      var e := Lookup(tables, c, prev);
      CtxRunInverse(tables, src[0], src[1..], stream, t + e.nbits);
      assert src == [src[0]] + src[1..];
    }
  }

  /** Order-1 context coding round-trips: whatever tables the contexts chose, inherited and
      single-symbol ones included, and whatever bytes follow the bitstream. */
  lemma ContextRoundTrip(src: seq<Byte>, img: CtxImage, rest: seq<Byte>, dstCap: nat)
    requires src != [] && |src| <= dstCap && Image(img, src)
    ensures |img.states| == NSYM
    ensures DecodeContexts(img.(bs := img.bs + rest), dstCap, |src|) == Decoded(src, |img.bs|)
  {
    hide Encode, ByteBits, CtxRun, Normalized;
    var c := Encode(img.tables, ContextOps(0, src));
    ByteBitsAppend(img.bs, rest);
    var stream := ByteBits(img.bs + rest);
    assert stream[0..] == stream;
    CtxRunInverse(img.tables, 0, src, stream, 0);
  }

  /** The per-context decode tables; a table of one symbol is filled directly. */
  method BuildDecoders(tables: seq<seq<nat>>) returns (decs: seq<array<Entry>>)
    requires CtxTables(tables)
    ensures |decs| == NSYM && forall c :: 0 <= c < NSYM ==> decs[c][..] == DecTable(tables[c]) && fresh(decs[c])
  {
    hide Normalized, DecTable, Spread, PresentCount;
    decs := [];
    var sp := new Byte[ANS_L](_ => 0);
    for c := 0 to NSYM
      invariant |decs| == c
      invariant forall d :: 0 <= d < c ==> decs[d][..] == DecTable(tables[d]) && fresh(decs[d])
    {
      assert Normalized(tables[c]);
      var dec := BuildOneDecoder(tables[c], sp);
      decs := decs + [dec];
    }
  }

  method BuildOneDecoder(norm: seq<nat>, sp: array<Byte>) returns (dec: array<Entry>)
    requires Normalized(norm) && sp.Length == ANS_L
    modifies sp
    ensures fresh(dec) && dec[..] == DecTable(norm)
  {
    hide DecTable, Spread, PresentCount;
    var f := new nat[NSYM](i requires 0 <= i < NSYM => norm[i]);
    assert f[..] == norm;
    var np, single := ValidatedSymbolCount(f);
    dec := new Entry[ANS_L](_ => Entry(0, 0, 0));
    if np > 1 {
      SpreadSymbols(norm, sp);
      BuildDec(norm, sp[..], dec);
    } else {
      NormalizedShape(norm);
      for x := 0 to ANS_L
        invariant forall y :: 0 <= y < x ==> dec[y] == Entry(single, 0, 0)
      {
        dec[x] := Entry(single, 0, 0);
      }
      SingleTable(norm, single);
    }
  }

  /** The decode table of one symbol asks for no bits and stays at state 0. */
  lemma SingleTable(norm: seq<nat>, s: nat)
    requires Normalized(norm) && PresentCount(norm, NSYM) == 1 && s < NSYM && norm[s] > 0
    ensures forall x :: 0 <= x < ANS_L ==> DecTable(norm)[x] == Entry(s, 0, 0)
  {
    hide Spread, Count, Sum;
    SingleHeader(norm, s);
    forall x | 0 <= x < ANS_L
      ensures DecTable(norm)[x] == Entry(s, 0, 0)
    {
      SingleSymbol(norm, s, x);
      assert DecTable(norm)[x] == DecEntry(norm, Spread(norm), x);
      OneWindow();
    }
  }

  /** One byte, with the context's table and state. */
  method DecodeContextStep(tables: seq<seq<nat>>, decs: seq<array<Entry>>, states: array<nat>, r: BitReader, prev: Byte, ghost n: nat)
    returns (ok: bool, b: Byte)
    requires CtxTables(tables) && |decs| == states.Length == NSYM && n > 0
    requires forall c :: 0 <= c < NSYM ==> decs[c][..] == DecTable(tables[c])
    requires r.Valid()
    modifies r, states
    ensures r.Valid()
    ensures old(CtxRun(tables, states[..], ByteBits(r.src), r.Consumed(), prev, n)) ==
            if ok then Prefixed(b, CtxRun(tables, states[..], ByteBits(r.src), r.Consumed(), b, n - 1)) else CtxFail
  {
    hide DecTable, Normalized, Window, ByteBits, CtxRun, NextState, Prefixed;
    ghost var stream, was := ByteBits(r.src), states[..];
    CtxRunStep(tables, was, stream, r.Consumed(), prev, n);
    if r.n < ANS_LOG {
      r.Fill();
    }
    var st := states[prev];
    if st >= ANS_L {
      return false, 0;
    }
    var e := decs[prev][st];
    assert e == decs[prev][..][st];
    EntryWidth(tables[prev], st);
    NextStateIs(e, stream, r.Consumed());
    var bits := r.Read(e.nbits);
    var next: nat := e.baseline + bits;
    states[prev] := next;
    assert states[..] == was[prev := next];
    ok, b := true, e.symbol;
  }

  /** The decoder's loop: the context's table and state, then the byte becomes the context. */
  method DecodeContextLoop(tables: seq<seq<nat>>, decs: seq<array<Entry>>, states: array<nat>, r: BitReader,
                           dst: array<Byte>, num: nat) returns (ok: bool)
    requires CtxTables(tables) && |decs| == states.Length == NSYM && num <= dst.Length
    requires forall c :: 0 <= c < NSYM ==> decs[c][..] == DecTable(tables[c])
    requires r.Valid() && r.Consumed() == 0
    modifies r, dst, states
    ensures r.Valid()
    ensures old(CtxRun(tables, states[..], ByteBits(r.src), 0, 0, num)) ==
            if ok then CtxDone(dst[..num], r.Consumed()) else CtxFail
    ensures dst[num..] == old(dst[num..])
  {
    hide DecTable, Normalized, Window, ByteBits, CtxRun, NextState, Prepended, Prefixed;
    ghost var stream := ByteBits(r.src);
    ghost var goal := CtxRun(tables, states[..], stream, 0, 0, num);
    var prevCtx: Byte := 0;
    r.Fill();
    Preface([], goal);
    for i := 0 to num
      invariant r.Valid()
      invariant forall c :: 0 <= c < NSYM ==> decs[c][..] == DecTable(tables[c])
      invariant dst[num..] == old(dst[num..])
      invariant goal == Prepended(dst[..i], CtxRun(tables, states[..], stream, r.Consumed(), prevCtx, num - i))
    {
      var more, b := DecodeContextStep(tables, decs, states, r, prevCtx, num - i);
      ghost var before := dst[..i];
      if !more {
        PrependedFail(before);
        return false;
      }
      PrependedStep(before, b, CtxRun(tables, states[..], stream, r.Consumed(), b, num - i - 1));
      dst[i] := b;
      assert dst[..i + 1] == before + [b];
      prevCtx := b;
    }
    CtxRunStep(tables, states[..], stream, r.Consumed(), prevCtx, 0);
    PrependedEnd(dst[..num], r.Consumed());
    ok := true;
  }

  lemma NextStateIs(e: Entry, stream: seq<bool>, t: nat)
    ensures NextState(e, stream, t) == e.baseline + Val(Window(stream, t, e.nbits))
  {
  }

  lemma EntryWidth(norm: seq<nat>, x: nat)
    requires Normalized(norm) && x < ANS_L
    ensures DecTable(norm)[x].nbits <= ANS_LOG
  {
    NextStateInRange(norm, x, [], 0);
  }

  ghost function Prepended(a: seq<Byte>, r: CtxResult): CtxResult {
    match r
    case CtxFail => CtxFail
    case CtxDone(bytes, end) => CtxDone(a + bytes, end)
  }

  lemma Preface(a: seq<Byte>, r: CtxResult)
    requires a == []
    ensures Prepended(a, r) == r
  {
    if r.CtxDone? {
      assert [] + r.bytes == r.bytes;
    }
  }

  lemma PrependedEnd(a: seq<Byte>, end: nat)
    ensures Prepended(a, CtxDone([], end)) == CtxDone(a, end)
  {
  }

  lemma PrependedFail(a: seq<Byte>)
    ensures Prepended(a, CtxFail) == CtxFail
  {
  }

  lemma PrependedStep(a: seq<Byte>, b: Byte, r: CtxResult)
    ensures Prepended(a, Prefixed(b, r)) == Prepended(a + [b], r)
  {
    if r.CtxDone? {
      AppendAssociative(a, [b], r.bytes);
    }
  }

  lemma CtxRunStep(tables: seq<seq<nat>>, states: seq<nat>, stream: seq<bool>, t: nat, prev: Byte, n: nat)
    requires CtxTables(tables) && |states| == NSYM
    ensures n == 0 ==> CtxRun(tables, states, stream, t, prev, n) == CtxDone([], t)
    ensures n > 0 && states[prev] >= ANS_L ==> CtxRun(tables, states, stream, t, prev, n) == CtxFail
    ensures n > 0 && states[prev] < ANS_L ==>
              var e := DecTable(tables[prev])[states[prev]];
              CtxRun(tables, states, stream, t, prev, n) ==
              Prefixed(e.symbol, CtxRun(tables, states[prev := NextState(e, stream, t)], stream, t + e.nbits, e.symbol, n - 1))
  {
    hide DecTable, NextState, Normalized;
  }

  /** The decoder behind a well-formed header. */
  method DecodeImage(img: CtxImage, dst: array<Byte>, num: nat) returns (ok: bool, used: nat)
    requires CtxTables(img.tables) && |img.states| == NSYM && 0 < num <= dst.Length
    modifies dst
    ensures DecodeContexts(img, dst.Length, num) == if ok then Decoded(dst[..num], used) else DecodeFailed(Corrupt)
    ensures dst[num..] == old(dst[num..])
  {
    hide Sum, DecTable, CtxRun, PresentCount, ByteBits;
    var decs := BuildDecoders(img.tables);
    var states := new nat[NSYM](i requires 0 <= i < NSYM => img.states[i]);
    assert states[..] == img.states;
    var r := new BitReader(img.bs);
    ok := DecodeContextLoop(img.tables, decs, states, r, dst, num);
    used := r.p;
    if r.n >= 8 {
      used := used - r.n / 8;
    }
    LookAhead(r.p, r.n, |img.bs|);
  }
}
