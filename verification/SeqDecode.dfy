/** The sequence decode loop (`vva_decode_sequences_impl`, src/vv_ans.c:2489-3028) over the output
    buffer, with its safe zone and its over-storing copies. */
module SeqDecode {
  import opened AnsBuild
  import opened AnsCoder
  import opened AnsTables
  import opened Arith
  import opened BitIo
  import opened Bits
  import opened Bytes
  import opened Copies
  import opened Lz
  import opened Normalize
  import opened SeqCodec
  import opened SeqCodes

  /** The most bytes one literal run, or one match, can write. */
  const SAFEZONE_MAX_RUN: nat := 65535
  const SAFEZONE_MAX_SEQ_WRITE: nat := 2 * SAFEZONE_MAX_RUN

  /** No code yields a run above SAFEZONE_MAX_RUN, on any stream. */
  lemma RunAtMost(base: seq<nat>, extra: seq<nat>, code: nat, v: nat, top: nat)
    requires Ladder(base, extra) && base[35] + Pow2(extra[35]) <= top + 1
    requires code < 36 && v < Pow2(extra[code])
    ensures LengthOf(base, code, v) <= top
  {
    if code < 35 {
      assert base[code + 1] == base[code] + Pow2(extra[code]);
      if code + 1 < 35 {
        LadderAscends(base, extra, code + 1, 35);
      }
    }
  }

  lemma RunLengthAtMost(b: Block, m: Machine)
    requires BlockOkay(b) && Normalized(b.img.tables[LL]) && |m.x| == 3
    ensures ReadRunLength(b, m).0 <= SAFEZONE_MAX_RUN
  {
    hide ReadCode, ReadExtra, SymbolsBelow, Normalized, Ladder, LlBase, LlExtra, LengthOf, Pow2;
    LadderLl();
    var (code, m1) := ReadCode(b.img.tables[LL], Stream(b), m, LL);
    SymbolInRange(b.img.tables[LL], LL_CODES, m.x[LL] % ANS_L);
    CodeIsSymbol(b.img.tables[LL], Stream(b), m, LL);
    var (extra, m2) := ReadExtra(Stream(b), m1, LlExtra()[code]);
    RunAtMost(LlBase(), LlExtra(), code, extra, SAFEZONE_MAX_RUN);
  }

  lemma MatchLengthAtMost(b: Block, m: Machine)
    requires BlockOkay(b) && IsMlBase(b.base) && Normalized(b.img.tables[ML]) && |m.x| == 3
    ensures 3 <= ReadMatchLength(b, m).0 <= SAFEZONE_MAX_RUN
  {
    hide ReadCode, ReadExtra, SymbolsBelow, Normalized, Ladder, MlBase, MlBaseV2, MlExtra, Pow2;
    LadderMl(b.base);
    var (code, m1) := ReadCode(b.img.tables[ML], Stream(b), m, ML);
    SymbolInRange(b.img.tables[ML], ML_CODES, m.x[ML] % ANS_L);
    CodeIsSymbol(b.img.tables[ML], Stream(b), m, ML);
    var (extra, m2) := ReadExtra(Stream(b), m1, MlExtra()[code]);
    RunAtMost(b.base, MlExtra(), code, extra, SAFEZONE_MAX_RUN);
    if code > 0 {
      LadderAscends(b.base, MlExtra(), 0, code);
    }
  }

  lemma CodeIsSymbol(norm: seq<nat>, stream: seq<bool>, m: Machine, k: nat)
    requires Normalized(norm) && k < |m.x|
    ensures ReadCode(norm, stream, m, k).0 == DecTable(norm)[m.x[k] % ANS_L].symbol
  {
    hide DecTable, NextState;
  }

  //////////////////////////////////////////////////////////////////////////////
  // Copies
  //////////////////////////////////////////////////////////////////////////////

  /** Literals of up to 16 bytes are moved by one 16-byte store when the block has room for it;
      the bytes past the run come from the literals after it or from the buffer's slack. */
  method CopyLiterals(buf: array<Byte>, op: nat, opEnd: nat, litBuf: seq<Byte>, litPos: nat, litLen: nat)
    requires litPos + litLen + 16 <= |litBuf| && op + litLen <= opEnd <= buf.Length
    modifies buf
    ensures buf[..op + litLen] == old(buf[..op]) + litBuf[litPos..litPos + litLen]
    ensures buf[opEnd..] == old(buf[opEnd..])
  {
    ghost var before := buf[..];
    var n := if litLen <= 16 && op + 16 <= opEnd then 16 else litLen;
    StoreBytes(buf, op, litBuf[litPos..litPos + n]);
    AfterStore(before, buf[..], op, litBuf[litPos..litPos + n], litLen, opEnd);
    assert litBuf[litPos..litPos + n][..litLen] == litBuf[litPos..litPos + litLen];
    assert buf[..op + litLen] == buf[..][..op + litLen] && buf[opEnd..] == buf[..][opEnd..];
  }

  /** The match copy: 16- and 8-byte stores where the offset allows, bytes otherwise. */
  method CopyMatch(buf: array<Byte>, op: nat, opEnd: nat, offset: nat, len: nat)
    requires 1 <= offset <= op && 3 <= len && op + len <= opEnd <= buf.Length
    modifies buf
    ensures Copied(old(buf[..]), buf[..], op, offset, len, opEnd)
  {
    hide Copied;
    ghost var before := buf[..];
    if offset >= 16 {
      if 4 <= len <= 16 && op + 16 <= opEnd {
        StoreWide(buf, op, offset, len, 16);
        CopiedWider(before, buf[..], op, offset, len, op + 16, opEnd);
        return;
      } else if len == 3 && op + 16 <= opEnd {
        StoreWide(buf, op, offset, 3, 3);
      } else {
        CopyChunks(buf, op, offset, len, 16);
      }
    } else if offset >= 8 {
      if 4 <= len <= 8 && op + 8 <= opEnd {
        StoreWide(buf, op, offset, len, 8);
        CopiedWider(before, buf[..], op, offset, len, op + 8, opEnd);
        return;
      } else if len <= 8 && op + 8 <= opEnd {
        StoreWide(buf, op, offset, 3, 3);
      } else {
        CopyChunks(buf, op, offset, len, 8);
      }
    } else {
      CopyBytes(buf, op, offset, len);
    }
    CopiedWider(before, buf[..], op, offset, len, op + len, opEnd);
  }

  //////////////////////////////////////////////////////////////////////////////
  // The loop
  //////////////////////////////////////////////////////////////////////////////

  /** One table step of the reader, with the state masked on access. */
  method Step(norm: seq<nat>, dec: array<Entry>, r: BitReader, x: nat, ghost m: Machine, ghost k: nat)
    returns (symbol: Byte, next: nat)
    requires Normalized(norm) && dec.Length == ANS_L && dec[..] == DecTable(norm)
    requires r.Valid() && m.t == r.Consumed() && k < |m.x| && m.x[k] == x
    modifies r
    ensures r.Valid()
    ensures (symbol, Machine(m.x[k := next], r.Consumed())) == ReadCode(norm, ByteBits(r.src), m, k)
  {
    hide DecTable, ByteBits, Window;
    var e := dec[x % ANS_L];
    assert e == dec[..][x % ANS_L];
    NextStateInRange(norm, x % ANS_L, ByteBits(r.src), r.Consumed());
    var bits := r.Read(e.nbits);
    symbol, next := e.symbol, e.baseline + bits;
  }

  method Extra(r: BitReader, nbits: nat, ghost m: Machine) returns (v: nat)
    requires r.Valid() && m.t == r.Consumed() && nbits <= 56
    modifies r
    ensures r.Valid()
    ensures (v, Machine(m.x, r.Consumed())) == ReadExtra(ByteBits(r.src), m, nbits)
  {
    v := r.Read(nbits);
  }

  datatype Outcome = Fine | Bad(error: DecodeError)

  /** Whether the iteration may skip the position-dependent checks: enough history for any legal
      offset, and enough room for the longest run and match. */
  predicate InSafeZone(op: nat, start: nat, cap: nat, maxOffset: nat)
    requires start <= op <= start + cap
  {
    && cap >= SAFEZONE_MAX_SEQ_WRITE
    && (start >= maxOffset || maxOffset - start <= cap)
    && op >= (if start >= maxOffset then start else maxOffset)
    && op <= start + cap - SAFEZONE_MAX_SEQ_WRITE
  }

  /** The decode tables: the match tables alias the literal-length table when there is no match. */
  method BlockTables(img: SeqImage) returns (ll: array<Entry>, of: array<Entry>, ml: array<Entry>)
    requires CheckedImage(img)
    ensures fresh(ll) && fresh(of) && fresh(ml) && ll.Length == of.Length == ml.Length == ANS_L
    ensures |img.lits| > 0 || img.matchCount > 0 ==> ll[..] == DecTable(img.tables[LL])
    ensures img.matchCount > 0 ==> of[..] == DecTable(img.tables[OF]) && ml[..] == DecTable(img.tables[ML])
  {
    hide SymbolsBelow, Normalized, DecTable;
    ll := new Entry[ANS_L](_ => AnsTables.Entry(0, 0, 0));
    if |img.lits| > 0 || img.matchCount > 0 {
      BuildDecDirect(img.tables[LL], ll);
    }
    of, ml := ll, ll;
    if img.matchCount > 0 {
      ml := new Entry[ANS_L](_ => AnsTables.Entry(0, 0, 0));
      of := new Entry[ANS_L](_ => AnsTables.Entry(0, 0, 0));
      BuildDecDirect(img.tables[ML], ml);
      BuildDecDirect(img.tables[OF], of);
    }
  }

  ghost predicate TablesReady(b: Block, ll: array<Entry>, of: array<Entry>, ml: array<Entry>)
    requires BlockOkay(b)
    reads ll, of, ml
  {
    && ll.Length == of.Length == ml.Length == ANS_L
    && (|b.img.lits| > 0 || b.img.matchCount > 0 ==> ll[..] == DecTable(b.img.tables[LL]))
    && (b.img.matchCount > 0 ==> of[..] == DecTable(b.img.tables[OF]) && ml[..] == DecTable(b.img.tables[ML]))
  }

  /** Reads one literal-run length. */
  method TakeRunLength(b: Block, ll: array<Entry>, r: BitReader, x: nat, ghost m: Machine) returns (litLen: nat, next: nat)
    requires BlockOkay(b) && Normalized(b.img.tables[LL]) && ll.Length == ANS_L && ll[..] == DecTable(b.img.tables[LL])
    requires r.Valid() && r.src == b.img.bs && |m.x| == 3 && m.t == r.Consumed() && m.x[LL] == x
    modifies r
    ensures r.Valid()
    ensures (litLen, Machine(m.x[LL := next], r.Consumed())) == ReadRunLength(b, m)
  {
    hide DecTable, ByteBits, ReadCode, ReadExtra, SymbolsBelow, LlBase, LlExtra;
    ExtraWidths();
    SymbolInRange(b.img.tables[LL], LL_CODES, x % ANS_L);
    CodeIsSymbol(b.img.tables[LL], Stream(b), m, LL);
    var code;
    code, next := Step(b.img.tables[LL], ll, r, x, m, LL);
    var extra := Extra(r, LlExtra()[code], Machine(m.x[LL := next], r.Consumed()));
    litLen := LengthOf(LlBase(), code, extra);
  }

  lemma ExtraWidths()
    ensures forall c: nat :: c < 36 ==> LlExtra()[c] <= 56 && MlExtra()[c] <= 56
  {
  }

  method TakeOffset(b: Block, of: array<Entry>, r: BitReader, x: nat, rep: Rep, ghost m: Machine) returns (offset: nat, next: nat)
    requires BlockOkay(b) && Normalized(b.img.tables[OF]) && of.Length == ANS_L && of[..] == DecTable(b.img.tables[OF])
    requires r.Valid() && r.src == b.img.bs && |m.x| == 3 && m.t == r.Consumed() && m.x[OF] == x
    modifies r
    ensures r.Valid()
    ensures (offset, Machine(m.x[OF := next], r.Consumed())) == ReadOffsetCode(b, m, rep)
  {
    hide DecTable, ByteBits, ReadCode, ReadExtra, SymbolsBelow;
    SymbolInRange(b.img.tables[OF], OF_CODES, x % ANS_L);
    CodeIsSymbol(b.img.tables[OF], Stream(b), m, OF);
    var code;
    code, next := Step(b.img.tables[OF], of, r, x, m, OF);
    var extra := Extra(r, OfExtra(code), Machine(m.x[OF := next], r.Consumed()));
    offset := ResolveOffset(rep, code, extra);
  }

  method TakeMatchLength(b: Block, ml: array<Entry>, r: BitReader, x: nat, ghost m: Machine) returns (len: nat, next: nat)
    requires BlockOkay(b) && Normalized(b.img.tables[ML]) && ml.Length == ANS_L && ml[..] == DecTable(b.img.tables[ML])
    requires r.Valid() && r.src == b.img.bs && |m.x| == 3 && m.t == r.Consumed() && m.x[ML] == x
    modifies r
    ensures r.Valid()
    ensures (len, Machine(m.x[ML := next], r.Consumed())) == ReadMatchLength(b, m)
  {
    hide DecTable, ByteBits, ReadCode, ReadExtra, SymbolsBelow, MlExtra;
    ExtraWidths();
    SymbolInRange(b.img.tables[ML], ML_CODES, x % ANS_L);
    CodeIsSymbol(b.img.tables[ML], Stream(b), m, ML);
    var code;
    code, next := Step(b.img.tables[ML], ml, r, x, m, ML);
    var extra := Extra(r, MlExtra()[code], Machine(m.x[ML := next], r.Consumed()));
    len := LengthOf(b.base, code, extra);
  }

  /** The always-checking loop, unfolded once: the literal half of an iteration. */
  lemma LoopHalf(b: Block, st: Loop, iters: nat)
    requires BlockOkay(b) && InLoop(b, st)
    requires st.litPos < |b.img.lits| || st.matched < b.img.matchCount
    ensures Normalized(b.img.tables[LL])
    ensures iters + 1 > MaxIters(b) ==> SeqLoop(b, st, iters) == SeqError(Corrupt)
    ensures iters + 1 <= MaxIters(b) ==>
              var (litLen, m1) := ReadRunLength(b, st.m);
              && (litLen > |b.img.lits| - st.litPos ==> SeqLoop(b, st, iters) == SeqError(Corrupt))
              && (litLen <= |b.img.lits| - st.litPos && litLen > b.limit - |st.out| ==>
                    SeqLoop(b, st, iters) == SeqError(Overflow))
              && (litLen <= |b.img.lits| - st.litPos && litLen <= b.limit - |st.out| ==>
                    SeqLoop(b, st, iters) == MatchHalf(b, Halfway(b, st, litLen, m1), iters))
  {
    hide ReadRunLength, ReadOffsetCode, ReadMatchLength, SymbolsBelow, Normalized, Copy;
  }

  /** The state between the literal run and the match. */
  ghost function Halfway(b: Block, st: Loop, litLen: nat, m1: Machine): Loop
    requires st.litPos + litLen <= |b.img.lits|
  {
    Loop(m1, st.litPos + litLen, st.matched, st.rep, st.out + b.img.lits[st.litPos..st.litPos + litLen])
  }

  /** The second half of an iteration: no match left, or one match with all its checks. */
  ghost function MatchHalf(b: Block, st: Loop, iters: nat): SeqResult
    requires BlockOkay(b) && InLoop(b, st)
  {
    if st.matched >= b.img.matchCount then SeqLoop(b, st, iters + 1)
    else
      var (offset, m2) := ReadOffsetCode(b, st.m, st.rep);
      var (len, m3) := ReadMatchLength(b, m2);
      if offset == 0 || offset > b.maxOffset || offset > |st.out| then SeqError(Corrupt)
      else if len > b.limit - |st.out| then SeqError(Overflow)
      else SeqLoop(b, AfterCopy(st, offset, len, m3), iters + 1)
  }

  ghost function AfterCopy(st: Loop, offset: nat, len: nat, m3: Machine): Loop
    requires 1 <= offset <= |st.out|
  {
    Loop(m3, st.litPos, st.matched + 1, PushRep(st.rep, offset), Copy(st.out, offset, len))
  }

  ghost function Result(o: Outcome, out: seq<Byte>): SeqResult {
    match o
    case Fine => SeqOk(out)
    case Bad(e) => SeqError(e)
  }

  lemma NoMatchHalf(b: Block, st: Loop, iters: nat)
    requires BlockOkay(b) && InLoop(b, st) && st.matched >= b.img.matchCount
    ensures MatchHalf(b, st, iters) == SeqLoop(b, st, iters + 1)
  {
  }

  lemma LoopDone(b: Block, st: Loop, iters: nat)
    requires BlockOkay(b) && InLoop(b, st)
    requires st.litPos >= |b.img.lits| && st.matched >= b.img.matchCount
    ensures SeqLoop(b, st, iters) == SeqOk(st.out)
  {
  }

  /** The match half of an iteration. `safe` promises history for any legal offset and room for
      any match. */
  method DecodeMatch(b: Block, ghost ll: array<Entry>, of: array<Entry>, ml: array<Entry>, r: BitReader, ghost xLl: nat, xOf: nat, xMl: nat, rep: Rep,
                     buf: array<Byte>, opEnd: nat, op: nat, safe: bool, ghost st: Loop, ghost iters: nat)
    returns (o: Outcome, yOf: nat, yMl: nat, newRep: Rep, end: nat)
    requires BlockOkay(b) && IsMlBase(b.base) && b.img.matchCount > 0 && st.matched < b.img.matchCount
    requires TablesReady(b, ll, of, ml)
    requires r.Valid() && r.src == b.img.bs && op <= opEnd <= buf.Length && b.limit == opEnd && 0 < b.maxOffset
    requires InLoop(b, st) && st.m == Machine([xLl, xOf, xMl], r.Consumed()) && st.rep == rep && st.out == buf[..op]
    requires safe ==> b.maxOffset <= op && op + SAFEZONE_MAX_RUN <= opEnd
    modifies buf, r
    ensures r.Valid() && op <= end <= opEnd && buf[opEnd..] == old(buf[opEnd..])
    ensures buf[..op] == old(buf[..op])
    ensures o.Bad? ==> MatchHalf(b, st, iters) == SeqError(o.error)
    ensures o.Fine? ==>
              && st.matched + 1 <= b.img.matchCount
              && MatchHalf(b, st, iters) ==
                 SeqLoop(b, Loop(Machine([xLl, yOf, yMl], r.Consumed()), st.litPos, st.matched + 1, newRep, buf[..end]), iters + 1)
  {
    hide DecTable, SeqLoop, ReadOffsetCode, ReadMatchLength, SymbolsBelow, Normalized, ByteBits, Copy, MlBase, MlBaseV2, Copied;
    end, newRep, yMl := op, rep, xMl;
    var offset;
    offset, yOf := TakeOffset(b, of, r, xOf, rep, st.m);
    ghost var m2 := Machine([xLl, yOf, xMl], r.Consumed());
    assert m2 == ReadOffsetCode(b, st.m, rep).1;
    newRep := PushRep(rep, offset);
    var len;
    len, yMl := TakeMatchLength(b, ml, r, xMl, m2);
    MatchLengthAtMost(b, m2);
    ghost var m3 := Machine([xLl, yOf, yMl], r.Consumed());
    assert m3 == ReadMatchLength(b, m2).1;
    if offset == 0 || offset > b.maxOffset {
      return Bad(Corrupt), yOf, yMl, newRep, op;
    }
    if !safe && offset > op {
      return Bad(Corrupt), yOf, yMl, newRep, op;
    }
    if !safe && len > opEnd - op {
      return Bad(Overflow), yOf, yMl, newRep, op;
    }
    ghost var before := buf[..];
    assert before[..op] == st.out;
    CopyMatch(buf, op, opEnd, offset, len);
    end := op + len;
    CopiedMeans(before, buf[..], op, offset, len, opEnd);
    assert buf[..end] == AfterCopy(st, offset, len, m3).out;
    assert buf[..op] == buf[..end][..op];
    o := Fine;
  }

  /** The literal half of an iteration. `safe` promises room for any run. */
  method DecodeRun(b: Block, ll: array<Entry>, ghost of: array<Entry>, ghost ml: array<Entry>, r: BitReader, xLl: nat, ghost xOf: nat, ghost xMl: nat, litBuf: seq<Byte>,
                   litPos: nat, buf: array<Byte>, opEnd: nat, op: nat, safe: bool, ghost st: Loop, ghost iters: nat)
    returns (o: Outcome, yLl: nat, pos: nat, end: nat)
    requires BlockOkay(b) && TablesReady(b, ll, of, ml)
    requires |litBuf| >= |b.img.lits| + 16 && b.img.lits <= litBuf
    requires r.Valid() && r.src == b.img.bs && op <= opEnd <= buf.Length && b.limit == opEnd
    requires InLoop(b, st) && st.m == Machine([xLl, xOf, xMl], r.Consumed()) && st.litPos == litPos && st.out == buf[..op]
    requires st.litPos < |b.img.lits| || st.matched < b.img.matchCount
    requires iters + 1 <= MaxIters(b)
    requires safe ==> op + SAFEZONE_MAX_RUN <= opEnd
    modifies buf, r
    ensures r.Valid() && op <= end <= opEnd && buf[opEnd..] == old(buf[opEnd..]) && buf[..op] == old(buf[..op])
    ensures o.Bad? ==> SeqLoop(b, st, iters) == SeqError(o.error)
    ensures o.Fine? ==>
              && pos <= |b.img.lits| && end - op <= SAFEZONE_MAX_RUN
              && SeqLoop(b, st, iters) ==
                 MatchHalf(b, Loop(Machine([yLl, xOf, xMl], r.Consumed()), pos, st.matched, st.rep, buf[..end]), iters)
  {
    hide DecTable, SeqLoop, ReadRunLength, ReadOffsetCode, ReadMatchLength, SymbolsBelow, Normalized, ByteBits, Copy, MatchHalf;
    LoopHalf(b, st, iters);
    pos, end := litPos, op;
    var litLen;
    litLen, yLl := TakeRunLength(b, ll, r, xLl, st.m);
    RunLengthAtMost(b, st.m);
    ghost var m1 := Machine([yLl, xOf, xMl], r.Consumed());
    assert m1 == ReadRunLength(b, st.m).1;
    if litLen > |b.img.lits| - litPos {
      return Bad(Corrupt), yLl, pos, end;
    }
    if !safe && litLen > opEnd - op {
      return Bad(Overflow), yLl, pos, end;
    }
    if litLen > 0 {
      CopyLiterals(buf, op, opEnd, litBuf, litPos, litLen);
      assert buf[..op] == buf[..op + litLen][..op];
    }
    pos, end := litPos + litLen, op + litLen;
    assert litBuf[litPos..pos] == b.img.lits[litPos..pos];
    assert buf[..end] == Halfway(b, st, litLen, m1).out;
    o := Fine;
  }

  /** One iteration. The safe zone leaves out the checks that cannot fail there. */
  method Iterate(b: Block, ll: array<Entry>, of: array<Entry>, ml: array<Entry>, r: BitReader, xLl: nat, xOf: nat, xMl: nat,
                 litBuf: seq<Byte>, litPos: nat, matched: nat, rep: Rep, buf: array<Byte>, opEnd: nat, op: nat, safe: bool,
                 ghost iters: nat)
    returns (o: Outcome, yLl: nat, yOf: nat, yMl: nat, pos: nat, count: nat, newRep: Rep, end: nat)
    requires BlockOkay(b) && IsMlBase(b.base) && TablesReady(b, ll, of, ml)
    requires |litBuf| >= |b.img.lits| + 16 && b.img.lits <= litBuf
    requires r.Valid() && r.src == b.img.bs && op <= opEnd <= buf.Length && b.limit == opEnd && 0 < b.maxOffset
    requires litPos <= |b.img.lits| && matched <= b.img.matchCount
    requires litPos < |b.img.lits| || matched < b.img.matchCount
    requires iters + 1 <= MaxIters(b)
    requires safe ==> b.maxOffset <= op && op + SAFEZONE_MAX_SEQ_WRITE <= opEnd
    modifies buf, r
    ensures r.Valid() && op <= end <= opEnd && buf[opEnd..] == old(buf[opEnd..]) && buf[..op] == old(buf[..op])
    ensures var was := SeqLoop(b, Loop(Machine([xLl, xOf, xMl], old(r.Consumed())), litPos, matched, rep, old(buf[..op])), iters);
            && (o.Bad? ==> was == SeqError(o.error))
            && (o.Fine? ==>
                  && pos <= |b.img.lits| && count <= b.img.matchCount
                  && was == SeqLoop(b, Loop(Machine([yLl, yOf, yMl], r.Consumed()), pos, count, newRep, buf[..end]), iters + 1))
  {
    hide DecTable, SeqLoop, ReadRunLength, ReadOffsetCode, ReadMatchLength, SymbolsBelow, Normalized, ByteBits, Copy,
      MlBase, MlBaseV2, MatchHalf, PushRep, Pow2, TablesReady;
    ghost var st := Loop(Machine([xLl, xOf, xMl], r.Consumed()), litPos, matched, rep, buf[..op]);
    yOf, yMl, count, newRep := xOf, xMl, matched, rep;
    o, yLl, pos, end := DecodeRun(b, ll, of, ml, r, xLl, xOf, xMl, litBuf, litPos, buf, opEnd, op, safe, st, iters);
    if o.Bad? {
      return;
    }
    ghost var mid := Loop(Machine([yLl, xOf, xMl], r.Consumed()), pos, matched, rep, buf[..end]);
    if matched >= b.img.matchCount {
      NoMatchHalf(b, mid, iters);
    } else {
      ghost var was := end;
      o, yOf, yMl, newRep, end := DecodeMatch(b, ll, of, ml, r, yLl, xOf, xMl, rep, buf, opEnd, end, safe, mid, iters);
      assert buf[..op] == buf[..was][..op];
      count := matched + 1;
    }
  }

  /** The loop with the safe zone. It skips the output-room and history checks exactly where they
      cannot fail, so on every block, valid or corrupt, it returns what the loop that always
      checks returns; nothing outside the block's space is written. */
  method DecodeLoop(b: Block, ll: array<Entry>, of: array<Entry>, ml: array<Entry>, litBuf: seq<Byte>,
                    buf: array<Byte>, start: nat, cap: nat) returns (o: Outcome, end: nat)
    requires BlockOkay(b) && IsMlBase(b.base) && TablesReady(b, ll, of, ml)
    requires |litBuf| >= |b.img.lits| + 16 && b.img.lits <= litBuf
    requires start + cap <= buf.Length && b.limit == start + cap && 0 < b.maxOffset
    modifies buf
    ensures start <= end <= start + cap
    ensures Result(o, buf[..end]) == SeqLoop(b, Loop(Machine(b.img.states, 0), 0, 0, NO_REP, old(buf[..start])), 0)
    ensures buf[start + cap..] == old(buf[start + cap..]) && buf[..start] == old(buf[..start])
  {
    hide DecTable, SeqLoop, ReadRunLength, ReadOffsetCode, ReadMatchLength, SymbolsBelow, Normalized, ByteBits, Copy,
      MlBase, MlBaseV2, MatchHalf, PushRep, Pow2, TablesReady;
    var r := new BitReader(b.img.bs);
    r.Fill();
    var xLl, xOf, xMl := b.img.states[LL], b.img.states[OF], b.img.states[ML];
    var opEnd, op: nat := start + cap, start;
    var litPos: nat, matched: nat, rep, iters: nat := 0, 0, NO_REP, 0;
    ghost var goal := SeqLoop(b, Loop(Machine(b.img.states, 0), 0, 0, NO_REP, buf[..start]), 0);
    assert b.img.states == [xLl, xOf, xMl];
    while litPos < |b.img.lits| || matched < b.img.matchCount
      invariant r.Valid() && fresh(r) && r.src == b.img.bs
      invariant TablesReady(b, ll, of, ml)
      invariant start <= op <= opEnd && litPos <= |b.img.lits| && matched <= b.img.matchCount
      invariant goal == SeqLoop(b, Loop(Machine([xLl, xOf, xMl], r.Consumed()), litPos, matched, rep, buf[..op]), iters)
      invariant buf[opEnd..] == old(buf[opEnd..]) && buf[..start] == old(buf[..start])
      decreases MaxIters(b) - iters
    {
      LoopHalf(b, Loop(Machine([xLl, xOf, xMl], r.Consumed()), litPos, matched, rep, buf[..op]), iters);
      if iters + 1 > MaxIters(b) {
        return Bad(Corrupt), op;
      }
      r.Fill();
      var safe := InSafeZone(op, start, cap, b.maxOffset);
      ghost var was := op;
      o, xLl, xOf, xMl, litPos, matched, rep, op :=
        Iterate(b, ll, of, ml, r, xLl, xOf, xMl, litBuf, litPos, matched, rep, buf, opEnd, op, safe, iters);
      assert buf[..start] == buf[..was][..start];
      if o.Bad? {
        return o, op;
      }
      iters := iters + 1;
    }
    LoopDone(b, Loop(Machine([xLl, xOf, xMl], r.Consumed()), litPos, matched, rep, buf[..op]), iters);
    return Fine, op;
  }

  /** `vva_decode_sequences_impl`: block checks, tables, loop. `slack` is the literal buffer's
      unspecified tail. The buffer holds the frame's output; the block's bytes go to
      `start..start + cap`. */
  method VvaDecodeSequences(img: SeqImage, base: seq<nat>, slack: seq<Byte>, buf: array<Byte>, start: nat, cap: nat, maxOffset: nat)
    returns (o: Outcome, end: nat)
    requires IsMlBase(base) && |slack| >= 16 && start + cap <= buf.Length
    requires |img.tables| == |img.states| == 3 && forall k :: 0 <= k < 3 ==> |img.tables[k]| == NSYM
    modifies buf
    ensures start <= end <= start + cap
    ensures Result(o, buf[..end]) == DecodeSequences(img, base, old(buf[..start]), cap, maxOffset)
    ensures buf[start + cap..] == old(buf[start + cap..]) && buf[..start] == old(buf[..start])
  {
    hide DecTable, SeqLoop, Normalized, MlBase, MlBaseV2;
    end := start;
    if |img.lits| > cap || img.matchCount > cap {
      return Bad(Corrupt), start;
    }
    var ok := CheckTables(img);
    if !ok || maxOffset == 0 || maxOffset > 0x100_0000 {
      return Bad(Corrupt), start;
    }
    LadderMl(base);
    var ll, of, ml := BlockTables(img);
    o, end := DecodeLoop(Block(img, base, start + cap, maxOffset), ll, of, ml, img.lits + slack, buf, start, cap);
  }

  /** The hoisted table validation. */
  method CheckTables(img: SeqImage) returns (ok: bool)
    requires |img.tables| == |img.states| == 3 && forall k :: 0 <= k < 3 ==> |img.tables[k]| == NSYM
    ensures ok == CheckedImage(img)
  {
    hide Sum, Cum;
    var sumLl, sumOf, sumMl := 0, 0, 0;
    CumStart(img.tables[LL]);
    CumStart(img.tables[OF]);
    CumStart(img.tables[ML]);
    for s := 0 to NSYM
      invariant sumLl == Cum(img.tables[LL], s) && sumOf == Cum(img.tables[OF], s) && sumMl == Cum(img.tables[ML], s)
      invariant forall u :: 0 <= u < s && u >= OF_CODES ==> img.tables[OF][u] == 0
      invariant forall u :: 0 <= u < s && u >= ML_CODES ==> img.tables[ML][u] == 0 && img.tables[LL][u] == 0
    {
      CumStep(img.tables[LL], s);
      CumStep(img.tables[OF], s);
      CumStep(img.tables[ML], s);
      sumLl, sumOf, sumMl := sumLl + img.tables[LL][s], sumOf + img.tables[OF][s], sumMl + img.tables[ML][s];
      if s >= OF_CODES && img.tables[OF][s] != 0 {
        return false;
      }
      if s >= ML_CODES && (img.tables[ML][s] != 0 || img.tables[LL][s] != 0) {
        return false;
      }
    }
    CumEnd(img.tables[LL]);
    CumEnd(img.tables[OF]);
    CumEnd(img.tables[ML]);
    if sumLl != ANS_L && (|img.lits| > 0 || img.matchCount > 0) {
      return false;
    }
    if img.matchCount > 0 && (sumMl != ANS_L || sumOf != ANS_L) {
      return false;
    }
    ok := true;
  }
}
