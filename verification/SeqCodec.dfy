/** The sequence coder (`vva_encode_sequences_impl`, `vva_decode_sequences_impl`, src/vv_ans.c):
    literal lengths, offsets and match lengths share one bitstream under three tANS states, and
    both sides track the last three offsets. */
module SeqCodec {
  import opened AnsCoder
  import opened AnsTables
  import opened Arith
  import opened BitIo
  import opened Bits
  import opened Bytes
  import opened Lz
  import opened SeqCodes
  import opened SeqParse

  /** Table and state indices. */
  const LL: nat := 0
  const OF: nat := 1
  const ML: nat := 2

  //////////////////////////////////////////////////////////////////////////////
  // Repeat offsets
  //////////////////////////////////////////////////////////////////////////////

  /** The encoder's offset code: a repeat code when the history holds the offset. */
  function OffsetSymbol(rep: Rep, offset: nat): (e: SeqCodes.Coded)
    ensures e.code < OF_CODES && e.nbits == OfExtra(e.code) && e.extra < Pow2(e.nbits)
  {
    if offset == rep.r0 && offset != 0 then SeqCodes.Coded(0, 0, 0)
    else if offset == rep.r1 && offset != 0 then SeqCodes.Coded(1, 0, 0)
    else if offset == rep.r2 && offset != 0 then SeqCodes.Coded(2, 0, 0)
    else OffsetCode(offset)
  }

  /** The decoder's reading of a code. */
  function ResolveOffset(rep: Rep, code: nat, extra: nat): nat {
    if code == 0 then rep.r0 else if code == 1 then rep.r1 else if code == 2 then rep.r2 else OffsetOf(code, extra)
  }

  lemma OffsetResolves(rep: Rep, offset: nat)
    requires 1 <= offset < Pow2(24)
    ensures var e := OffsetSymbol(rep, offset); ResolveOffset(rep, e.code, e.extra) == offset
  {
    hide OffsetCode, OffsetOf;
    OffsetRoundTrip(offset);
  }

  //////////////////////////////////////////////////////////////////////////////
  // Operations of a sequence list
  //////////////////////////////////////////////////////////////////////////////

  function LengthOps(s: Sequence): (ops: seq<Op>) {
    var e := LengthCode(LlBase(), LlExtra(), |s.lits|);
    [Sym(LL, e.code), Raw(e.extra, e.nbits)]
  }

  function MatchOps(base: seq<nat>, rep: Rep, s: Sequence): (ops: seq<Op>)
    requires |base| == 36
  {
    var o := OffsetSymbol(rep, s.offset);
    var m := LengthCode(base, MlExtra(), s.matchLen);
    [Sym(OF, o.code), Raw(o.extra, o.nbits), Sym(ML, m.code), Raw(m.extra, m.nbits)]
  }

  function SequenceOps(base: seq<nat>, rep: Rep, s: Sequence): seq<Op>
    requires |base| == 36
  {
    if s.matchLen > 0 then LengthOps(s) + MatchOps(base, rep, s) else LengthOps(s)
  }

  /** The coded items of all sequences, in the decoder's order. */
  function SeqOps(base: seq<nat>, rep: Rep, seqs: seq<Sequence>): seq<Op>
    requires |base| == 36
    decreases |seqs|
  {
    if seqs == [] then [] else SequenceOps(base, rep, seqs[0]) + SeqOps(base, NextRep(rep, seqs[0]), seqs[1..])
  }

  function Matches(seqs: seq<Sequence>): nat {
    if seqs == [] then 0 else Matches(seqs[1..]) + (if seqs[0].matchLen > 0 then 1 else 0)
  }

  /** What the wire carries for a match length. */
  function CarriedLength(base: seq<nat>, len: nat): nat
    requires |base| == 36
  {
    var m := LengthCode(base, MlExtra(), len);
    LengthOf(base, m.code, m.extra)
  }

  function Carried(base: seq<nat>, seqs: seq<Sequence>): (r: seq<Sequence>)
    requires |base| == 36
    ensures |r| == |seqs|
  {
    seq(|seqs|, i requires 0 <= i < |seqs| =>
      if seqs[i].matchLen == 0 then seqs[i]
      else seqs[i].(matchLen := CarriedLength(base, seqs[i].matchLen)))
  }

  //////////////////////////////////////////////////////////////////////////////
  // Coded block and decoder
  //////////////////////////////////////////////////////////////////////////////

  /** The content of a sequence block: literals, match count, the three tables and states, and
      the bitstream. */
  datatype SeqImage = SeqImage(lits: seq<Byte>, matchCount: nat, tables: seq<seq<nat>>, states: seq<nat>, bs: seq<Byte>)

  ghost predicate SymbolsBelow(norm: seq<nat>, n: nat) {
    |norm| == NSYM && forall s :: n <= s < NSYM ==> norm[s] == 0
  }

  /** The table checks made once per block: every symbol in range, and full tables wherever the
      loop consults them. */
  ghost predicate CheckedImage(img: SeqImage) {
    && |img.tables| == 3 && |img.states| == 3
    && SymbolsBelow(img.tables[LL], LL_CODES)
    && SymbolsBelow(img.tables[OF], OF_CODES)
    && SymbolsBelow(img.tables[ML], ML_CODES)
    && (|img.lits| > 0 || img.matchCount > 0 ==> Normalized(img.tables[LL]))
    && (img.matchCount > 0 ==> Normalized(img.tables[OF]) && Normalized(img.tables[ML]))
  }

  lemma SymbolInRange(norm: seq<nat>, n: nat, x: nat)
    requires Normalized(norm) && SymbolsBelow(norm, n) && x < ANS_L
    ensures DecTable(norm)[x].symbol < n
  {
    hide Placement, Count, WindowBase, WindowBits;
    assert DecTable(norm)[x] == DecEntry(norm, Spread(norm), x);
    var s := SymAt(norm, Placement(x));
    CumStep(norm, s);
  }

  /** Three states and a bit position. */
  datatype Machine = Machine(x: seq<nat>, t: nat)

  /** One table step: the symbol, and the machine after its bits. States are masked on access. */
  ghost function ReadCode(norm: seq<nat>, stream: seq<bool>, m: Machine, k: nat): (r: (Byte, Machine))
    requires Normalized(norm) && k < |m.x|
    ensures |r.1.x| == |m.x|
  {
    var e := DecTable(norm)[m.x[k] % ANS_L];
    (e.symbol, Machine(m.x[k := NextState(e, stream, m.t)], m.t + e.nbits))
  }

  ghost function ReadExtra(stream: seq<bool>, m: Machine, nbits: nat): (r: (nat, Machine))
    ensures r.1.x == m.x && r.0 < Pow2(nbits)
  {
    ValBound(Window(stream, m.t, nbits));
    (Val(Window(stream, m.t, nbits)), Machine(m.x, m.t + nbits))
  }

  datatype SeqResult = SeqError(error: DecodeError) | SeqOk(out: seq<Byte>)

  /** The decode loop's state: machine, literals and matches used, repeat offsets, output. */
  datatype Loop = Loop(m: Machine, litPos: nat, matched: nat, rep: Rep, out: seq<Byte>)

  /** What stays fixed during a block. */
  datatype Block = Block(img: SeqImage, base: seq<nat>, limit: nat, maxOffset: nat)

  ghost predicate BlockOkay(b: Block) {
    CheckedImage(b.img) && |b.base| == 36
  }

  function MaxIters(b: Block): nat {
    |b.img.lits| + b.img.matchCount + 16
  }

  ghost function Stream(b: Block): seq<bool> {
    ByteBits(b.img.bs)
  }

  /** The literal part of one iteration: the run length read and the machine after it. */
  ghost function ReadRunLength(b: Block, m: Machine): (r: (nat, Machine))
    requires BlockOkay(b) && Normalized(b.img.tables[LL]) && |m.x| == 3
    ensures |r.1.x| == 3
  {
    var (code, m1) := ReadCode(b.img.tables[LL], Stream(b), m, LL);
    SymbolInRange(b.img.tables[LL], LL_CODES, m.x[LL] % ANS_L);
    var (extra, m2) := ReadExtra(Stream(b), m1, LlExtra()[code]);
    (LengthOf(LlBase(), code, extra), m2)
  }

  ghost function ReadOffsetCode(b: Block, m: Machine, rep: Rep): (r: (nat, Machine))
    requires BlockOkay(b) && Normalized(b.img.tables[OF]) && |m.x| == 3
    ensures |r.1.x| == 3
  {
    var (code, m1) := ReadCode(b.img.tables[OF], Stream(b), m, OF);
    SymbolInRange(b.img.tables[OF], OF_CODES, m.x[OF] % ANS_L);
    var (extra, m2) := ReadExtra(Stream(b), m1, OfExtra(code));
    (ResolveOffset(rep, code, extra), m2)
  }

  ghost function ReadMatchLength(b: Block, m: Machine): (r: (nat, Machine))
    requires BlockOkay(b) && Normalized(b.img.tables[ML]) && |m.x| == 3
    ensures |r.1.x| == 3
  {
    var (code, m1) := ReadCode(b.img.tables[ML], Stream(b), m, ML);
    SymbolInRange(b.img.tables[ML], ML_CODES, m.x[ML] % ANS_L);
    var (extra, m2) := ReadExtra(Stream(b), m1, MlExtra()[code]);
    (LengthOf(b.base, code, extra), m2)
  }

  ghost predicate InLoop(b: Block, st: Loop) {
    |st.m.x| == 3 && st.litPos <= |b.img.lits| && st.matched <= b.img.matchCount && |st.out| <= b.limit
  }

  /** The decode loop with every bound checked in every iteration. */
  ghost function SeqLoop(b: Block, st: Loop, iters: nat): SeqResult
    requires BlockOkay(b) && InLoop(b, st)
    decreases MaxIters(b) - iters
  {
    if st.litPos >= |b.img.lits| && st.matched >= b.img.matchCount then SeqOk(st.out)
    else if iters + 1 > MaxIters(b) then SeqError(Corrupt)
    else
      var (litLen, m1) := ReadRunLength(b, st.m);
      if litLen > |b.img.lits| - st.litPos then SeqError(Corrupt)
      else if litLen > b.limit - |st.out| then SeqError(Overflow)
      else
        var out1 := st.out + b.img.lits[st.litPos..st.litPos + litLen];
        var pos1 := st.litPos + litLen;
        if st.matched >= b.img.matchCount then SeqLoop(b, Loop(m1, pos1, st.matched, st.rep, out1), iters + 1)
        else
          var (offset, m2) := ReadOffsetCode(b, m1, st.rep);
          var (len, m3) := ReadMatchLength(b, m2);
          if offset == 0 || offset > b.maxOffset then SeqError(Corrupt)
          else if offset > |out1| then SeqError(Corrupt)
          else if len > b.limit - |out1| then SeqError(Overflow)
          else SeqLoop(b, Loop(m3, pos1, st.matched + 1, PushRep(st.rep, offset), Copy(out1, offset, len)), iters + 1)
  }

  /** `vva_decode_sequences_impl` on every block: `hist` is the frame's output before the block and
      `cap` the space for the block. */
  ghost function DecodeSequences(img: SeqImage, base: seq<nat>, hist: seq<Byte>, cap: nat, maxOffset: nat): SeqResult
    requires |base| == 36
  {
    if |img.lits| > cap || img.matchCount > cap || !CheckedImage(img) || maxOffset == 0 || maxOffset > 0x100_0000
    then SeqError(Corrupt)
    else SeqLoop(Block(img, base, |hist| + cap, maxOffset), Loop(Machine(img.states, 0), 0, 0, NO_REP, hist), 0)
  }

  //////////////////////////////////////////////////////////////////////////////
  // Meaning of a carried list, with the decoder's checks
  //////////////////////////////////////////////////////////////////////////////

  ghost function Interpret(out: seq<Byte>, seqs: seq<Sequence>, limit: nat, maxOffset: nat): SeqResult
    requires |out| <= limit
    decreases |seqs|
  {
    if seqs == [] then SeqOk(out)
    else
      var s := seqs[0];
      if |s.lits| > limit - |out| then SeqError(Overflow)
      else
        var out1 := out + s.lits;
        if s.matchLen == 0 then Interpret(out1, seqs[1..], limit, maxOffset)
        else if s.offset == 0 || s.offset > maxOffset || s.offset > |out1| then SeqError(Corrupt)
        else if s.matchLen > limit - |out1| then SeqError(Overflow)
        else Interpret(Copy(out1, s.offset, s.matchLen), seqs[1..], limit, maxOffset)
  }

  /** Interpretation succeeds exactly on valid sequences that fit, and yields what they denote. */
  lemma {:induction false} InterpretDenotes(out: seq<Byte>, seqs: seq<Sequence>, limit: nat, maxOffset: nat)
    requires |out| <= limit
    ensures var r := Interpret(out, seqs, limit, maxOffset);
            && (r.SeqOk? <==> Valid(out, seqs, maxOffset) && |Denote(out, seqs, maxOffset)| <= limit)
            && (r.SeqOk? ==> r.out == Denote(out, seqs, maxOffset))
    decreases |seqs|
  {
    hide Valid, Denote, Copy;
    if seqs == [] {
      DenoteNone(out, maxOffset);
    } else {
      var s := seqs[0];
      assert [s] + seqs[1..] == seqs;
      DenoteOne(out, s, seqs[1..], maxOffset);
      if |s.lits| <= limit - |out| {
        if s.matchLen == 0 {
          InterpretDenotes(out + s.lits, seqs[1..], limit, maxOffset);
        } else if 1 <= s.offset <= maxOffset && s.offset <= |out + s.lits| && s.matchLen <= limit - |out + s.lits| {
          InterpretDenotes(Copy(out + s.lits, s.offset, s.matchLen), seqs[1..], limit, maxOffset);
        }
      }
    }
  }

  //////////////////////////////////////////////////////////////////////////////
  // The decoder inverts the encoder
  //////////////////////////////////////////////////////////////////////////////

  /** Matches come first; of the entries without a match only the last may be empty; runs and
      offsets are representable. */
  ghost predicate Codable(seqs: seq<Sequence>) {
    && (forall i :: 0 <= i < |seqs| ==> |seqs[i].lits| <= LL_MAX)
    && (forall i :: 0 <= i < |seqs| && seqs[i].matchLen > 0 ==> 1 <= seqs[i].offset < Pow2(24))
    && (forall i, j :: 0 <= i < j < |seqs| && seqs[i].matchLen == 0 ==> seqs[j].matchLen == 0)
    && (forall i :: 0 <= i < |seqs| - 1 && seqs[i].matchLen == 0 ==> seqs[i].lits != [])
  }

  /** The machine stands at the encoding of `ops`. */
  ghost predicate At(tables: seq<seq<nat>>, ops: seq<Op>, stream: seq<bool>, m: Machine) {
    && AllEncodable(tables, ops)
    && m.x == Encode(tables, ops).states
    && Ahead(stream, m.t, Encode(tables, ops).bits)
  }

  lemma CodeInverse(tables: seq<seq<nat>>, ops: seq<Op>, stream: seq<bool>, m: Machine)
    requires ops != [] && ops[0].Sym? && At(tables, ops, stream, m)
    ensures var k := ops[0].table;
            && k < |tables| && Normalized(tables[k]) && k < |m.x|
            && ReadCode(tables[k], stream, m, k).0 == ops[0].symbol
            && At(tables, ops[1..], stream, ReadCode(tables[k], stream, m, k).1)
  {
    hide DecTable, Normalized, Encode, Ahead, NextState;
    var k := ops[0].table;
    assert Encodable(tables, ops[0]);
    var c := Encode(tables, ops);
    assert ValidState(tables[k], c.states[k]);
    SmallState(c.states[k]);
    DecodeOne(tables, ops, stream, m.t);
  }

  lemma SmallState(x: nat)
    requires x < ANS_L
    ensures x % ANS_L == x
  {
  }

  lemma ExtraInverse(tables: seq<seq<nat>>, ops: seq<Op>, stream: seq<bool>, m: Machine)
    requires ops != [] && ops[0].Raw? && At(tables, ops, stream, m)
    ensures ReadExtra(stream, m, ops[0].nbits).0 == ops[0].value
    ensures At(tables, ops[1..], stream, ReadExtra(stream, m, ops[0].nbits).1)
  {
    hide Encode, Window;
    var c := Encode(tables, ops);
    DecodeRaw(tables, ops);
    AheadTake(stream, m.t, c.bits, ops[0].nbits);
  }

  /** A symbol and its extra bits. */
  lemma ItemInverse(tables: seq<seq<nat>>, ops: seq<Op>, rest: seq<Op>, stream: seq<bool>, m: Machine, k: nat, e: SeqCodes.Coded)
    requires e.code < NSYM && ops == [Sym(k, e.code), Raw(e.extra, e.nbits)] + rest
    requires At(tables, ops, stream, m)
    ensures k < |tables| && Normalized(tables[k]) && k < |m.x|
    ensures var (code, m1) := ReadCode(tables[k], stream, m, k);
            var (extra, m2) := ReadExtra(stream, m1, e.nbits);
            code == e.code && extra == e.extra && At(tables, rest, stream, m2)
  {
    hide At, ReadCode, ReadExtra, Normalized;
    CodeInverse(tables, ops, stream, m);
    assert ops[1..] == [Raw(e.extra, e.nbits)] + rest;
    var m1 := ReadCode(tables[k], stream, m, k).1;
    ExtraInverse(tables, ops[1..], stream, m1);
    assert ops[1..][1..] == rest;
  }

  lemma RunLengthInverse(b: Block, s: Sequence, rest: seq<Op>, m: Machine)
    requires BlockOkay(b) && |m.x| == 3 && |s.lits| <= LL_MAX
    requires At(b.img.tables, LengthOps(s) + rest, Stream(b), m)
    ensures Normalized(b.img.tables[LL])
    ensures ReadRunLength(b, m).0 == |s.lits|
    ensures At(b.img.tables, rest, Stream(b), ReadRunLength(b, m).1)
  {
    hide At, ReadCode, ReadExtra, Normalized, SymbolsBelow, LengthCode, LlBase, LlExtra;
    LadderLl();
    var e := LengthCode(LlBase(), LlExtra(), |s.lits|);
    LengthRoundTrip(LlBase(), LlExtra(), |s.lits|);
    ItemInverse(b.img.tables, LengthOps(s) + rest, rest, Stream(b), m, LL, e);
  }

  lemma MatchInverse(b: Block, rep: Rep, s: Sequence, rest: seq<Op>, m: Machine)
    requires BlockOkay(b) && |m.x| == 3 && 1 <= s.offset < Pow2(24)
    requires At(b.img.tables, MatchOps(b.base, rep, s) + rest, Stream(b), m)
    ensures Normalized(b.img.tables[OF]) && Normalized(b.img.tables[ML])
    ensures ReadOffsetCode(b, m, rep).0 == s.offset
    ensures var m1 := ReadOffsetCode(b, m, rep).1;
            ReadMatchLength(b, m1).0 == CarriedLength(b.base, s.matchLen)
            && At(b.img.tables, rest, Stream(b), ReadMatchLength(b, m1).1)
  {
    hide At, ReadCode, ReadExtra, Normalized, SymbolsBelow, LengthCode, MlExtra, OffsetSymbol, ResolveOffset, OfExtra, Pow2;
    var o := OffsetSymbol(rep, s.offset);
    var l := LengthCode(b.base, MlExtra(), s.matchLen);
    OffsetResolves(rep, s.offset);
    var second := [Sym(ML, l.code), Raw(l.extra, l.nbits)] + rest;
    assert MatchOps(b.base, rep, s) + rest == [Sym(OF, o.code), Raw(o.extra, o.nbits)] + second;
    ItemInverse(b.img.tables, MatchOps(b.base, rep, s) + rest, second, Stream(b), m, OF, o);
    var m1 := ReadOffsetCode(b, m, rep).1;
    ItemInverse(b.img.tables, second, rest, Stream(b), m1, ML, l);
  }

  lemma {:induction false} NoMatches(seqs: seq<Sequence>)
    requires forall i :: 0 <= i < |seqs| ==> seqs[i].matchLen == 0
    ensures Matches(seqs) == 0
  {
    if seqs != [] {
      NoMatches(seqs[1..]);
    }
  }

  lemma CodableTail(seqs: seq<Sequence>)
    requires Codable(seqs) && seqs != []
    ensures Codable(seqs[1..])
    ensures seqs[0].matchLen == 0 ==> Matches(seqs) == 0 && (seqs[0].lits == [] ==> seqs[1..] == [])
    ensures seqs[0].matchLen > 0 ==> Matches(seqs) > 0 && 1 <= seqs[0].offset < Pow2(24)
  {
    hide Pow2;
    if seqs[0].matchLen == 0 {
      NoMatches(seqs);
    }
  }

  /** The loop stands at sequence list `seqs`: bits, literals, matches and repeat offsets are in
      step with the encoder, and the iterations so far were all accounted for. */
  ghost predicate InStep(b: Block, st: Loop, seqs: seq<Sequence>, iters: nat) {
    && BlockOkay(b) && InLoop(b, st)
    && At(b.img.tables, SeqOps(b.base, st.rep, seqs), Stream(b), st.m)
    && b.img.lits[st.litPos..] == Literals(seqs)
    && st.matched + Matches(seqs) == b.img.matchCount
    && iters <= st.litPos + st.matched
  }

  /** Every iteration on encoder output consumes literals or a match, so the iteration bound is
      never reached, and the loop returns what the carried sequences mean. */
  lemma {:induction false} LoopInverse(b: Block, st: Loop, seqs: seq<Sequence>, iters: nat)
    requires Codable(seqs) && InStep(b, st, seqs, iters)
    requires forall v: nat :: CarriedLength(b.base, v) > 0
    ensures SeqLoop(b, st, iters) == Interpret(st.out, Carried(b.base, seqs), b.limit, b.maxOffset)
    decreases |seqs|
  {
    hide At, Codable, Copy, Literals, Matches, CarriedLength, SymbolsBelow, Normalized, SeqOps, ReadRunLength,
      ReadOffsetCode, ReadMatchLength, Interpret, SeqLoop, Carried;
    if seqs == [] {
      EmptyList(b, st, iters);
      return;
    }
    var s, rest := seqs[0], seqs[1..];
    CodableTail(seqs);
    LiteralsFront(seqs);
    CarriedStep(b.base, seqs);
    if s.matchLen == 0 && s.lits == [] {
      EmptyTail(b, st, seqs, iters);
      return;
    }
    SeqOpsStep(b.base, st.rep, seqs);
    if s.matchLen == 0 {
      RunStepInverse(b, st, seqs, iters);
      if |s.lits| <= b.limit - |st.out| {
        var next := AfterRun(b, st, s);
        MatchesStep(seqs);
        LoopInverse(b, next, rest, iters + 1);
      }
    } else {
      MatchStepInverse(b, st, seqs, iters);
      var out1 := st.out + s.lits;
      var len := CarriedLength(b.base, s.matchLen);
      if |s.lits| <= b.limit - |st.out| && s.offset <= b.maxOffset && s.offset <= |out1| && len <= b.limit - |out1| {
        var next := AfterMatch(b, st, s);
        MatchesStep(seqs);
        LoopInverse(b, next, rest, iters + 1);
      }
    }
  }

  lemma EmptyList(b: Block, st: Loop, iters: nat)
    requires BlockOkay(b) && InLoop(b, st) && b.img.lits[st.litPos..] == Literals([])
    requires st.matched + Matches([]) == b.img.matchCount
    ensures SeqLoop(b, st, iters) == Interpret(st.out, Carried(b.base, []), b.limit, b.maxOffset)
  {
  }

  /** A last entry without literals or match is never read. */
  lemma EmptyTail(b: Block, st: Loop, seqs: seq<Sequence>, iters: nat)
    requires BlockOkay(b) && InLoop(b, st) && |seqs| == 1 && seqs[0].matchLen == 0 && seqs[0].lits == []
    requires b.img.lits[st.litPos..] == Literals(seqs) && st.matched + Matches(seqs) == b.img.matchCount
    ensures SeqLoop(b, st, iters) == Interpret(st.out, Carried(b.base, seqs), b.limit, b.maxOffset)
  {
    LiteralsFront(seqs);
    assert Carried(b.base, seqs)[1..] == [];
    assert st.out + [] == st.out;
  }

  lemma CarriedStep(base: seq<nat>, seqs: seq<Sequence>)
    requires |base| == 36 && seqs != []
    ensures Carried(base, seqs)[1..] == Carried(base, seqs[1..])
    ensures Carried(base, seqs)[0] ==
            if seqs[0].matchLen == 0 then seqs[0] else seqs[0].(matchLen := CarriedLength(base, seqs[0].matchLen))
  {
    hide CarriedLength;
  }

  lemma SeqOpsStep(base: seq<nat>, rep: Rep, seqs: seq<Sequence>)
    requires |base| == 36 && seqs != []
    ensures var rest := SeqOps(base, NextRep(rep, seqs[0]), seqs[1..]);
            && (seqs[0].matchLen == 0 ==> SeqOps(base, rep, seqs) == LengthOps(seqs[0]) + rest)
            && (seqs[0].matchLen > 0 ==>
                  SeqOps(base, rep, seqs) == LengthOps(seqs[0]) + (MatchOps(base, rep, seqs[0]) + rest))
  {
    hide LengthOps, MatchOps;
    var rest := SeqOps(base, NextRep(rep, seqs[0]), seqs[1..]);
    AppendAssociative(LengthOps(seqs[0]), MatchOps(base, rep, seqs[0]), rest);
  }

  lemma MatchesStep(seqs: seq<Sequence>)
    requires seqs != []
    ensures Matches(seqs) == Matches(seqs[1..]) + (if seqs[0].matchLen > 0 then 1 else 0)
  {
  }

  /** The loop state after a literal-only entry. */
  ghost function AfterRun(b: Block, st: Loop, s: Sequence): Loop
    requires BlockOkay(b) && Normalized(b.img.tables[LL]) && |st.m.x| == 3
  {
    Loop(ReadRunLength(b, st.m).1, st.litPos + |s.lits|, st.matched, st.rep, st.out + s.lits)
  }

  /** The loop state after an entry with a match. */
  ghost function AfterMatch(b: Block, st: Loop, s: Sequence): Loop
    requires BlockOkay(b) && |st.m.x| == 3 && 1 <= s.offset <= |st.out + s.lits|
    requires Normalized(b.img.tables[LL]) && Normalized(b.img.tables[OF]) && Normalized(b.img.tables[ML])
  {
    var m1 := ReadRunLength(b, st.m).1;
    var m2 := ReadOffsetCode(b, m1, st.rep).1;
    Loop(ReadMatchLength(b, m2).1, st.litPos + |s.lits|, st.matched + 1, PushRep(st.rep, s.offset),
         Copy(st.out + s.lits, s.offset, CarriedLength(b.base, s.matchLen)))
  }

  lemma LiteralSlice(lits: seq<Byte>, pos: nat, head: seq<Byte>, tail: seq<Byte>)
    requires pos <= |lits| && lits[pos..] == head + tail
    ensures pos + |head| <= |lits| && lits[pos..pos + |head|] == head && lits[pos + |head|..] == tail
  {
    assert lits[pos..][..|head|] == head && lits[pos..][|head|..] == tail;
  }

  lemma RunStepInverse(b: Block, st: Loop, seqs: seq<Sequence>, iters: nat)
    requires Codable(seqs) && InStep(b, st, seqs, iters) && seqs != []
    requires seqs[0].matchLen == 0 && seqs[0].lits != [] && Matches(seqs) == 0
    ensures Normalized(b.img.tables[LL])
    ensures if |seqs[0].lits| > b.limit - |st.out|
            then SeqLoop(b, st, iters) == Interpret(st.out, Carried(b.base, seqs), b.limit, b.maxOffset)
            else
              var next := AfterRun(b, st, seqs[0]);
              && InStep(b, next, seqs[1..], iters + 1)
              && SeqLoop(b, st, iters) == SeqLoop(b, next, iters + 1)
              && Interpret(st.out, Carried(b.base, seqs), b.limit, b.maxOffset) ==
                 Interpret(next.out, Carried(b.base, seqs[1..]), b.limit, b.maxOffset)
  {
    hide At, Copy, Literals, CarriedLength, SymbolsBelow, Normalized, SeqOps, LengthOps, ReadRunLength,
      ReadOffsetCode, ReadMatchLength, Carried, Stream, Pow2;
    var s := seqs[0];
    LiteralsFront(seqs);
    LiteralSlice(b.img.lits, st.litPos, s.lits, Literals(seqs[1..]));
    SeqOpsStep(b.base, st.rep, seqs);
    CarriedStep(b.base, seqs);
    RunLengthInverse(b, s, SeqOps(b.base, st.rep, seqs[1..]), st.m);
  }

  lemma MatchStepInverse(b: Block, st: Loop, seqs: seq<Sequence>, iters: nat)
    requires Codable(seqs) && InStep(b, st, seqs, iters) && seqs != []
    requires seqs[0].matchLen > 0 && Matches(seqs) > 0 && 1 <= seqs[0].offset < Pow2(24)
    requires CarriedLength(b.base, seqs[0].matchLen) > 0
    ensures Normalized(b.img.tables[LL]) && Normalized(b.img.tables[OF]) && Normalized(b.img.tables[ML])
    ensures var s := seqs[0];
            var out1 := st.out + s.lits;
            var len := CarriedLength(b.base, s.matchLen);
            if |s.lits| <= b.limit - |st.out| && s.offset <= b.maxOffset && s.offset <= |out1| && len <= b.limit - |out1|
            then
              var next := AfterMatch(b, st, s);
              && InStep(b, next, seqs[1..], iters + 1)
              && SeqLoop(b, st, iters) == SeqLoop(b, next, iters + 1)
              && Interpret(st.out, Carried(b.base, seqs), b.limit, b.maxOffset) ==
                 Interpret(next.out, Carried(b.base, seqs[1..]), b.limit, b.maxOffset)
            else SeqLoop(b, st, iters) == Interpret(st.out, Carried(b.base, seqs), b.limit, b.maxOffset)
  {
    hide At, Copy, Literals, CarriedLength, SymbolsBelow, Normalized, SeqOps, LengthOps, MatchOps, ReadRunLength,
      ReadOffsetCode, ReadMatchLength, Carried, Stream, Pow2;
    var s := seqs[0];
    LiteralsFront(seqs);
    LiteralSlice(b.img.lits, st.litPos, s.lits, Literals(seqs[1..]));
    SeqOpsStep(b.base, st.rep, seqs);
    CarriedStep(b.base, seqs);
    MatchesStep(seqs);
    var rest := SeqOps(b.base, NextRep(st.rep, s), seqs[1..]);
    RunLengthInverse(b, s, MatchOps(b.base, st.rep, s) + rest, st.m);
    MatchInverse(b, st.rep, s, rest, ReadRunLength(b, st.m).1);
  }

  //////////////////////////////////////////////////////////////////////////////
  // Round trip
  //////////////////////////////////////////////////////////////////////////////

  /** `img` is an encoding of the sequences. */
  ghost predicate EncodesSequences(img: SeqImage, base: seq<nat>, seqs: seq<Sequence>)
    requires |base| == 36
  {
    && CheckedImage(img)
    && img.lits == Literals(seqs) && img.matchCount == Matches(seqs)
    && AllEncodable(img.tables, SeqOps(base, NO_REP, seqs))
    && var c := Encode(img.tables, SeqOps(base, NO_REP, seqs));
       && img.states == c.states
       && c.bits <= ByteBits(img.bs)
       && |img.bs| == (|c.bits| + 7) / 8
  }

  lemma CarriedPositive(base: seq<nat>)
    requires IsMlBase(base)
    ensures forall v: nat :: CarriedLength(base, v) > 0
  {
    hide LengthCode, MlExtra;
    LadderMl(base);
    forall v: nat
      ensures CarriedLength(base, v) > 0
    {
      var m := LengthCode(base, MlExtra(), v);
      if m.code > 0 {
        LadderAscends(base, MlExtra(), 0, m.code);
      }
    }
  }

  /** Decoding an encoded list yields the meaning of what the wire carries of it. */
  lemma SequencesCarried(img: SeqImage, base: seq<nat>, seqs: seq<Sequence>, hist: seq<Byte>, cap: nat, maxOffset: nat)
    requires IsMlBase(base) && Codable(seqs) && EncodesSequences(img, base, seqs)
    requires |img.lits| <= cap && img.matchCount <= cap && 0 < maxOffset <= 0x100_0000
    ensures DecodeSequences(img, base, hist, cap, maxOffset) ==
            Interpret(hist, Carried(base, seqs), |hist| + cap, maxOffset)
  {
    hide SeqOps, Literals, Matches, Encode, Carried, Interpret, SeqLoop, CarriedLength, Codable, SymbolsBelow, Normalized, ByteBits;
    var b := Block(img, base, |hist| + cap, maxOffset);
    var st := Loop(Machine(img.states, 0), 0, 0, NO_REP, hist);
    assert Stream(b)[0..] == Stream(b);
    assert img.lits[0..] == img.lits;
    CarriedPositive(base);
    LoopInverse(b, st, seqs, 0);
  }

  /** Every match length is one the wire carries: 4..65535 for tag 'S', 3..65534 for tag 'T'. */
  ghost predicate CarriableLengths(base: seq<nat>, seqs: seq<Sequence>)
    requires |base| == 36
  {
    forall i :: 0 <= i < |seqs| && seqs[i].matchLen > 0 ==> base[0] <= seqs[i].matchLen < base[0] + 65532
  }

  lemma CarriedSame(base: seq<nat>, seqs: seq<Sequence>)
    requires IsMlBase(base)
    ensures CarriableLengths(base, seqs) <==> Carried(base, seqs) == seqs
  {
    hide LengthCode, MlExtra;
    LadderMl(base);
    forall i | 0 <= i < |seqs|
      ensures seqs[i].matchLen > 0 ==>
                (Carried(base, seqs)[i] == seqs[i] <==> base[0] <= seqs[i].matchLen < base[0] + 65532)
    {
      LengthRoundTrip(base, MlExtra(), seqs[i].matchLen);
    }
    if Carried(base, seqs) == seqs {
      forall i | 0 <= i < |seqs| && seqs[i].matchLen > 0
        ensures base[0] <= seqs[i].matchLen < base[0] + 65532
      {
        assert Carried(base, seqs)[i] == seqs[i];
      }
    }
  }

  function TotalLength(seqs: seq<Sequence>): nat {
    if seqs == [] then 0 else |seqs[0].lits| + seqs[0].matchLen + TotalLength(seqs[1..])
  }

  lemma {:induction false} DenoteLength(out: seq<Byte>, seqs: seq<Sequence>, maxOffset: nat)
    requires Valid(out, seqs, maxOffset)
    ensures |Denote(out, seqs, maxOffset)| == |out| + TotalLength(seqs)
    decreases |seqs|
  {
    if seqs != [] {
      DenoteLength(Lz.Emit(out, seqs[0]), seqs[1..], maxOffset);
    }
  }

  lemma {:induction false} LiteralsAtMost(seqs: seq<Sequence>)
    ensures |Literals(seqs)| + Matches(seqs) <= TotalLength(seqs)
    decreases |seqs|
  {
    if seqs != [] {
      LiteralsFront(seqs);
      LiteralsAtMost(seqs[1..]);
    }
  }

  /** Lengths below the first base are not produced by a parser of that minimum match, and any
      other length the wire cannot carry comes out shorter. */
  lemma {:induction false} CarriedShorter(base: seq<nat>, seqs: seq<Sequence>)
    requires IsMlBase(base)
    requires forall i :: 0 <= i < |seqs| && seqs[i].matchLen > 0 ==> base[0] <= seqs[i].matchLen
    ensures TotalLength(Carried(base, seqs)) <= TotalLength(seqs)
    ensures Carried(base, seqs) != seqs ==> TotalLength(Carried(base, seqs)) < TotalLength(seqs)
    decreases |seqs|
  {
    hide CarriedLength, Carried;
    if seqs == [] {
      assert Carried(base, seqs) == seqs;
    } else {
      CarriedStep(base, seqs);
      CarriedShorter(base, seqs[1..]);
      CarriedAtMost(base, seqs[0].matchLen);
      var c := Carried(base, seqs);
      if c[0] == seqs[0] && c[1..] == seqs[1..] {
        assert c == [c[0]] + c[1..] && seqs == [seqs[0]] + seqs[1..];
      }
    }
  }

  lemma CarriedAtMost(base: seq<nat>, len: nat)
    requires IsMlBase(base)
    ensures base[0] <= len ==> CarriedLength(base, len) <= len
  {
    hide MlExtra;
    LadderMl(base);
    var c := CodeFor(base, len, 35);
    if len > base[c] {
      var d := len - base[c];
      assert d % Pow2(MlExtra()[c]) <= d by { ModAtMost(d, Pow2(MlExtra()[c])); }
    }
  }

  lemma ModAtMost(a: nat, k: nat)
    requires k > 0
    ensures a % k <= a
  {
    DigitBound(a, k, a + 1);
    MulMono(0, a / k, k);
  }

  /** Sequence coding preserves meaning exactly when every match length is one the wire carries:
      then the decoder rebuilds the bytes the sequences denote, and otherwise it does not. */
  lemma SequenceRoundTrip(img: SeqImage, base: seq<nat>, seqs: seq<Sequence>, hist: seq<Byte>, cap: nat, maxOffset: nat)
    requires IsMlBase(base) && Codable(seqs) && EncodesSequences(img, base, seqs)
    requires forall i :: 0 <= i < |seqs| && seqs[i].matchLen > 0 ==> base[0] <= seqs[i].matchLen
    requires Valid(hist, seqs, maxOffset) && |Denote(hist, seqs, maxOffset)| <= |hist| + cap
    requires 0 < maxOffset <= 0x100_0000
    ensures DecodeSequences(img, base, hist, cap, maxOffset) == SeqOk(Denote(hist, seqs, maxOffset))
            <==> CarriableLengths(base, seqs)
  {
    hide DecodeSequences, Interpret, Codable, Valid, Denote, Carried, Literals, Matches, CheckedImage, SeqOps, MlBase, MlBaseV2;
    LiteralsAtMost(seqs);
    DenoteLength(hist, seqs, maxOffset);
    SequencesCarried(img, base, seqs, hist, cap, maxOffset);
    InterpretDenotes(hist, Carried(base, seqs), |hist| + cap, maxOffset);
    CarriedSame(base, seqs);
    if Carried(base, seqs) != seqs {
      CarriedShorter(base, seqs);
      if Valid(hist, Carried(base, seqs), maxOffset) {
        DenoteLength(hist, Carried(base, seqs), maxOffset);
      }
    }
  }
}
