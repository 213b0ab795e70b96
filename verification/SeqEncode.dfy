/** The sequence encoder (`vva_encode_sequences_impl`, src/vv_ans.c) from token stream to coded
    block, and the end-to-end meaning of a coded token stream. */
module SeqEncode {
  import opened AnsBuild
  import opened AnsCoder
  import opened AnsEncode
  import opened AnsHeader
  import opened AnsSingle
  import opened AnsTables
  import opened Arith
  import opened BitIo
  import opened Bits
  import opened Bytes
  import opened Lz
  import opened Normalize
  import opened SeqCodec
  import opened SeqCodes
  import opened SeqParse

  //////////////////////////////////////////////////////////////////////////////
  // Forward pass
  //////////////////////////////////////////////////////////////////////////////

  /** The code symbols used, per table. */
  datatype Tally = Tally(ll: seq<Byte>, of: seq<Byte>, ml: seq<Byte>)

  ghost predicate Tallied(t: Tally, op: Op) {
    match op
    case Sym(k, c) => (k == LL && c in t.ll) || (k == OF && c in t.of) || (k == ML && c in t.ml)
    case Raw(v, n) => v < Pow2(n) && n <= MAX_FIELD
  }

  ghost predicate AllTallied(t: Tally, ops: seq<Op>) {
    forall i :: 0 <= i < |ops| ==> Tallied(t, ops[i])
  }

  /** The codes that one of the three tables codes. */
  function CodesIn(ops: seq<Op>, k: nat): seq<Byte> {
    if ops == [] then []
    else (if ops[0].Sym? && ops[0].table == k then [ops[0].symbol] else []) + CodesIn(ops[1..], k)
  }

  lemma {:induction false} CodesAppend(a: seq<Op>, b: seq<Op>, k: nat)
    ensures CodesIn(a + b, k) == CodesIn(a, k) + CodesIn(b, k)
  {
    if a == [] {
      assert a + b == b;
    } else {
      assert (a + b)[1..] == a[1..] + b;
      CodesAppend(a[1..], b, k);
    }
  }

  ghost predicate TallyOf(t: Tally, ops: seq<Op>) {
    t.ll == CodesIn(ops, LL) && t.of == CodesIn(ops, OF) && t.ml == CodesIn(ops, ML)
  }

  lemma CodesStep(op: Op, rest: seq<Op>, k: nat)
    ensures CodesIn([op] + rest, k) == (if op.Sym? && op.table == k then [op.symbol] else []) + CodesIn(rest, k)
  {
    assert ([op] + rest)[1..] == rest;
  }

  lemma RawUncoded(op: Op, v: nat, n: nat, k: nat)
    ensures CodesIn([op, Raw(v, n)], k) == if op.Sym? && op.table == k then [op.symbol] else []
  {
    CodesStep(Raw(v, n), [], k);
    CodesStep(op, [Raw(v, n)], k);
    assert [op] + [Raw(v, n)] == [op, Raw(v, n)] && [Raw(v, n)] + [] == [Raw(v, n)];
  }

  lemma LengthTally(t: Tally, ops: seq<Op>, c: Byte, v: nat, n: nat)
    requires TallyOf(t, ops)
    ensures TallyOf(t.(ll := t.ll + [c]), ops + [Sym(LL, c), Raw(v, n)])
  {
    hide CodesIn;
    forall k
      ensures CodesIn(ops + [Sym(LL, c), Raw(v, n)], k) == CodesIn(ops, k) + if k == LL then [c] else []
    {
      CodesAppend(ops, [Sym(LL, c), Raw(v, n)], k);
      RawUncoded(Sym(LL, c), v, n, k);
    }
  }

  lemma MatchTally(t: Tally, ops: seq<Op>, c: Byte, v: nat, n: nat, d: Byte, w: nat, m: nat)
    requires TallyOf(t, ops)
    ensures TallyOf(t.(of := t.of + [c], ml := t.ml + [d]), ops + [Sym(OF, c), Raw(v, n), Sym(ML, d), Raw(w, m)])
  {
    hide CodesIn;
    var a, b := [Sym(OF, c), Raw(v, n)], [Sym(ML, d), Raw(w, m)];
    assert [Sym(OF, c), Raw(v, n), Sym(ML, d), Raw(w, m)] == a + b;
    forall k
      ensures CodesIn(ops + (a + b), k) == CodesIn(ops, k) + if k == OF then [c] else if k == ML then [d] else []
    {
      CodesAppend(ops, a + b, k);
      CodesAppend(a, b, k);
      RawUncoded(a[0], v, n, k);
      RawUncoded(b[0], w, m, k);
    }
  }

  ghost predicate CodesBelow(codes: seq<Byte>, n: nat) {
    forall i :: 0 <= i < |codes| ==> codes[i] < n
  }

  ghost predicate TallyShape(t: Tally, matched: nat, n: nat) {
    && CodesBelow(t.ll, LL_CODES) && CodesBelow(t.of, OF_CODES) && CodesBelow(t.ml, ML_CODES)
    && |t.of| == |t.ml| == matched && |t.ll| == n
  }

  lemma TallyGrows(t: Tally, u: Tally, ops: seq<Op>, more: seq<Op>)
    requires AllTallied(t, ops) && AllTallied(u, more)
    requires t.ll <= u.ll && t.of <= u.of && t.ml <= u.ml
    ensures AllTallied(u, ops + more)
  {
    forall i | 0 <= i < |ops + more|
      ensures Tallied(u, (ops + more)[i])
    {
      if i < |ops| {
        assert Tallied(t, ops[i]);
      } else {
        assert Tallied(u, more[i - |ops|]);
      }
    }
  }

  lemma WidthsSmall()
    ensures forall c: nat :: c < 36 ==> LlExtra()[c] <= MAX_FIELD && MlExtra()[c] <= MAX_FIELD
  {
  }

  /** The offset code of one match: repeat codes first. */
  method ChooseOffset(rep: Rep, offset: nat) returns (e: SeqCodes.Coded)
    ensures e == OffsetSymbol(rep, offset)
  {
    if offset == rep.r0 && offset != 0 {
      e := SeqCodes.Coded(0, 0, 0);
    } else if offset == rep.r1 && offset != 0 {
      e := SeqCodes.Coded(1, 0, 0);
    } else if offset == rep.r2 && offset != 0 {
      e := SeqCodes.Coded(2, 0, 0);
    } else {
      e := EncodeOffset(offset);
    }
  }

  /** The forward pass: codes, extra bits and repeat history of every entry. */
  method BuildOps(entries: seq<SeqEntry>, base: seq<nat>, ghost lits: seq<Byte>, ghost seqs: seq<Sequence>)
    returns (ops: seq<Op>, tally: Tally, matched: nat)
    requires IsMlBase(base) && Describes(entries, lits, seqs)
    ensures ops == SeqOps(base, NO_REP, seqs)
    ensures TallyOf(tally, ops) && AllTallied(tally, ops) && TallyShape(tally, matched, |entries|)
    ensures matched == Matches(seqs) <= |entries|
    ensures |ops| <= 6 * |entries|
  {
    hide LengthCode, MlBase, MlBaseV2, MlExtra, LlBase, LlExtra, OffsetSymbol, SeqOps, Matches, Literals, Describes, Ladder, Pow2, CodesIn;
    LadderMl(base);
    LadderLl();
    WidthsSmall();
    DescribesLength(entries, lits, seqs);
    var rep := NO_REP;
    ops, tally, matched := [], Tally([], [], []), 0;
    NothingTallied();
    assert seqs[0..] == seqs && [] + SeqOps(base, NO_REP, seqs) == SeqOps(base, NO_REP, seqs);
    for i := 0 to |entries|
      invariant ops + SeqOps(base, rep, seqs[i..]) == SeqOps(base, NO_REP, seqs)
      invariant TallyOf(tally, ops) && AllTallied(tally, ops) && TallyShape(tally, matched, i)
      invariant matched + Matches(seqs[i..]) == Matches(seqs)
      invariant |ops| <= 6 * i && matched <= i
    {
      ghost var s := seqs[i];
      EntryOf(entries, lits, seqs, i);
      assert seqs[i..][0] == s && seqs[i..][1..] == seqs[i + 1..];
      MatchesStep(seqs[i..]);
      SeqOpsOne(base, rep, seqs[i..]);
      var e := EncodeLength(LlBase(), LlExtra(), entries[i].litLen);
      var more := [Sym(LL, e.code), Raw(e.extra, e.nbits)];
      var next := tally.(ll := tally.ll + [e.code]);
      LengthTally(tally, ops, e.code, e.extra, e.nbits);
      ghost var rep0 := rep;
      if entries[i].matchLen > 0 {
        var o := ChooseOffset(rep, entries[i].offset);
        var m := EncodeLength(base, MlExtra(), entries[i].matchLen);
        ghost var matchOps := [Sym(OF, o.code), Raw(o.extra, o.nbits), Sym(ML, m.code), Raw(m.extra, m.nbits)];
        MatchTally(next, ops + more, o.code, o.extra, o.nbits, m.code, m.extra, m.nbits);
        AppendAssociative(ops, more, matchOps);
        more := more + [Sym(OF, o.code), Raw(o.extra, o.nbits), Sym(ML, m.code), Raw(m.extra, m.nbits)];
        next := next.(of := next.of + [o.code], ml := next.ml + [m.code]);
        rep := PushRep(rep, entries[i].offset);
        matched := matched + 1;
      }
      assert more == SequenceOps(base, rep0, s);
      TallyGrows(tally, next, ops, more);
      AppendAssociative(ops, more, SeqOps(base, rep, seqs[i + 1..]));
      ops, tally := ops + more, next;
    }
    NothingLeft(base, rep, seqs[|entries|..], ops);
  }

  lemma NothingTallied()
    ensures TallyOf(Tally([], [], []), [])
  {
  }

  lemma NothingLeft(base: seq<nat>, rep: Rep, rest: seq<Sequence>, ops: seq<Op>)
    requires |base| == 36 && rest == []
    ensures ops + SeqOps(base, rep, rest) == ops && Matches(rest) == 0
  {
  }

  lemma EntryOf(entries: seq<SeqEntry>, lits: seq<Byte>, seqs: seq<Sequence>, i: nat)
    requires Describes(entries, lits, seqs) && i < |seqs|
    ensures i < |entries|
    ensures entries[i].litLen == |seqs[i].lits| && entries[i].matchLen == seqs[i].matchLen && entries[i].offset == seqs[i].offset
  {
    hide Literals;
    assert EntrySequence(entries[i], lits) == seqs[i];
  }

  lemma SeqOpsOne(base: seq<nat>, rep: Rep, seqs: seq<Sequence>)
    requires |base| == 36 && seqs != []
    ensures SeqOps(base, rep, seqs) ==
            SequenceOps(base, rep, seqs[0]) + SeqOps(base, NextRep(rep, seqs[0]), seqs[1..])
  {
  }

  //////////////////////////////////////////////////////////////////////////////
  // Tables
  //////////////////////////////////////////////////////////////////////////////

  ghost predicate TableFor(norm: seq<nat>, codes: seq<Byte>, n: nat) {
    && SymbolsBelow(norm, n)
    && (codes != [] ==> Normalized(norm) && forall i :: 0 <= i < |codes| ==> norm[codes[i]] > 0)
  }

  /** The table the normalization gives the codes; an empty one when there are none. */
  ghost predicate FittedTable(codes: seq<Byte>, norm: seq<nat>) {
    if codes == [] then norm == NoFrequencies() else Tabled(codes, norm)
  }

  /** The three tables are fitted to the codes of the sequences. */
  ghost predicate Fitted(img: SeqImage, base: seq<nat>, seqs: seq<Sequence>)
    requires |base| == 36
  {
    |img.tables| == 3 && forall k :: 0 <= k < 3 ==> FittedTable(CodesIn(SeqOps(base, NO_REP, seqs), k), img.tables[k])
  }

  /** What the sequences, and nothing else, decide of their image: all of it but the filling bits of the last byte. */
  lemma OneImage(img: SeqImage, other: SeqImage, base: seq<nat>, seqs: seq<Sequence>)
    requires |base| == 36 && EncodesSequences(img, base, seqs) && Fitted(img, base, seqs)
    requires EncodesSequences(other, base, seqs) && Fitted(other, base, seqs)
    ensures other == img.(bs := other.bs) && |other.bs| == |img.bs|
    ensures exists bits :: bits <= ByteBits(img.bs) && bits <= ByteBits(other.bs) && (|bits| + 7) / 8 == |img.bs|
  {
    hide CodesIn, SeqOps, Tabled, CheckedImage, AllEncodable, Encode, Literals, Matches;
    forall k | 0 <= k < 3
      ensures img.tables[k] == other.tables[k]
    {
      var codes := CodesIn(SeqOps(base, NO_REP, seqs), k);
      if codes != [] {
        OneTable(codes, img.tables[k], other.tables[k]);
      }
    }
    assert img.tables == other.tables;
  }

  /** Normalized frequencies of the codes used; all zero when none is used. */
  method CodeTable(codes: seq<Byte>, n: nat) returns (norm: seq<nat>)
    requires CodesBelow(codes, n) && n <= NSYM && |codes| <= 0x8000_0000
    ensures TableFor(norm, codes, n) && FittedTable(codes, norm)
  {
    hide Sum, Normalized, Apportioned;
    var raw := CountBytes(codes);
    var f, np := NormalizeFreq(raw[..]);
    norm := f[..];
    UnusedStayZero(raw[..], norm, codes, n, np);
    if np > 0 {
      HistogramCovers(raw[..], norm, codes);
      CoversEach(norm, codes);
      assert raw[..] == CountsOf(codes);
    } else {
      NoCodes(codes, raw[..]);
      assert norm == NoFrequencies();
    }
  }

  lemma CoversEach(norm: seq<nat>, codes: seq<Byte>)
    requires Covers(norm, codes)
    ensures Normalized(norm) && forall i :: 0 <= i < |codes| ==> norm[codes[i]] > 0
  {
  }

  lemma NoCodes(codes: seq<Byte>, raw: seq<nat>)
    requires |raw| == NSYM && Sum(raw) == |codes| == 0
    ensures codes == []
  {
  }

  lemma UnusedStayZero(raw: seq<nat>, norm: seq<nat>, codes: seq<Byte>, n: nat, np: nat)
    requires |raw| == |norm| == NSYM && CodesBelow(codes, n) && n <= NSYM
    requires forall s :: 0 <= s < NSYM ==> raw[s] == multiset(codes)[s]
    requires np == 0 ==> forall i :: 0 <= i < NSYM ==> norm[i] == 0
    requires np > 0 ==> Sum(raw) > 0 && Apportioned(raw, norm)
    ensures SymbolsBelow(norm, n)
  {
    hide Sum, Bases, Remainders, LargestRemainders;
    forall s | n <= s < NSYM
      ensures norm[s] == 0
    {
      assert s !in codes;
      assert raw[s] == 0;
    }
  }

  lemma TalliedEncodable(t: Tally, ops: seq<Op>, tables: seq<seq<nat>>)
    requires |tables| == 3 && AllTallied(t, ops)
    requires TableFor(tables[LL], t.ll, LL_CODES) && TableFor(tables[OF], t.of, OF_CODES) && TableFor(tables[ML], t.ml, ML_CODES)
    ensures AllEncodable(tables, ops)
    ensures forall i :: 0 <= i < |ops| ==> InRange(tables, ops[i])
  {
    hide Normalized, SymbolsBelow, Pow2;
    forall i | 0 <= i < |ops|
      ensures Encodable(tables, ops[i]) && InRange(tables, ops[i])
    {
      assert Tallied(t, ops[i]);
    }
  }

  method BuildTables(tables: seq<seq<nat>>) returns (encs: seq<EncCtx>)
    requires |tables| == 3 && Normalized(tables[LL])
    requires Normalized(tables[OF]) <==> Normalized(tables[ML])
    ensures AllReady(tables, encs)
  {
    hide Normalized, EncTable, Cum;
    var ll := BuildAll(tables[LL]);
    encs := [ll, ll, ll];
    var sum := Sum(tables[OF]);
    if |tables[OF]| == NSYM && sum == ANS_L {
      assert Normalized(tables[OF]) by { FullTable(tables[OF]); }
      var of := BuildAll(tables[OF]);
      var ml := BuildAll(tables[ML]);
      encs := [ll, of, ml];
    } else {
      assert !Normalized(tables[OF]) by { NotFullTable(tables[OF]); }
    }
  }

  lemma FullTable(norm: seq<nat>)
    requires |norm| == NSYM && Sum(norm) == ANS_L
    ensures Normalized(norm)
  {
  }

  lemma NotFullTable(norm: seq<nat>)
    requires !(|norm| == NSYM && Sum(norm) == ANS_L)
    ensures !Normalized(norm)
  {
  }

  /** The parsed token stream, refused or coded. */
  datatype SeqEncoded = SeqRefused | SeqCoded(img: SeqImage)

  /** Every table has a header that can be written: it is in use, or empty. */
  ghost predicate Writable(img: SeqImage) {
    |img.tables| == 3 && forall k :: 0 <= k < 3 ==> Normalized(img.tables[k]) || img.tables[k] == NoFrequencies()
  }

  /** `vva_encode_sequences_impl`: an acceptable token stream becomes an encoding of its entries. */
  method EncodeSequences(tokens: seq<Byte>, offBytes: nat, base: seq<nat>) returns (r: SeqEncoded)
    requires IsMlBase(base) && 2 <= offBytes <= 3 && |tokens| <= 0x4000_0000
    ensures var q := ParseTokens(tokens, 0, offBytes, base[0], false);
            && (r.SeqCoded? <==> Acceptable(q))
            && (r.SeqCoded? ==> EncodesSequences(r.img, base, Entries(q.seqs)) && Writable(r.img) && Fitted(r.img, base, Entries(q.seqs)))
            && (r.SeqCoded? ==> |Entries(q.seqs)| <= |tokens| / 3 + |tokens| / 65535 + 2)
  {
    hide ParseTokens, Entries, Describes, MlBase, MlBaseV2, Literals;
    LadderMl(base);
    var p := ParseSequences(tokens, offBytes, base[0]);
    if p.entries == [] {
      return SeqRefused;
    }
    ghost var q := ParseTokens(tokens, 0, offBytes, base[0], false);
    DescribesLength(p.entries, p.lits, Entries(q.seqs));
    var img := EncodeEntries(p.entries, p.lits, base, Entries(q.seqs));
    r := SeqCoded(img);
  }

  method EncodeEntries(entries: seq<SeqEntry>, lits: seq<Byte>, base: seq<nat>, ghost seqs: seq<Sequence>) returns (img: SeqImage)
    requires IsMlBase(base) && 0 < |entries| <= 0x8000_0000
    requires Describes(entries, lits, seqs) && lits == Literals(seqs)
    ensures EncodesSequences(img, base, seqs) && Writable(img) && Fitted(img, base, seqs)
  {
    hide Describes, MlBase, MlBaseV2, Literals, SeqOps, Matches, Normalized, SymbolsBelow, AllTallied, PairBits,
      AllReady, Ready, Encode, ByteBits, Pow2, CodesIn, FittedTable;
    LadderMl(base);
    var ops, tally, matched := BuildOps(entries, base, lits, seqs);
    var ll := CodeTable(tally.ll, LL_CODES);
    var of := CodeTable(tally.of, OF_CODES);
    var ml := CodeTable(tally.ml, ML_CODES);
    if matched == 0 {
      of, ml := NoFrequencies(), NoFrequencies();
      EmptyTables(tally);
    }
    var tables := [ll, of, ml];
    TalliedEncodable(tally, ops, tables);
    var encs := BuildTables(tables);
    var states, pairs, ok := BackwardEncode(tables, encs, ops);
    PairBitsBound(pairs[..], MAX_FIELD);
    var buf, len := WritePairs(pairs, 24 * |entries| + 16);
    img := SeqImage(lits, matched, tables, states[..], buf[..len]);
  }

  lemma EmptyTables(t: Tally)
    requires t.of == [] && t.ml == []
    ensures FittedTable(t.of, NoFrequencies()) && FittedTable(t.ml, NoFrequencies())
    ensures TableFor(NoFrequencies(), t.of, OF_CODES) && TableFor(NoFrequencies(), t.ml, ML_CODES)
    ensures !Normalized(NoFrequencies())
  {
    ZeroSum(NoFrequencies());
  }

  //////////////////////////////////////////////////////////////////////////////
  // End to end
  //////////////////////////////////////////////////////////////////////////////

  lemma {:induction false} LittleEndianBound(s: seq<Byte>, p: nat, n: nat)
    requires p + n <= |s|
    ensures LittleEndian(s, p, n) < Pow2(8 * n)
    decreases n
  {
    if n > 0 {
      LittleEndianBound(s, p + 1, n - 1);
      Pow2Small();
      Pow2Add(8, 8 * (n - 1));
    }
  }

  /** Parsed sequences: only the last may lack a match, and lengths and offsets fit their fields. */
  lemma {:induction false} ParsedShape(s: seq<Byte>, p: nat, offBytes: nat, minMatch: nat, strict: bool)
    requires minMatch > 0 && offBytes <= 3
    ensures var q := ParseTokens(s, p, offBytes, minMatch, strict);
            q.Parsed? ==>
              && (forall i :: 0 <= i < |q.seqs| - 1 ==> q.seqs[i].matchLen > 0)
              && (forall i :: 0 <= i < |q.seqs| && q.seqs[i].matchLen > 0 ==>
                    q.seqs[i].matchLen >= minMatch && q.seqs[i].offset < Pow2(24))
    decreases |s| - p
  {
    hide ReadLength, LittleEndian, Pow2;
    if p < |s| {
      var t := ReadToken(s, p, offBytes, minMatch, strict);
      if t.FullToken? {
        ParsedShape(s, t.next, offBytes, minMatch, strict);
        var ll := ReadLength(s, s[p] / 16, p + 1, strict);
        LittleEndianBound(s, ll.next + ll.value, offBytes);
        Pow2Monotone(8 * offBytes, 24);
      }
    }
  }

  lemma {:induction false} SplitRunShape(lits: seq<Byte>)
    ensures forall i :: 0 <= i < |SplitRun(lits)| ==> SplitRun(lits)[i].matchLen == 0 && |SplitRun(lits)[i].lits| <= LL_MAX
    ensures forall i :: 0 <= i < |SplitRun(lits)| - 1 ==> SplitRun(lits)[i].lits != []
    decreases |lits|
  {
    if |lits| > LL_MAX {
      SplitRunShape(lits[LL_MAX..]);
    }
  }

  lemma {:induction false} ValidOffsets(out: seq<Byte>, seqs: seq<Sequence>, maxOffset: nat)
    requires Valid(out, seqs, maxOffset)
    ensures forall i :: 0 <= i < |seqs| && seqs[i].matchLen > 0 ==> seqs[i].offset >= 1
    decreases |seqs|
  {
    if seqs != [] {
      ValidOffsets(Lz.Emit(out, seqs[0]), seqs[1..], maxOffset);
    }
  }

  /** The entries of an acceptable parse with offsets of at least 1 are codable. */
  lemma EntriesCodable(q: ParseResult, minMatch: nat)
    requires Acceptable(q)
    requires forall i :: 0 <= i < |q.seqs| - 1 ==> q.seqs[i].matchLen > 0
    requires forall i :: 0 <= i < |q.seqs| && q.seqs[i].matchLen > 0 ==>
               q.seqs[i].matchLen >= minMatch && 1 <= q.seqs[i].offset < Pow2(24)
    ensures Codable(Entries(q.seqs))
    ensures forall i :: 0 <= i < |Entries(q.seqs)| && Entries(q.seqs)[i].matchLen > 0 ==>
              Entries(q.seqs)[i].matchLen >= minMatch
  {
    hide Pow2, SplitRun;
    var n := |q.seqs| - 1;
    if q.seqs[n].matchLen == 0 {
      SplitRunShape(q.seqs[n].lits);
      CodableJoin(q.seqs[..n], SplitRun(q.seqs[n].lits), minMatch);
    }
  }

  lemma CodableJoin(a: seq<Sequence>, b: seq<Sequence>, minMatch: nat)
    requires forall i :: 0 <= i < |a| ==>
               a[i].matchLen > 0 && a[i].matchLen >= minMatch && 1 <= a[i].offset < Pow2(24) && |a[i].lits| <= LL_MAX
    requires forall i :: 0 <= i < |b| ==> b[i].matchLen == 0 && |b[i].lits| <= LL_MAX
    requires forall i :: 0 <= i < |b| - 1 ==> b[i].lits != []
    ensures Codable(a + b)
    ensures forall i :: 0 <= i < |a + b| && (a + b)[i].matchLen > 0 ==> (a + b)[i].matchLen >= minMatch
  {
    hide Pow2;
  }

  lemma EntriesLengths(base: seq<nat>, seqs: seq<Sequence>)
    requires |base| == 36
    ensures CarriableLengths(base, Entries(seqs)) <==> CarriableLengths(base, seqs)
  {
    if seqs != [] && seqs[|seqs| - 1].matchLen == 0 {
      var n := |seqs| - 1;
      SplitRunShape(seqs[n].lits);
      var e := Entries(seqs);
      if CarriableLengths(base, e) {
        forall i | 0 <= i < |seqs| && seqs[i].matchLen > 0
          ensures base[0] <= seqs[i].matchLen < base[0] + 65532
        {
          assert e[i] == seqs[i];
        }
      }
    }
  }

  /** A token block and its sequence-coded form mean the same. Whenever the block decoder accepts
      a token stream the sequence coder takes, decoding the coded block returns the block decoder's
      bytes if and only if every match length is one the wire carries. */
  lemma TokensThroughSequences(tokens: seq<Byte>, offBytes: nat, base: seq<nat>, img: SeqImage,
                               hist: seq<Byte>, cap: nat, maxOffset: nat)
    requires IsMlBase(base) && 2 <= offBytes <= 3 && 0 < maxOffset <= 0x100_0000
    requires var q := ParseTokens(tokens, 0, offBytes, base[0], false);
             Acceptable(q) && EncodesSequences(img, base, Entries(q.seqs))
    requires DecodeTokens(tokens, 0, hist, |hist| + cap, maxOffset, offBytes, base[0]).BlockOk?
    ensures var q := ParseTokens(tokens, 0, offBytes, base[0], false);
            DecodeSequences(img, base, hist, cap, maxOffset) ==
            SeqOk(DecodeTokens(tokens, 0, hist, |hist| + cap, maxOffset, offBytes, base[0]).out)
            <==> CarriableLengths(base, q.seqs)
  {
    hide ParseTokens, DecodeTokens, Valid, Denote, EncodesSequences, DecodeSequences, Codable, MlBase, MlBaseV2, Entries, Pow2;
    LadderMl(base);
    DecodeTokensDenotes(tokens, 0, hist, |hist| + cap, maxOffset, offBytes, base[0]);
    StrictParse(tokens, 0, offBytes, base[0]);
    var q := ParseTokens(tokens, 0, offBytes, base[0], false);
    ParsedShape(tokens, 0, offBytes, base[0], false);
    ValidOffsets(hist, q.seqs, maxOffset);
    EntriesCodable(q, base[0]);
    EntriesDenote(hist, q.seqs, maxOffset);
    EntriesLengths(base, q.seqs);
    SequenceRoundTrip(img, base, Entries(q.seqs), hist, cap, maxOffset);
  }
}
