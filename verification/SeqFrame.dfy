/** The bytes of a sequence block (`vva_encode_sequences_impl`, `vva_decode_sequences_impl`,
    src/vv_ans.c:1788-2440, 2489-2700): literal section, match count, three tables, three states and
    the bitstream. */
module SeqFrame {
  import opened AnsCoder
  import opened AnsHeader
  import opened AnsTables
  import opened Bits
  import opened Bytes
  import LitCoders
  import opened Lz
  import opened Normalize
  import opened SeqCodec
  import opened SeqCodes
  import SeqDecode
  import opened SeqEncode
  import opened SeqParse
  import opened Tokens
  import opened Wire

  //////////////////////////////////////////////////////////////////////////////
  // Reading
  //////////////////////////////////////////////////////////////////////////////

  datatype Table = NoTable | Table(norm: seq<nat>, rest: seq<Byte>)

  /** A table header behind its size; one that cannot be read leaves every frequency zero. */
  function ReadTable(s: seq<Byte>): (t: Table)
    ensures t.Table? ==> |t.norm| == NSYM
  {
    if |s| < 2 then NoTable
    else
      var size := LittleEndian(s, 0, 2);
      if size > |s| - 2 then NoTable
      else
        var h := ReadHeader(s[2..2 + size]);
        Table(if h.GoodHeader? then h.norm else NoFrequencies(), s[2 + size..])
  }

  datatype ImageRead = NoImage | Image(img: SeqImage)

  /** What follows the literals. */
  function ReadRest(lits: seq<Byte>, s: seq<Byte>, cap: nat): (r: ImageRead)
    ensures r.Image? ==> |r.img.tables| == |r.img.states| == 3 && r.img.lits == lits && r.img.matchCount <= cap
    ensures r.Image? ==> forall k :: 0 <= k < 3 ==> |r.img.tables[k]| == NSYM
  {
    if |s| < 4 then NoImage
    else
      var count := LittleEndian(s, 0, 4);
      if count > cap then NoImage else ReadTables(lits, count, s[4..])
  }

  function ReadTables(lits: seq<Byte>, count: nat, s: seq<Byte>): (r: ImageRead)
    ensures r.Image? ==> |r.img.tables| == |r.img.states| == 3 && r.img.lits == lits && r.img.matchCount == count
    ensures r.Image? ==> forall k :: 0 <= k < 3 ==> |r.img.tables[k]| == NSYM
  {
    match ReadTable(s)
    case NoTable => NoImage
    case Table(ml, s1) =>
      match ReadTable(s1)
      case NoTable => NoImage
      case Table(of, s2) =>
        match ReadTable(s2)
        case NoTable => NoImage
        case Table(ll, s3) => ReadStream(lits, count, [ll, of, ml], s3)
  }

  function ReadStream(lits: seq<Byte>, count: nat, tables: seq<seq<nat>>, s: seq<Byte>): (r: ImageRead)
    ensures r.Image? ==> r.img.tables == tables && |r.img.states| == 3 && r.img.lits == lits && r.img.matchCount == count
  {
    match TakeFields(s, 2, 3)
    case Short => NoImage
    case Front(xs, rest) =>
      if |rest| < 4 then NoImage
      else
        var size := LittleEndian(rest, 0, 4);
        if size > |rest| - 4 then NoImage
        else Image(SeqImage(lits, count, tables, [xs[2], xs[1], xs[0]], rest[4..4 + size]))
  }

  /** The whole block. When literals are announced but their section is empty, the decoder leaves the
      literal buffer as it was allocated: `junk` is what such a buffer holds. */
  ghost function ReadImage(src: seq<Byte>, cap: nat, junk: nat -> Byte): (r: ImageRead)
    ensures r.Image? ==> |r.img.tables| == |r.img.states| == 3 && |r.img.lits| <= cap
    ensures r.Image? ==> forall k :: 0 <= k < 3 ==> |r.img.tables[k]| == NSYM
  {
    if |src| < 9 then NoImage
    else
      var n, fmt, size := LittleEndian(src, 0, 4), src[4], LittleEndian(src, 5, 4);
      if size > |src| - 9 || n > cap then NoImage
      else if n == 0 || size == 0 then ReadRest(Junk(n, junk), src[9 + size..], cap)
      else
        match LitCoders.DecodeLits(fmt, src[9..9 + size], n)
        case NoLits => NoImage
        case Lits(lits) => ReadRest(lits, src[9 + size..], cap)
  }

  function Junk(n: nat, junk: nat -> Byte): (r: seq<Byte>)
    ensures |r| == n
  {
    seq(n, i requires 0 <= i < n => junk(i))
  }

  /** The block announces literals, but their section is empty. */
  predicate Blank(src: seq<Byte>) {
    |src| >= 9 && LittleEndian(src, 0, 4) > 0 && LittleEndian(src, 5, 4) == 0
  }

  /** What the literal buffer held before matters to no other block. */
  lemma JunkUnread(src: seq<Byte>, base: seq<nat>, hist: seq<Byte>, cap: nat, maxOffset: nat, one: nat -> Byte, other: nat -> Byte)
    requires |base| == 36 && !Blank(src)
    ensures DecodeBlock(src, base, hist, cap, maxOffset, one) == DecodeBlock(src, base, hist, cap, maxOffset, other)
  {
    hide LittleEndian, ReadRest, LitCoders.DecodeLits, DecodeSequences;
    assert Junk(0, one) == Junk(0, other);
  }

  lemma SameBytesPacked(img: SeqImage, twin: SeqImage, fmt: Byte)
    requires Writable(img) && |img.states| == 3 && |twin.lits| == |img.lits| && twin == img.(lits := twin.lits)
    ensures Pack(twin, fmt, []) == Pack(img, fmt, [])
  {
    hide HeaderFor, LeBytes;
  }

  /** In a block of that kind it is the literals themselves: the same bytes are read back as two images. */
  lemma JunkRead(img: SeqImage, fmt: Byte, cap: nat, one: nat -> Byte, other: nat -> Byte)
    requires Writable(img) && Small(img) && img.lits == Junk(|img.lits|, one) != []
    requires |img.lits| <= cap && img.matchCount <= cap
    ensures var src, n := Pack(img, fmt, []), |img.lits|;
            && Blank(src)
            && ReadImage(src, cap, one) == Image(img) && ReadImage(src, cap, other) == Image(img.(lits := Junk(n, other)))
  {
    hide ReadTables, PackTables, LeBytes, LittleEndian, Pow2, ReadImage, Normalized, ReadRest;
    var src, twin := Pack(img, fmt, []), img.(lits := Junk(|img.lits|, other));
    assert src + [] == src;
    ImageRoundTrip(img, fmt, [], [], cap, one);
    SameBytesPacked(img, twin, fmt);
    ImageRoundTrip(twin, fmt, [], [], cap, other);
    Pow2Of32();
    var mid := LeBytes(0, 4) + ([] + (LeBytes(img.matchCount, 4) + PackTables(img)));
    FrontLe(|img.lits|, 4, [fmt] + mid);
    FrontLe(0, 4, [] + (LeBytes(img.matchCount, 4) + PackTables(img)));
    assert src[5..] == mid;
    LittleEndianSuffix(src, 5, 0, 4);
  }

  /** `vva_decode_sequences_impl`; its callers report every failure as a corrupt block. */
  ghost function DecodeBlock(src: seq<Byte>, base: seq<nat>, hist: seq<Byte>, cap: nat, maxOffset: nat, junk: nat -> Byte): BlockResult
    requires |base| == 36
  {
    match ReadImage(src, cap, junk)
    case NoImage => BlockError(Corrupt)
    case Image(img) =>
      match DecodeSequences(img, base, hist, cap, maxOffset)
      case SeqError(_) => BlockError(Corrupt)
      case SeqOk(out) => BlockOk(out)
  }

  //////////////////////////////////////////////////////////////////////////////
  // Writing
  //////////////////////////////////////////////////////////////////////////////

  ghost function HeaderFor(norm: seq<nat>): seq<Byte>
    requires Normalized(norm) || norm == NoFrequencies()
  {
    if Normalized(norm) then (NormalizedShape(norm); Header(norm)) else []
  }

  lemma HeaderSize(norm: seq<nat>)
    requires TableShape(norm)
    ensures |Header(norm)| <= 514
  {
    hide PresentCount, Sparse, Dense, LastPresent;
    assert PresentCount(norm, NSYM) <= NSYM;
  }

  lemma TableRoundTrip(norm: seq<nat>, rest: seq<Byte>)
    requires Normalized(norm) || norm == NoFrequencies()
    ensures ReadTable(LeBytes(|HeaderFor(norm)|, 2) + (HeaderFor(norm) + rest)) == Table(norm, rest)
  {
    hide Normalized, ReadHeader, Header, LittleEndian, LeBytes, Pow2;
    var h := HeaderFor(norm);
    Pow2Small();
    if Normalized(norm) {
      NormalizedShape(norm);
      HeaderSize(norm);
      HeaderRoundTrip(norm, []);
      assert h + [] == h;
    } else {
      NothingRead();
    }
    FrontLe(|h|, 2, h + rest);
    var s := LeBytes(|h|, 2) + (h + rest);
    assert s[2..][..|h|] == h && s[2..][|h|..] == rest;
    assert s[2..2 + |h|] == s[2..][..|h|] && s[2 + |h|..] == s[2..][|h|..];
  }

  lemma NothingRead()
    ensures ReadHeader([]).BadHeader?
  {
  }

  /** The bytes of an image whose literals are coded as `enc` in format `fmt`. */
  ghost function Pack(img: SeqImage, fmt: Byte, enc: seq<Byte>): seq<Byte>
    requires Writable(img) && |img.states| == 3
  {
    LeBytes(|img.lits|, 4) + ([fmt] + (LeBytes(|enc|, 4) + (enc + (LeBytes(img.matchCount, 4) + PackTables(img)))))
  }

  ghost function PackTables(img: SeqImage): seq<Byte>
    requires Writable(img) && |img.states| == 3
  {
    var ml, of, ll := HeaderFor(img.tables[ML]), HeaderFor(img.tables[OF]), HeaderFor(img.tables[LL]);
    LeBytes(|ml|, 2) + (ml + (LeBytes(|of|, 2) + (of + (LeBytes(|ll|, 2) + (ll + PackStream(img))))))
  }

  ghost function PackStream(img: SeqImage): seq<Byte>
    requires |img.states| == 3
  {
    Fields([img.states[ML], img.states[OF], img.states[LL]], 2) + (LeBytes(|img.bs|, 4) + img.bs)
  }

  ghost predicate Small(img: SeqImage) {
    && |img.states| == 3 && (forall k :: 0 <= k < 3 ==> img.states[k] < ANS_L)
    && |img.lits| < 0x1_0000_0000 && img.matchCount < 0x1_0000_0000 && |img.bs| < 0x1_0000_0000
  }

  lemma StreamRoundTrip(img: SeqImage, rest: seq<Byte>)
    requires Small(img)
    ensures ReadStream(img.lits, img.matchCount, img.tables, PackStream(img) + rest) == Image(img)
  {
    hide TakeFields, Fields, LeBytes, LittleEndian, Pow2;
    var xs := [img.states[ML], img.states[OF], img.states[LL]];
    var tail := LeBytes(|img.bs|, 4) + (img.bs + rest);
    Pow2Small();
    Pow2Of32();
    FieldsRoundTrip(xs, 2, tail);
    assert PackStream(img) + rest == Fields(xs, 2) + tail;
    FrontLe(|img.bs|, 4, img.bs + rest);
    assert tail[4..4 + |img.bs|] == tail[4..][..|img.bs|] == img.bs;
    assert [img.states[0], img.states[1], img.states[2]] == img.states;
  }

  lemma TablesRoundTrip(img: SeqImage, rest: seq<Byte>)
    requires Writable(img) && Small(img)
    ensures ReadTables(img.lits, img.matchCount, PackTables(img) + rest) == Image(img)
  {
    hide ReadTable, ReadStream, PackStream, HeaderFor, LeBytes, Normalized;
    var ml, of, ll := HeaderFor(img.tables[ML]), HeaderFor(img.tables[OF]), HeaderFor(img.tables[LL]);
    var s3 := PackStream(img) + rest;
    var s2 := LeBytes(|ll|, 2) + (ll + s3);
    var s1 := LeBytes(|of|, 2) + (of + s2);
    assert PackTables(img) + rest == LeBytes(|ml|, 2) + (ml + s1);
    TableRoundTrip(img.tables[ML], s1);
    TableRoundTrip(img.tables[OF], s2);
    TableRoundTrip(img.tables[LL], s3);
    StreamRoundTrip(img, rest);
    assert [img.tables[LL], img.tables[OF], img.tables[ML]] == img.tables;
  }

  /** The literal section of an image. */
  ghost predicate Section(img: SeqImage, fmt: Byte, enc: seq<Byte>) {
    if img.lits == [] then enc == [] else LitCoders.Codes(fmt, enc, img.lits)
  }

  /** A packed image is read back, whatever follows it; with an empty literal section its literals are what the buffer
      held. */
  lemma ImageRoundTrip(img: SeqImage, fmt: Byte, enc: seq<Byte>, rest: seq<Byte>, cap: nat, junk: nat -> Byte)
    requires Writable(img) && Small(img) && (Section(img, fmt, enc) || (enc == [] && img.lits == Junk(|img.lits|, junk)))
    requires |img.lits| <= cap && img.matchCount <= cap
    ensures ReadImage(Pack(img, fmt, enc) + rest, cap, junk) == Image(img)
  {
    hide ReadTables, PackTables, LeBytes, LittleEndian, Pow2, LitCoders.DecodeLits, Normalized;
    Pow2Of32();
    var tail := LeBytes(img.matchCount, 4) + (PackTables(img) + rest);
    var mid := LeBytes(|enc|, 4) + (enc + tail);
    var src := Pack(img, fmt, enc) + rest;
    assert src == LeBytes(|img.lits|, 4) + ([fmt] + mid);
    FrontLe(|img.lits|, 4, [fmt] + mid);
    FrontLe(|enc|, 4, enc + tail);
    assert src[4..] == [fmt] + mid;
    assert src[5..] == mid;
    LittleEndianSuffix(src, 5, 0, 4);
    assert src[9..] == mid[4..] == enc + tail;
    assert src[9..9 + |enc|] == src[9..][..|enc|] == enc && src[9 + |enc|..] == src[9..][|enc|..] == tail;
    FrontLe(img.matchCount, 4, PackTables(img) + rest);
    TablesRoundTrip(img, rest);
    assert img.lits == [] ==> Junk(0, junk) == img.lits;
  }

  //////////////////////////////////////////////////////////////////////////////
  // The size of the bitstream
  //////////////////////////////////////////////////////////////////////////////

  function OpWidth(op: Op): nat {
    match op
    case Sym(_, _) => ANS_LOG
    case Raw(_, n) => n
  }

  function Width(ops: seq<Op>): nat {
    if ops == [] then 0 else OpWidth(ops[0]) + Width(ops[1..])
  }

  lemma {:induction false} EncodedAtMost(tables: seq<seq<nat>>, ops: seq<Op>)
    requires AllEncodable(tables, ops)
    ensures |Encode(tables, ops).bits| <= Width(ops)
    decreases |ops|
  {
    hide EncStep, Normalized, DecTable;
    if ops == [] {
      EncodedEmpty(tables);
    } else {
      EncodedAtMost(tables, ops[1..]);
      if ops[0].Sym? {
        DecodeSymbol(tables, ops);
      } else {
        DecodeRaw(tables, ops);
      }
    }
  }

  lemma {:induction false} WidthAppend(a: seq<Op>, b: seq<Op>)
    ensures Width(a + b) == Width(a) + Width(b)
    decreases |a|
  {
    if a == [] {
      assert a + b == b;
    } else {
      assert (a + b)[1..] == a[1..] + b;
      WidthAppend(a[1..], b);
    }
  }

  /** An entry costs at most 88 bits: three symbols and three raw fields. */
  const ENTRY_BITS: nat := 88

  lemma LengthWidth(s: Sequence)
    ensures Width(LengthOps(s)) <= 26
  {
    hide LengthCode;
    var e := LengthCode(LlBase(), LlExtra(), |s.lits|);
    assert LlExtra()[e.code] == LlExtraAt(e.code);
    assert LengthOps(s)[1..] == [Raw(e.extra, e.nbits)];
    assert Width([Raw(e.extra, e.nbits)]) == e.nbits;
  }

  lemma MatchWidth(base: seq<nat>, rep: Rep, s: Sequence)
    requires |base| == 36
    ensures Width(MatchOps(base, rep, s)) <= 62
  {
    hide LengthCode, OffsetSymbol;
    var o, m := OffsetSymbol(rep, s.offset), LengthCode(base, MlExtra(), s.matchLen);
    assert MlExtra()[m.code] == MlExtraAt(m.code);
    var a, b := [Sym(OF, o.code), Raw(o.extra, o.nbits)], [Sym(ML, m.code), Raw(m.extra, m.nbits)];
    assert MatchOps(base, rep, s) == a + b;
    WidthAppend(a, b);
    assert a[1..] == [Raw(o.extra, o.nbits)] && b[1..] == [Raw(m.extra, m.nbits)];
    assert Width([Raw(o.extra, o.nbits)]) == o.nbits && Width([Raw(m.extra, m.nbits)]) == m.nbits;
  }

  lemma {:induction false} SeqWidth(base: seq<nat>, rep: Rep, seqs: seq<Sequence>)
    requires |base| == 36
    ensures Width(SeqOps(base, rep, seqs)) <= ENTRY_BITS * |seqs|
    decreases |seqs|
  {
    hide LengthOps, MatchOps, Width;
    if seqs == [] {
      NoWidth();
    } else {
      var rest := SeqOps(base, NextRep(rep, seqs[0]), seqs[1..]);
      SeqOpsOne(base, rep, seqs);
      WidthAppend(SequenceOps(base, rep, seqs[0]), rest);
      WidthAppend(LengthOps(seqs[0]), MatchOps(base, rep, seqs[0]));
      LengthWidth(seqs[0]);
      MatchWidth(base, rep, seqs[0]);
      SeqWidth(base, NextRep(rep, seqs[0]), seqs[1..]);
    }
  }

  lemma NoWidth()
    ensures Width([]) == 0
  {
  }

  lemma {:induction false} MatchesAtMost(seqs: seq<Sequence>)
    ensures Matches(seqs) <= |seqs|
    decreases |seqs|
  {
    if seqs != [] {
      MatchesAtMost(seqs[1..]);
    }
  }

  lemma ImageSmall(img: SeqImage, base: seq<nat>, seqs: seq<Sequence>)
    requires IsMlBase(base) && EncodesSequences(img, base, seqs)
    requires |seqs| <= 0x1600_0000 && |img.lits| < 0x1_0000_0000
    ensures Small(img)
  {
    hide Encode, Literals, SeqOps, Normalized, ByteBits, MlBase, MlBaseV2, SymbolsBelow;
    LadderMl(base);
    EncodedAtMost(img.tables, SeqOps(base, NO_REP, seqs));
    SeqWidth(base, NO_REP, seqs);
    MatchesAtMost(seqs);
    var c := Encode(img.tables, SeqOps(base, NO_REP, seqs));
    forall k | 0 <= k < 3
      ensures img.states[k] < ANS_L
    {
      assert ValidState(img.tables[k], c.states[k]);
    }
  }

  //////////////////////////////////////////////////////////////////////////////
  // Coding a block
  //////////////////////////////////////////////////////////////////////////////

  /** The bytes carry the sequences. */
  ghost predicate Carries(bytes: seq<Byte>, base: seq<nat>, seqs: seq<Sequence>)
    requires |base| == 36
  {
    exists img, fmt, enc :: CarriesImage(bytes, base, seqs, img, fmt, enc)
  }

  ghost predicate CarriesImage(bytes: seq<Byte>, base: seq<nat>, seqs: seq<Sequence>, img: SeqImage, fmt: Byte, enc: seq<Byte>)
    requires |base| == 36
  {
    && EncodesSequences(img, base, seqs) && Fitted(img, base, seqs) && Writable(img) && Small(img) && Section(img, fmt, enc)
    && bytes == Pack(img, fmt, enc)
  }

  /** The bytes carry the sequences, with the literals in no more bytes than four lanes take if those are tried. */
  ghost predicate Makes(bytes: seq<Byte>, base: seq<nat>, seqs: seq<Sequence>, ans4Est: nat)
    requires |base| == 36
  {
    exists img, fmt, enc ::
      CarriesImage(bytes, base, seqs, img, fmt, enc) && (img.lits != [] ==> LitCoders.Bested(img.lits, ans4Est, |enc|))
  }

  lemma MakesCarries(bytes: seq<Byte>, base: seq<nat>, seqs: seq<Sequence>, ans4Est: nat)
    requires |base| == 36 && Makes(bytes, base, seqs, ans4Est)
    ensures Carries(bytes, base, seqs)
  {
    hide CarriesImage;
  }

  datatype Payload = NoPayload | Payload(bytes: seq<Byte>)

  /** `vva_encode_sequences_impl`. An empty token stream gives an empty payload; exactly one that the parser
      refuses, or whose coding does not fit, gives none. */
  method EncodePayload(tokens: seq<Byte>, offBytes: nat, base: seq<nat>, dstCap: nat, noHuffman4: bool, ans4Est: nat, hufEst: nat)
    returns (r: Payload)
    requires IsMlBase(base) && 2 <= offBytes <= 3 && |tokens| <= 0x4000_0000
    requires var q := ParseTokens(tokens, 0, offBytes, base[0], false);
             q.Parsed? ==> |Literals(Entries(q.seqs))| <= LitCoders.MAX_LITERALS
    ensures tokens == [] ==> r == Payload([])
    ensures var q := ParseTokens(tokens, 0, offBytes, base[0], false);
            tokens != [] && r.Payload? ==>
              Acceptable(q) && |r.bytes| <= dstCap && |r.bytes| >= 29 && Makes(r.bytes, base, Entries(q.seqs), ans4Est)
    ensures var q := ParseTokens(tokens, 0, offBytes, base[0], false);
            r.NoPayload? && Acceptable(q) ==> exists p :: Makes(p, base, Entries(q.seqs), ans4Est) && |p| > dstCap
  {
    hide ParseTokens, Entries, MlBase, MlBaseV2, Literals, Acceptable, EncodesSequences, Fitted, LitCoders.Codes, LitCoders.Bested, PackTables, LeBytes;
    if tokens == [] {
      return Payload([]);
    }
    var coded := EncodeSequences(tokens, offBytes, base);
    if coded.SeqRefused? {
      return NoPayload;
    }
    ghost var q := ParseTokens(tokens, 0, offBytes, base[0], false);
    WasParsed(q);
    var img := coded.img;
    ImageLits(img, base, Entries(q.seqs));
    ImageSmall(img, base, Entries(q.seqs));
    var fmt, enc := LitCoders.EncodeLits(img.lits, noHuffman4, ans4Est, hufEst);
    var bytes := PackBytes(img, fmt, enc);
    PackSize(img, fmt, enc);
    assert CarriesImage(bytes, base, Entries(q.seqs), img, fmt, enc);
    assert Makes(bytes, base, Entries(q.seqs), ans4Est);
    if |bytes| > dstCap {
      return NoPayload;
    }
    r := Payload(bytes);
  }

  lemma WasParsed(q: ParseResult)
    requires Acceptable(q)
    ensures q.Parsed?
  {
  }

  lemma ImageLits(img: SeqImage, base: seq<nat>, seqs: seq<Sequence>)
    requires |base| == 36 && EncodesSequences(img, base, seqs)
    ensures img.lits == Literals(seqs) && |img.states| == 3
  {
  }

  lemma PackSize(img: SeqImage, fmt: Byte, enc: seq<Byte>)
    requires Writable(img) && |img.states| == 3
    ensures |Pack(img, fmt, enc)| >= 29
  {
    hide HeaderFor;
    FieldsSize([img.states[ML], img.states[OF], img.states[LL]], 2);
  }

  method WriteTable(norm: seq<nat>) returns (h: seq<Byte>)
    requires Normalized(norm) || norm == NoFrequencies()
    ensures h == HeaderFor(norm)
  {
    hide Normalized, Header, Sum;
    if Normalized(norm) {
      NormalizedShape(norm);
      HeaderSize(norm);
    } else {
      NothingWritten();
    }
    h := WriteHeader(norm, 600);
  }

  lemma NothingWritten()
    ensures TableShape(NoFrequencies()) && Header(NoFrequencies()) == []
  {
  }

  method PackBytes(img: SeqImage, fmt: Byte, enc: seq<Byte>) returns (bytes: seq<Byte>)
    requires Writable(img) && |img.states| == 3
    ensures bytes == Pack(img, fmt, enc)
  {
    hide HeaderFor, LeBytes, Fields, Normalized;
    var ml := WriteTable(img.tables[ML]);
    var of := WriteTable(img.tables[OF]);
    var ll := WriteTable(img.tables[LL]);
    var stream := Fields([img.states[ML], img.states[OF], img.states[LL]], 2) + (LeBytes(|img.bs|, 4) + img.bs);
    var tables := LeBytes(|ml|, 2) + (ml + (LeBytes(|of|, 2) + (of + (LeBytes(|ll|, 2) + (ll + stream)))));
    bytes := LeBytes(|img.lits|, 4) + ([fmt] + (LeBytes(|enc|, 4) + (enc + (LeBytes(img.matchCount, 4) + tables))));
  }

  /** A token stream that decodes as a block decodes to the same bytes through a payload that carries
      its entries, whatever follows the payload, exactly when every match length is one that the
      wire can carry. */
  lemma PayloadDecodes(tokens: seq<Byte>, offBytes: nat, base: seq<nat>, bytes: seq<Byte>, rest: seq<Byte>, hist: seq<Byte>,
                       cap: nat, maxOffset: nat, junk: nat -> Byte)
    requires IsMlBase(base) && 2 <= offBytes <= 3 && 0 < maxOffset <= 0x100_0000
    requires var q := ParseTokens(tokens, 0, offBytes, base[0], false);
             Acceptable(q) && Carries(bytes, base, Entries(q.seqs))
    requires DecodeTokens(tokens, 0, hist, |hist| + cap, maxOffset, offBytes, base[0]).BlockOk?
    ensures var q := ParseTokens(tokens, 0, offBytes, base[0], false);
            DecodeBlock(bytes + rest, base, hist, cap, maxOffset, junk) ==
            DecodeTokens(tokens, 0, hist, |hist| + cap, maxOffset, offBytes, base[0])
            <==> CarriableLengths(base, q.seqs)
  {
    hide ParseTokens, DecodeTokens, EncodesSequences, DecodeSequences, MlBase, MlBaseV2, Entries, Acceptable, CarriableLengths,
      ReadImage, Pack, Literals, Small, Writable, Section;
    LadderMl(base);
    var q := ParseTokens(tokens, 0, offBytes, base[0], false);
    WasParsed(q);
    var seqs := Entries(q.seqs);
    var img, fmt, enc :| CarriesImage(bytes, base, seqs, img, fmt, enc);
    BlockRoom(tokens, offBytes, base, hist, cap, maxOffset, img);
    ImageRoundTrip(img, fmt, enc, rest, cap, junk);
    TokensThroughSequences(tokens, offBytes, base, img, hist, cap, maxOffset);
  }

  /** A block's literals and matches are no more than its bytes. */
  lemma BlockRoom(tokens: seq<Byte>, offBytes: nat, base: seq<nat>, hist: seq<Byte>, cap: nat, maxOffset: nat, img: SeqImage)
    requires IsMlBase(base)
    requires var q := ParseTokens(tokens, 0, offBytes, base[0], false);
             q.Parsed? && EncodesSequences(img, base, Entries(q.seqs))
    requires DecodeTokens(tokens, 0, hist, |hist| + cap, maxOffset, offBytes, base[0]).BlockOk?
    ensures |img.lits| <= cap && img.matchCount <= cap
  {
    hide ParseTokens, DecodeTokens, MlBase, MlBaseV2, Entries, Literals, Denote, Valid, Matches;
    LadderMl(base);
    DecodeTokensDenotes(tokens, 0, hist, |hist| + cap, maxOffset, offBytes, base[0]);
    StrictParse(tokens, 0, offBytes, base[0]);
    var q := ParseTokens(tokens, 0, offBytes, base[0], false);
    EntriesDenote(hist, q.seqs, maxOffset);
    DenoteLength(hist, Entries(q.seqs), maxOffset);
    LiteralsAtMost(Entries(q.seqs));
    ImageCounts(img, base, Entries(q.seqs));
  }

  lemma ImageCounts(img: SeqImage, base: seq<nat>, seqs: seq<Sequence>)
    requires |base| == 36 && EncodesSequences(img, base, seqs)
    ensures img.lits == Literals(seqs) && img.matchCount == Matches(seqs)
  {
  }

  //////////////////////////////////////////////////////////////////////////////
  // Decoding a block
  //////////////////////////////////////////////////////////////////////////////

  method ReadPayload(src: seq<Byte>, cap: nat, junk: nat -> Byte) returns (r: ImageRead)
    ensures r == ReadImage(src, cap, junk)
  {
    hide LittleEndian, ReadRest, LitCoders.DecodeLits;
    if |src| < 9 {
      return NoImage;
    }
    var n, fmt, size := LittleEndian(src, 0, 4), src[4], LittleEndian(src, 5, 4);
    if size > |src| - 9 || n > cap {
      return NoImage;
    }
    var lits := Junk(n, junk);
    if n > 0 && size > 0 {
      var read := LitCoders.ReadLits(fmt, src[9..9 + size], n);
      if read.NoLits? {
        return NoImage;
      }
      lits := read.bytes;
    }
    r := ReadRest(lits, src[9 + size..], cap);
  }

  /** The whole decoder, into `buf` from `start` on. */
  method DecodePayload(src: seq<Byte>, base: seq<nat>, buf: array<Byte>, start: nat, cap: nat, maxOffset: nat, junk: nat -> Byte)
    returns (ok: bool, end: nat)
    requires IsMlBase(base) && start + cap <= buf.Length
    modifies buf
    ensures |base| == 36 && start <= end <= start + cap
    ensures buf[start + cap..] == old(buf[start + cap..]) && buf[..start] == old(buf[..start])
    ensures DecodeBlock(src, base, old(buf[..start]), cap, maxOffset, junk) ==
            if ok then BlockOk(buf[..end]) else BlockError(Corrupt)
  {
    hide ReadImage, DecodeSequences, MlBase, MlBaseV2;
    LadderMl(base);
    var r := ReadPayload(src, cap, junk);
    if r.NoImage? {
      return false, start;
    }
    var o;
    o, end := SeqDecode.VvaDecodeSequences(r.img, base, Junk(16, junk), buf, start, cap, maxOffset);
    ok := o.Fine?;
  }
}
