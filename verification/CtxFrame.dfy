/** The bytes of a context-coded block (`vva_encode_ctx`, `vva_decode_ctx`, src/vv_ans.c:1020-1403):
    global table, a bit per context that inherits it, the other tables, 256 states, the bitstream. */
module CtxFrame {
  import opened AnsContext
  import opened AnsHeader
  import opened AnsSingle
  import opened AnsTables
  import opened Bits
  import opened Bytes
  import opened Lz
  import opened Normalize
  import opened Tokens
  import opened Wire

  const BITMAP: nat := 32
  const STATES: nat := 512

  //////////////////////////////////////////////////////////////////////////////
  // Reading
  //////////////////////////////////////////////////////////////////////////////

  datatype Sized = NoTable | Sized(norm: seq<nat>, rest: seq<Byte>)

  /** A table behind its size: it must be readable and fill the state space. */
  function ReadSized(s: seq<Byte>): (t: Sized)
    ensures t.Sized? ==> Normalized(t.norm) && |t.rest| <= |s|
  {
    if |s| < 2 then NoTable
    else
      var size := LittleEndian(s, 0, 2);
      if size > |s| - 2 then NoTable
      else
        match ReadHeader(s[2..2 + size])
        case BadHeader => NoTable
        case GoodHeader(norm, _) => if Sum(norm) != ANS_L then NoTable else Sized(norm, s[2 + size..])
  }

  datatype Own = BadTables | Own(tables: seq<seq<nat>>, rest: seq<Byte>)

  /** The tables of the contexts from `c` on that do not inherit. Each names the context it is for,
      and the decoder does not ask that this be the context whose turn it is. */
  function ReadOwn(s: seq<Byte>, inherited: seq<bool>, c: nat, tables: seq<seq<nat>>): (r: Own)
    requires |inherited| == |tables| == NSYM && c <= NSYM
    ensures r.Own? ==> |r.tables| == NSYM && |r.rest| <= |s|
    decreases NSYM - c
  {
    if c == NSYM then Own(tables, s)
    else if inherited[c] then ReadOwn(s, inherited, c + 1, tables)
    else if |s| < 1 then BadTables
    else
      match ReadSized(s[1..])
      case NoTable => BadTables
      case Sized(norm, rest) => ReadOwn(rest, inherited, c + 1, tables[s[0] := norm])
  }

  function AllOf(norm: seq<nat>): (t: seq<seq<nat>>)
    ensures |t| == NSYM && forall c :: 0 <= c < NSYM ==> t[c] == norm
  {
    seq(NSYM, c requires 0 <= c < NSYM => norm)
  }

  datatype ImageRead = NoImage | Image(img: CtxImage, used: nat)

  /** The whole header; `used` is its size. */
  function ReadImage(src: seq<Byte>): (r: ImageRead)
    ensures r.Image? ==> |r.img.tables| == |r.img.states| == NSYM && r.used + |r.img.bs| == |src|
  {
    match ReadSized(src)
    case NoTable => NoImage
    case Sized(global, s1) =>
      if |s1| < BITMAP then NoImage
      else
        match ReadOwn(s1[BITMAP..], ByteBits(s1[..BITMAP]), 0, AllOf(global))
        case BadTables => NoImage
        case Own(tables, s2) =>
          match TakeFields(s2, 2, NSYM)
          case Short => NoImage
          case Front(states, bs) => Image(CtxImage(tables, states, bs), |src| - |bs|)
  }

  /** `vva_decode_ctx` on every input. */
  ghost function DecodeBytes(src: seq<Byte>, dstCap: nat, num: nat): DecodeResult {
    if num == 0 then Decoded([], 0)
    else if num > dstCap then DecodeFailed(Error.Overflow)
    else
      match ReadImage(src)
      case NoImage => DecodeFailed(Error.Corrupt)
      case Image(img, used) =>
        match DecodeContexts(img, dstCap, num)
        case DecodeFailed(e) => DecodeFailed(e)
        case Decoded(bytes, n) => Decoded(bytes, used + n)
  }

  lemma {:induction false} RunSize(tables: seq<seq<nat>>, states: seq<nat>, stream: seq<bool>, t: nat, prev: Byte, n: nat)
    requires CtxTables(tables) && |states| == NSYM
    ensures CtxRun(tables, states, stream, t, prev, n).CtxDone? ==> |CtxRun(tables, states, stream, t, prev, n).bytes| == n
    decreases n
  {
    hide Normalized, DecTable, AnsCoder.NextState;
    CtxRunStep(tables, states, stream, t, prev, n);
    if n > 0 && states[prev] < ANS_L {
      var e := DecTable(tables[prev])[states[prev]];
      RunSize(tables, states[prev := AnsCoder.NextState(e, stream, t)], stream, t + e.nbits, e.symbol, n - 1);
    }
  }

  /** A successful decode gives as many bytes as were asked for. */
  lemma DecodedSize(src: seq<Byte>, dstCap: nat, num: nat)
    ensures DecodeBytes(src, dstCap, num).Decoded? ==> |DecodeBytes(src, dstCap, num).dst| == num
  {
    hide ReadImage, CtxRun, Normalized;
    if ReadImage(src).Image? && CtxTables(ReadImage(src).img.tables) {
      var img := ReadImage(src).img;
      RunSize(img.tables, img.states, ByteBits(img.bs), 0, 0, num);
    }
  }

  //////////////////////////////////////////////////////////////////////////////
  // Writing
  //////////////////////////////////////////////////////////////////////////////

  /** Eight bits to a byte. */
  function PackBits(bits: seq<bool>): (b: seq<Byte>)
    requires |bits| % 8 == 0
    decreases |bits|
  {
    if bits == [] then []
    else
      ValBound(bits[..8]);
      Pow2Small();
      [Val(bits[..8])] + PackBits(bits[8..])
  }

  lemma {:induction false} PackedBits(bits: seq<bool>)
    requires |bits| % 8 == 0
    ensures ByteBits(PackBits(bits)) == bits && 8 * |PackBits(bits)| == |bits|
    decreases |bits|
  {
    if bits != [] {
      PackedBits(bits[8..]);
      ToBitsVal(bits[..8]);
      assert bits == bits[..8] + bits[8..];
      assert PackBits(bits)[1..] == PackBits(bits[8..]);
    }
  }

  ghost function SizedBytes(norm: seq<nat>): seq<Byte>
    requires Normalized(norm)
  {
    NormalizedShape(norm);
    LeBytes(|Header(norm)|, 2) + Header(norm)
  }

  lemma SizedRoundTrip(norm: seq<nat>, rest: seq<Byte>)
    requires Normalized(norm)
    ensures ReadSized(SizedBytes(norm) + rest) == Sized(norm, rest)
  {
    hide ReadHeader, Header, LittleEndian, LeBytes, Pow2, Sum;
    NormalizedShape(norm);
    var h := Header(norm);
    HeaderFits(norm);
    Pow2Small();
    HeaderRoundTrip(norm, []);
    assert h + [] == h;
    FrontLe(|h|, 2, h + rest);
    var s := SizedBytes(norm) + rest;
    assert s == LeBytes(|h|, 2) + (h + rest);
    assert s[2..][..|h|] == h && s[2..][|h|..] == rest;
    assert s[2..2 + |h|] == s[2..][..|h|] && s[2 + |h|..] == s[2..][|h|..];
  }

  lemma HeaderFits(norm: seq<nat>)
    requires TableShape(norm)
    ensures |Header(norm)| <= 514
  {
    hide PresentCount, Sparse, Dense, LastPresent;
    assert PresentCount(norm, NSYM) <= NSYM;
  }

  /** The tables of the contexts from `c` on that do not inherit. */
  ghost function OwnBytes(tables: seq<seq<nat>>, inherited: seq<bool>, c: nat): seq<Byte>
    requires CtxTables(tables) && |inherited| == NSYM && c <= NSYM
    decreases NSYM - c
  {
    if c == NSYM then []
    else if inherited[c] then OwnBytes(tables, inherited, c + 1)
    else [c] + (SizedBytes(tables[c]) + OwnBytes(tables, inherited, c + 1))
  }

  /** The tables read so far, the rest being the global one. */
  ghost predicate ReadUpTo(tables: seq<seq<nat>>, inherited: seq<bool>, c: nat, now: seq<seq<nat>>)
  {
    && |tables| == |inherited| == |now| == NSYM
    && forall d :: 0 <= d < NSYM && (d < c || inherited[d]) ==> now[d] == tables[d]
  }

  lemma {:induction false} OwnRoundTrip(tables: seq<seq<nat>>, inherited: seq<bool>, c: nat, now: seq<seq<nat>>, rest: seq<Byte>)
    requires CtxTables(tables) && c <= NSYM && ReadUpTo(tables, inherited, c, now)
    ensures ReadOwn(OwnBytes(tables, inherited, c) + rest, inherited, c, now) == Own(tables, rest)
    decreases NSYM - c
  {
    hide Normalized, SizedBytes, ReadSized;
    if c == NSYM {
      assert now == tables && [] + rest == rest;
    } else if inherited[c] {
      OwnRoundTrip(tables, inherited, c + 1, now, rest);
    } else {
      var tail := OwnBytes(tables, inherited, c + 1) + rest;
      var s := OwnBytes(tables, inherited, c) + rest;
      assert s == [c] + (SizedBytes(tables[c]) + tail);
      assert s[1..] == SizedBytes(tables[c]) + tail;
      SizedRoundTrip(tables[c], tail);
      OwnRoundTrip(tables, inherited, c + 1, now[c := tables[c]], rest);
    }
  }

  /** The bytes of an image. */
  ghost function Pack(img: CtxImage, inherited: seq<bool>, global: seq<nat>): seq<Byte>
    requires CtxTables(img.tables) && Shares(img.tables, inherited, global)
  {
    SizedBytes(global) + (PackBits(inherited) + (OwnBytes(img.tables, inherited, 0) + (Fields(img.states, 2) + img.bs)))
  }

  lemma ImageRoundTrip(img: CtxImage, inherited: seq<bool>, global: seq<nat>, rest: seq<Byte>)
    requires CtxTables(img.tables) && Shares(img.tables, inherited, global)
    requires |img.states| == NSYM && forall c :: 0 <= c < NSYM ==> img.states[c] < ANS_L
    ensures var bytes := Pack(img, inherited, global);
            |img.bs| <= |bytes| && ReadImage(bytes + rest) == Image(img.(bs := img.bs + rest), |bytes| - |img.bs|)
  {
    hide Normalized, SizedBytes, ReadSized, OwnBytes, ReadOwn, TakeFields, Fields, PackBits, ByteBits, Pow2;
    var s3 := img.bs + rest;
    var s2 := Fields(img.states, 2) + s3;
    var own := OwnBytes(img.tables, inherited, 0);
    var s1 := PackBits(inherited) + (own + s2);
    var bytes := Pack(img, inherited, global);
    assert bytes + rest == SizedBytes(global) + s1;
    SizedRoundTrip(global, s1);
    PackedBits(inherited);
    assert s1[..BITMAP] == PackBits(inherited) && s1[BITMAP..] == own + s2;
    OwnRoundTrip(img.tables, inherited, 0, AllOf(global), s2);
    Pow2Small();
    FieldsRoundTrip(img.states, 2, s3);
    assert |bytes + rest| == |bytes| + |rest|;
  }

  /** The bytes encode the source. */
  ghost predicate EncodesContexts(src: seq<Byte>, bytes: seq<Byte>) {
    exists img, inherited, global :: EncodesWith(src, bytes, img, inherited, global)
  }

  ghost predicate EncodesWith(src: seq<Byte>, bytes: seq<Byte>, img: CtxImage, inherited: seq<bool>, global: seq<nat>) {
    && AnsContext.Image(img, src) && Shares(img.tables, inherited, global)
    && bytes == Pack(img, inherited, global)
  }

  /** What the coder answers for a source, and the size it compares: it accepts (`ok`) exactly when the
      encoding under the tables its rows are given is smaller than the source and fits. */
  ghost predicate ContextAccounts(src: seq<Byte>, dstCap: nat, ok: bool, size: nat) {
    && (exists bytes, img, inherited, global ::
          EncodesWith(src, bytes, img, inherited, global) && ContextsTabled(src, img.tables, inherited, global) && size == |bytes|)
    && (ok <==> size <= dstCap && size < |src|)
  }

  /** The order-1 context coder round-trips on bytes: decoding an encoding, whatever bytes follow it,
      returns the source and reports exactly the encoding's length. */
  lemma BytesRoundTrip(src: seq<Byte>, bytes: seq<Byte>, rest: seq<Byte>, dstCap: nat)
    requires src != [] && |src| <= dstCap && EncodesContexts(src, bytes)
    ensures DecodeBytes(bytes + rest, dstCap, |src|) == Decoded(src, |bytes|)
  {
    hide AnsContext.Image, Shares, ReadImage, Pack, DecodeContexts;
    var img, inherited, global :| EncodesWith(src, bytes, img, inherited, global);
    ImageStates(img, src);
    ImageRoundTrip(img, inherited, global, rest);
    ContextRoundTrip(src, img, rest, dstCap);
  }

  lemma ImageStates(img: CtxImage, src: seq<Byte>)
    requires AnsContext.Image(img, src)
    ensures CtxTables(img.tables)
    ensures |img.states| == NSYM && forall c :: 0 <= c < NSYM ==> img.states[c] < ANS_L
  {
    hide AnsCoder.Encode, ByteBits, Normalized;
    var coded := AnsCoder.Encode(img.tables, ContextOps(0, src));
    forall c | 0 <= c < NSYM
      ensures img.states[c] < ANS_L
    {
      assert ValidState(img.tables[c], coded.states[c]);
    }
  }

  //////////////////////////////////////////////////////////////////////////////
  // The coder on bytes
  //////////////////////////////////////////////////////////////////////////////

  method WriteSized(norm: seq<nat>) returns (bytes: seq<Byte>)
    requires Normalized(norm)
    ensures bytes == SizedBytes(norm)
  {
    hide Normalized, Header, Sum, LeBytes;
    NormalizedShape(norm);
    HeaderFits(norm);
    var h := WriteHeader(norm, 600);
    bytes := LeBytes(|h|, 2) + h;
  }

  /** `vva_encode_ctx`: accepted exactly when shorter than the source and within the buffer. */
  method VvaEncodeContexts(src: seq<Byte>, dstCap: nat) returns (r: EncodeResult)
    requires |src| <= 0x8000_0000
    ensures src == [] ==> r == Encoded([])
    ensures r.EncodeFailed? ==> r.error == Error.Overflow
    ensures r.Encoded? && src != [] ==> EncodesContexts(src, r.bytes) && |r.bytes| <= dstCap && |r.bytes| < |src|
    ensures src != [] ==>
              if r.Encoded? then ContextAccounts(src, dstCap, true, |r.bytes|) else exists size :: ContextAccounts(src, dstCap, false, size)
  {
    hide AnsContext.Image, Normalized, SizedBytes, OwnBytes, PackBits, Fields, ContextsTabled, Shares;
    if src == [] {
      return Encoded([]);
    }
    var img, inherited, global := EncodeContexts(src);
    ImageStates(img, src);
    SharesShape(img.tables, inherited, global);
    var head := WriteSized(global);
    head := head + PackBits(inherited);
    ghost var whole := Pack(img, inherited, global);
    ghost var fits := |whole| <= dstCap && |whole| < |src|;
    assert EncodesWith(src, whole, img, inherited, global);
    assert ContextAccounts(src, dstCap, fits, |whole|);
    assert |whole| == |head| + |OwnBytes(img.tables, inherited, 0)| + |Fields(img.states, 2)| + |img.bs|;
    if |head| > dstCap {
      return EncodeFailed(Error.Overflow);
    }
    var own, c := [], 0;
    while c < NSYM
      invariant c <= NSYM && own + OwnBytes(img.tables, inherited, c) == OwnBytes(img.tables, inherited, 0)
    {
      OwnStep(img.tables, inherited, c);
      if !inherited[c] {
        var t := WriteSized(img.tables[c]);
        if |head| + |own| + 1 + |t| > dstCap {
          return EncodeFailed(Error.Overflow);
        }
        assert own + ([c] + (t + OwnBytes(img.tables, inherited, c + 1))) ==
               (own + [c] + t) + OwnBytes(img.tables, inherited, c + 1);
        own := own + [c] + t;
      }
      c := c + 1;
    }
    OwnStep(img.tables, inherited, NSYM);
    var bytes := head + own + Fields(img.states, 2) + img.bs;
    assert bytes == Pack(img, inherited, global);
    if |bytes| > dstCap || |bytes| >= |src| {
      return EncodeFailed(Error.Overflow);
    }
    r := Encoded(bytes);
  }

  lemma SharesShape(tables: seq<seq<nat>>, inherited: seq<bool>, global: seq<nat>)
    requires Shares(tables, inherited, global)
    ensures |tables| == |inherited| == NSYM && Normalized(global)
  {
  }

  lemma OwnStep(tables: seq<seq<nat>>, inherited: seq<bool>, c: nat)
    requires CtxTables(tables) && |inherited| == NSYM && c <= NSYM
    ensures c == NSYM ==> OwnBytes(tables, inherited, c) == []
    ensures c < NSYM ==> OwnBytes(tables, inherited, c) ==
                         if inherited[c] then OwnBytes(tables, inherited, c + 1)
                         else [c] + (SizedBytes(tables[c]) + OwnBytes(tables, inherited, c + 1))
  {
  }

  /** `vva_decode_ctx`. On failure only the destination's first `num` bytes may have changed. */
  method VvaDecodeContexts(src: seq<Byte>, dst: array<Byte>, num: nat) returns (status: Status, consumed: nat)
    modifies dst
    ensures DecodeBytes(src, dst.Length, num).DecodeFailed? ==> status == Fail(DecodeBytes(src, dst.Length, num).error)
    ensures DecodeBytes(src, dst.Length, num).Decoded? ==>
              status == Ok && DecodeBytes(src, dst.Length, num) == Decoded(dst[..num], consumed)
    ensures num <= dst.Length ==> dst[num..] == old(dst[num..])
  {
    hide ReadSized, ReadOwn, TakeFields, ByteBits, DecodeContexts;
    consumed := 0;
    if num == 0 {
      assert dst[..0] == [];
      return Ok, 0;
    }
    if num > dst.Length {
      return Fail(Error.Overflow), 0;
    }
    var r := ReadImage(src);
    if r.NoImage? {
      return Fail(Error.Corrupt), 0;
    }
    ReadTablesOkay(src);
    var ok, used := DecodeImage(r.img, dst, num);
    if !ok {
      return Fail(Error.Corrupt), 0;
    }
    return Ok, r.used + used;
  }

  lemma {:induction false} OwnOkay(s: seq<Byte>, inherited: seq<bool>, c: nat, tables: seq<seq<nat>>)
    requires |inherited| == NSYM && CtxTables(tables) && c <= NSYM
    ensures ReadOwn(s, inherited, c, tables).Own? ==> CtxTables(ReadOwn(s, inherited, c, tables).tables)
    decreases NSYM - c
  {
    hide Normalized, ReadSized;
    if c < NSYM {
      if inherited[c] {
        OwnOkay(s, inherited, c + 1, tables);
      } else if |s| >= 1 && ReadSized(s[1..]).Sized? {
        OwnOkay(ReadSized(s[1..]).rest, inherited, c + 1, tables[s[0] := ReadSized(s[1..]).norm]);
      }
    }
  }

  /** Every table a header gives fills the state space. */
  lemma ReadTablesOkay(src: seq<Byte>)
    requires ReadImage(src).Image?
    ensures CtxTables(ReadImage(src).img.tables)
  {
    hide Normalized, ReadSized, ReadOwn, TakeFields, ByteBits;
    var t := ReadSized(src);
    OwnOkay(t.rest[BITMAP..], ByteBits(t.rest[..BITMAP]), 0, AllOf(t.norm));
  }
}
