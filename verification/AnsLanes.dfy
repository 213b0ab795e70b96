/** The four-lane literal coder (`vva_encode4`, `vva_decode4_impl`, src/vv_ans.c:690-940): the bytes
    go round-robin to four states with one table and four bitstreams. */
module AnsLanes {
  import opened AnsBuild
  import opened AnsCoder
  import opened AnsEncode
  import opened AnsHeader
  import opened AnsSingle
  import opened AnsTables
  import opened BitIo
  import opened Bits
  import opened Bytes
  import opened Lz
  import opened Normalize
  import opened Tokens
  import opened Wire

  const LANES: nat := 4

  /** The bytes of `src` from position `i` on that go to lane `k`. */
  function Lane(src: seq<Byte>, i: nat, k: nat): (l: seq<Byte>)
    ensures |l| <= |src|
    ensures i <= |src| ==> |l| <= |src| - i
    ensures forall b :: b in l ==> b in src
    decreases |src| - i
  {
    if i >= |src| then [] else (if i % LANES == k then [src[i]] else []) + Lane(src, i + 1, k)
  }

  lemma LaneStep(src: seq<Byte>, i: nat, k: nat)
    requires i < |src|
    ensures Lane(src, i, k) == if i % LANES == k then [src[i]] + Lane(src, i + 1, k) else Lane(src, i + 1, k)
  {
  }

  lemma {:induction false} LaneSkip(src: seq<Byte>, i: nat, j: nat, k: nat)
    requires i <= j && forall m :: i <= m < j ==> m % LANES != k
    ensures Lane(src, i, k) == Lane(src, j, k)
    decreases j - i
  {
    if i < j && i < |src| {
      LaneSkip(src, i + 1, j, k);
    }
  }

  /** A lane takes every fourth byte. */
  lemma LaneTurn(src: seq<Byte>, i: nat)
    requires i < |src|
    ensures Lane(src, i, i % LANES) == [src[i]] + Lane(src, i + LANES, i % LANES)
  {
    LaneStep(src, i, i % LANES);
    LaneSkip(src, i + 1, i + LANES, i % LANES);
  }

  lemma {:induction false} LaneLength(src: seq<Byte>, i: nat)
    ensures i <= |src| ==> LANES * |Lane(src, i, i % LANES)| <= |src| - i + 3
    ensures i > |src| ==> Lane(src, i, i % LANES) == []
    decreases |src| - i
  {
    if i < |src| {
      LaneTurn(src, i);
      LaneLength(src, i + LANES);
      assert (i + LANES) % LANES == i % LANES;
    }
  }

  //////////////////////////////////////////////////////////////////////////////
  // Specification
  //////////////////////////////////////////////////////////////////////////////

  ghost predicate LaneShape<T>(streams: seq<T>, ts: seq<nat>, xs: seq<nat>) {
    |streams| == |ts| == |xs| == LANES && forall k :: 0 <= k < LANES ==> xs[k] < ANS_L
  }

  /** Bytes `i..n`, byte `j` decoded from lane `j % 4`. */
  ghost function LanesRun(norm: seq<nat>, streams: seq<seq<bool>>, ts: seq<nat>, xs: seq<nat>, i: nat, n: nat): (r: seq<Byte>)
    requires Normalized(norm) && LaneShape(streams, ts, xs)
    ensures i <= n ==> |r| == n - i
    decreases n - i
  {
    if i >= n then []
    else
      var k := i % LANES;
      var e := DecTable(norm)[xs[k]];
      NextStateInRange(norm, xs[k], streams[k], ts[k]);
      [e.symbol] + LanesRun(norm, streams, ts[k := ts[k] + e.nbits], xs[k := NextState(e, streams[k], ts[k])], i + 1, n)
  }

  /** Lane `k` holds, from where it stands, an encoding of the bytes still to come. */
  ghost predicate LaneHolds(norm: seq<nat>, src: seq<Byte>, i: nat, k: nat, stream: seq<bool>, t: nat, x: nat) {
    && Covers(norm, src)
    && var ops := SymbolOps(Lane(src, i, k));
       && AllEncodable([norm], ops)
       && [x] == Encode([norm], ops).states
       && Ahead(stream, t, Encode([norm], ops).bits)
  }

  ghost predicate LanesHold(norm: seq<nat>, src: seq<Byte>, i: nat, streams: seq<seq<bool>>, ts: seq<nat>, xs: seq<nat>) {
    && |streams| == |ts| == |xs| == LANES
    && forall k :: 0 <= k < LANES ==> LaneHolds(norm, src, i, k, streams[k], ts[k], xs[k])
  }

  /** Taking lane `i % 4` one byte further. */
  lemma LaneMoves(norm: seq<nat>, src: seq<Byte>, i: nat, stream: seq<bool>, t: nat, x: nat)
    requires i < |src| && LaneHolds(norm, src, i, i % LANES, stream, t, x)
    ensures Normalized(norm) && x < ANS_L
    ensures var e := DecTable(norm)[x];
            && e.symbol == src[i]
            && LaneHolds(norm, src, i + 1, i % LANES, stream, t + e.nbits, NextState(e, stream, t))
  {
    hide DecTable, Normalized, Encode, Ahead, NextState, Lane;
    LaneStep(src, i, i % LANES);
    var here, later := Lane(src, i, i % LANES), Lane(src, i + 1, i % LANES);
    var ops := SymbolOps(here);
    assert here[0] == src[i] && here[1..] == later;
    assert ops[1..] == SymbolOps(later) && ops[0] == Sym(0, src[i]);
    var c, c' := Encode([norm], ops), Encode([norm], ops[1..]);
    assert ValidState([norm][0], c.states[0]) && ValidState([norm][0], c'.states[0]);
    CoversNormalized(norm, src);
    DecodeOne([norm], ops, stream, t);
    assert c.states[0] == x;
    assert [c'.states[0]] == c'.states;
  }

  /** A lane that is not served stays where it is. */
  lemma LaneWaits(norm: seq<nat>, src: seq<Byte>, i: nat, k: nat, stream: seq<bool>, t: nat, x: nat)
    requires i < |src| && k != i % LANES && LaneHolds(norm, src, i, k, stream, t, x)
    ensures LaneHolds(norm, src, i + 1, k, stream, t, x)
  {
    LaneStep(src, i, k);
  }

  lemma LanesMove(norm: seq<nat>, src: seq<Byte>, i: nat, streams: seq<seq<bool>>, ts: seq<nat>, xs: seq<nat>)
    requires i < |src| && LanesHold(norm, src, i, streams, ts, xs) && Normalized(norm) && LaneShape(streams, ts, xs)
    ensures var k := i % LANES;
            var e := DecTable(norm)[xs[k]];
            && e.symbol == src[i]
            && LanesHold(norm, src, i + 1, streams, ts[k := ts[k] + e.nbits], xs[k := NextState(e, streams[k], ts[k])])
  {
    hide DecTable, Normalized, NextState, LaneHolds;
    var k := i % LANES;
    LaneMoves(norm, src, i, streams[k], ts[k], xs[k]);
    forall j | 0 <= j < LANES && j != k
      ensures LaneHolds(norm, src, i + 1, j, streams[j], ts[j], xs[j])
    {
      LaneWaits(norm, src, i, j, streams[j], ts[j], xs[j]);
    }
  }

  lemma HoldsShape(norm: seq<nat>, src: seq<Byte>, i: nat, streams: seq<seq<bool>>, ts: seq<nat>, xs: seq<nat>)
    requires LanesHold(norm, src, i, streams, ts, xs)
    ensures Normalized(norm) && LaneShape(streams, ts, xs)
  {
    hide Encode, Normalized, Covers;
    assert LaneHolds(norm, src, i, 0, streams[0], ts[0], xs[0]);
    CoversNormalized(norm, src);
    forall k | 0 <= k < LANES
      ensures xs[k] < ANS_L
    {
      assert LaneHolds(norm, src, i, k, streams[k], ts[k], xs[k]);
      assert ValidState([norm][0], [xs[k]][0]);
    }
  }

  /** Four lanes that hold a text decode to it. */
  lemma {:induction false} LanesInverse(norm: seq<nat>, src: seq<Byte>, i: nat, streams: seq<seq<bool>>, ts: seq<nat>, xs: seq<nat>)
    requires i <= |src| && LanesHold(norm, src, i, streams, ts, xs)
    ensures Normalized(norm) && LaneShape(streams, ts, xs)
    ensures LanesRun(norm, streams, ts, xs, i, |src|) == src[i..]
    decreases |src| - i
  {
    hide DecTable, Normalized, NextState, LanesHold;
    HoldsShape(norm, src, i, streams, ts, xs);
    if i < |src| {
      LanesMove(norm, src, i, streams, ts, xs);
      var k := i % LANES;
      var e := DecTable(norm)[xs[k]];
      LanesInverse(norm, src, i + 1, streams, ts[k := ts[k] + e.nbits], xs[k := NextState(e, streams[k], ts[k])]);
      assert src[i..] == [src[i]] + src[i + 1..];
    }
  }

  /** `vva_decode4` on every input. */
  ghost function DecodeLanes(src: seq<Byte>, dstCap: nat, num: nat): (r: DecodeResult)
    ensures r.Decoded? ==> |r.dst| == num
  {
    if num == 0 then Decoded([], 0)
    else if num > dstCap then DecodeFailed(Error.Overflow)
    else
      match ReadHeader(src)
      case BadHeader => DecodeFailed(Error.Corrupt)
      case GoodHeader(norm, h) =>
        if Sum(norm) != ANS_L then DecodeFailed(Error.Corrupt)
        else if PresentCount(norm, NSYM) == 1 then Decoded(Repeat(OnlySymbol(norm), num), h)
        else DecodeLanesBody(norm, src[h..], h, num)
  }

  const PREAMBLE: nat := 24

  /** Four states, four sizes, four bitstreams. */
  ghost function DecodeLanesBody(norm: seq<nat>, s: seq<Byte>, h: nat, num: nat): DecodeResult
    requires Normalized(norm)
  {
    if |s| < PREAMBLE then DecodeFailed(Error.Corrupt)
    else
      match TakeFields(s, 2, LANES)
      case Short => DecodeFailed(Error.Corrupt)
      case Front(xs, rest) =>
        match TakeFields(rest, 4, LANES)
        case Short => DecodeFailed(Error.Corrupt)
        case Front(sizes, payload) =>
          if (exists k :: 0 <= k < LANES && xs[k] >= ANS_L) || Total(sizes) > |payload| then DecodeFailed(Error.Corrupt)
          else Decoded(LanesRun(norm, Streams(Cut(payload, sizes)), [0, 0, 0, 0], xs, 0, num), h + PREAMBLE + Total(sizes))
  }

  ghost function Streams(parts: seq<seq<Byte>>): (r: seq<seq<bool>>)
    ensures |r| == |parts|
  {
    seq(|parts|, k requires 0 <= k < |parts| => ByteBits(parts[k]))
  }

  /** The bytes of lane `k`, and the state they start from. */
  ghost predicate LaneCode(norm: seq<nat>, src: seq<Byte>, k: nat, x: nat, bs: seq<Byte>) {
    && AllEncodable([norm], SymbolOps(Lane(src, 0, k)))
    && var c := Encode([norm], SymbolOps(Lane(src, 0, k)));
       c.states == [x] && c.bits <= ByteBits(bs) && |bs| == (|c.bits| + 7) / 8
  }

  ghost predicate LaneCodes(norm: seq<nat>, src: seq<Byte>, xs: seq<nat>, parts: seq<seq<Byte>>) {
    && |xs| == |parts| == LANES
    && forall k :: 0 <= k < LANES ==> LaneCode(norm, src, k, xs[k], parts[k])
  }

  function LanesImage(h: seq<Byte>, xs: seq<nat>, parts: seq<seq<Byte>>): seq<Byte> {
    h + (Fields(xs, 2) + (Fields(Sizes(parts), 4) + Parts(parts)))
  }

  /** `bytes` is a four-lane encoding of `src`. */
  ghost predicate EncodesLanes(src: seq<Byte>, bytes: seq<Byte>) {
    exists norm, xs, parts :: EncodesLanesWith(norm, src, xs, parts, bytes)
  }

  ghost predicate EncodesLanesWith(norm: seq<nat>, src: seq<Byte>, xs: seq<nat>, parts: seq<seq<Byte>>, bytes: seq<Byte>) {
    && Covers(norm, src) && TableShape(norm)
    && if PresentCount(norm, NSYM) == 1 then bytes == Header(norm)
       else LaneCodes(norm, src, xs, parts) && |bytes| < 0x1_0000_0000 && bytes == LanesImage(Header(norm), xs, parts)
  }

  lemma CodesHold(norm: seq<nat>, src: seq<Byte>, xs: seq<nat>, parts: seq<seq<Byte>>)
    requires Covers(norm, src) && LaneCodes(norm, src, xs, parts)
    ensures LanesHold(norm, src, 0, Streams(parts), [0, 0, 0, 0], xs)
  {
    hide Encode, Lane, ByteBits, Covers;
    forall k | 0 <= k < LANES
      ensures LaneHolds(norm, src, 0, k, Streams(parts)[k], [0, 0, 0, 0][k], xs[k])
    {
      assert LaneCode(norm, src, k, xs[k], parts[k]);
      var stream := ByteBits(parts[k]);
      assert stream[0..] == stream;
    }
  }

  lemma StatesFit(norm: seq<nat>, src: seq<Byte>, xs: seq<nat>, parts: seq<seq<Byte>>)
    requires Covers(norm, src) && LaneCodes(norm, src, xs, parts)
    ensures forall k :: 0 <= k < |xs| ==> xs[k] < ANS_L
    ensures forall k :: 0 <= k < |xs| ==> xs[k] < Pow2(8 * 2)
  {
    hide Encode, Lane, ByteBits, Covers, Pow2;
    CodesHold(norm, src, xs, parts);
    HoldsShape(norm, src, 0, Streams(parts), [0, 0, 0, 0], xs);
    Pow2Small();
  }

  lemma {:induction false} SizesFit(parts: seq<seq<Byte>>, bound: nat)
    requires |Parts(parts)| < bound
    ensures forall k :: 0 <= k < |parts| ==> Sizes(parts)[k] < bound
    decreases |parts|
  {
    if parts != [] {
      SizesFit(parts[1..], bound);
    }
  }

  /** The body decodes to the source and ends where the encoding ends. */
  lemma LanesBodyRoundTrip(norm: seq<nat>, src: seq<Byte>, xs: seq<nat>, parts: seq<seq<Byte>>, h: nat, rest: seq<Byte>)
    requires Covers(norm, src) && LaneCodes(norm, src, xs, parts) && |Parts(parts)| < 0x1_0000_0000
    ensures Normalized(norm)
    ensures DecodeLanesBody(norm, Fields(xs, 2) + (Fields(Sizes(parts), 4) + (Parts(parts) + rest)), h, |src|) ==
            Decoded(src, h + PREAMBLE + |Parts(parts)|)
  {
    hide Covers, Normalized, LaneCodes, Fields, Parts, TakeFields, Cut, Total, LanesRun, Pow2;
    CoversNormalized(norm, src);
    StatesFit(norm, src, xs, parts);
    CodesShape(norm, src, xs, parts);
    FieldsRoundTrip(xs, 2, Fields(Sizes(parts), 4) + (Parts(parts) + rest));
    SizesFit(parts, 0x1_0000_0000);
    Pow2Of32();
    FieldsRoundTrip(Sizes(parts), 4, Parts(parts) + rest);
    PartsRoundTrip(parts, rest);
    FieldsSize(xs, 2);
    FieldsSize(Sizes(parts), 4);
    CodesHold(norm, src, xs, parts);
    LanesInverse(norm, src, 0, Streams(parts), [0, 0, 0, 0], xs);
    assert src[0..] == src;
  }

  lemma CodesShape(norm: seq<nat>, src: seq<Byte>, xs: seq<nat>, parts: seq<seq<Byte>>)
    requires LaneCodes(norm, src, xs, parts)
    ensures |xs| == |parts| == LANES
  {
  }

  /** The four-lane coder round-trips: decoding an encoding, whatever bytes follow it, returns the
      source and reports exactly the encoding's length despite four readers' look-ahead. */
  lemma LanesRoundTrip(src: seq<Byte>, bytes: seq<Byte>, rest: seq<Byte>, dstCap: nat)
    requires src != [] && |src| <= dstCap && EncodesLanes(src, bytes)
    ensures DecodeLanes(bytes + rest, dstCap, |src|) == Decoded(src, |bytes|)
  {
    hide Sum, Normalized, Header, ReadHeader, Covers, PresentCount, OnlySymbol, LaneCodes, Fields, Parts, DecodeLanesBody;
    var norm, xs, parts :| EncodesLanesWith(norm, src, xs, parts, bytes);
    CoversNormalized(norm, src);
    var h := Header(norm);
    if PresentCount(norm, NSYM) == 1 {
      HeaderRoundTrip(norm, rest);
      AllOnlySymbol(norm, src);
    } else {
      CodesShape(norm, src, xs, parts);
      var body := Fields(xs, 2) + (Fields(Sizes(parts), 4) + (Parts(parts) + rest));
      assert bytes + rest == h + body;
      HeaderRoundTrip(norm, body);
      assert (bytes + rest)[|h|..] == body;
      LanesBodyRoundTrip(norm, src, xs, parts, |h|, rest);
      FieldsSize(xs, 2);
      FieldsSize(Sizes(parts), 4);
    }
  }

  /** What is decoded is decoded alike, for any number of literals, whatever follows: the same bytes are used. */
  lemma LanesExtend(s: seq<Byte>, x: seq<Byte>, num: nat, other: nat)
    requires num > 0 && other > 0 && DecodeLanes(s, num, num).Decoded?
    ensures DecodeLanes(s, num, num).consumed <= |s|
    ensures DecodeLanes(s + x, other, other).Decoded?
    ensures DecodeLanes(s + x, other, other).consumed == DecodeLanes(s, num, num).consumed
  {
    hide ReadHeader, Sum, PresentCount, LanesRun, OnlySymbol, DecodeLanesBody;
    HeaderExtends(s, x);
    var h := ReadHeader(s);
    var norm, size := h.norm, h.size;
    assert (s + x)[size..] == s[size..] + x;
    if PresentCount(norm, NSYM) != 1 {
      BodyExtends(norm, s[size..], x, size, num, other);
    }
  }

  lemma BodyExtends(norm: seq<nat>, s: seq<Byte>, x: seq<Byte>, h: nat, num: nat, other: nat)
    requires Normalized(norm) && DecodeLanesBody(norm, s, h, num).Decoded?
    ensures DecodeLanesBody(norm, s, h, num).consumed <= h + |s|
    ensures DecodeLanesBody(norm, s + x, h, other).Decoded?
    ensures DecodeLanesBody(norm, s + x, h, other).consumed == DecodeLanesBody(norm, s, h, num).consumed
  {
    hide LanesRun, TakeFields, Cut, Total, Normalized;
    FieldsExtend(s, x, 2, LANES);
    FieldsLeft(s, 2, LANES);
    var rest := TakeFields(s, 2, LANES).rest;
    FieldsExtend(rest, x, 4, LANES);
    FieldsLeft(rest, 4, LANES);
  }

  /** A cut-off encoding is refused, whatever number of literals is asked of it. */
  lemma LanesCutOff(src: seq<Byte>, bytes: seq<Byte>, k: nat, num: nat)
    requires src != [] && EncodesLanes(src, bytes) && k < |bytes| && num > 0
    ensures DecodeLanes(bytes[..k], num, num).DecodeFailed?
  {
    hide DecodeLanes, EncodesLanes;
    if DecodeLanes(bytes[..k], num, num).Decoded? {
      LanesExtend(bytes[..k], bytes[k..], num, |src|);
      assert bytes[..k] + bytes[k..] == bytes == bytes + [];
      LanesRoundTrip(src, bytes, [], |src|);
    }
  }

  //////////////////////////////////////////////////////////////////////////////
  // Encoder
  //////////////////////////////////////////////////////////////////////////////

  /** The bytes of one lane. */
  method GatherLane(src: seq<Byte>, k: nat) returns (l: seq<Byte>)
    requires k < LANES
    ensures l == Lane(src, 0, k)
  {
    l := [];
    LaneSkip(src, 0, k, k);
    var i := k;
    while i < |src|
      invariant i % LANES == k
      invariant l + Lane(src, i, k) == Lane(src, 0, k)
    {
      LaneTurn(src, i);
      assert l + ([src[i]] + Lane(src, i + LANES, k)) == (l + [src[i]]) + Lane(src, i + LANES, k);
      l := l + [src[i]];
      i := i + LANES;
    }
    assert Lane(src, i, k) == [];
  }

  /** One lane: state and bitstream. */
  method EncodeLane(norm: seq<nat>, enc: EncCtx, src: seq<Byte>, k: nat) returns (x: nat, bs: seq<Byte>)
    requires k < LANES && Covers(norm, src) && Ready(norm, enc)
    ensures LaneCode(norm, src, k, x, bs)
  {
    hide Sum, Normalized, Encode, PairBits, ByteBits, AllReady, Ready, Lane, Covers;
    var lane := GatherLane(src, k);
    LaneCovered(norm, src, 0, k);
    CoveredOps(norm, lane);
    OneReady(norm, enc);
    var states, pairs, ok := BackwardEncode([norm], [enc], SymbolOps(lane));
    ghost var c := Encode([norm], SymbolOps(lane));
    AnyWidth(norm, lane);
    LaneSkip(src, 0, k, k);
    LaneLength(src, k);
    var buf, len := WritePairs(pairs, ((|src| * 15 + 7) / 8 + 64) / 4 + 16);
    assert ValidState([norm][0], c.states[0]);
    x := states[0];
    assert states[..] == [x];
    bs := buf[..len];
  }

  lemma LaneCovered(norm: seq<nat>, src: seq<Byte>, i: nat, k: nat)
    requires Covers(norm, src)
    ensures Covers(norm, Lane(src, i, k))
  {
    var l := Lane(src, i, k);
    forall j | 0 <= j < |l|
      ensures norm[l[j]] > 0
    {
      assert l[j] in src;
    }
  }

  ghost function LaneBytes(norm: seq<nat>, src: seq<Byte>, k: nat): nat
    requires Covers(norm, src)
  {
    LaneCovered(norm, src, 0, k);
    CoveredOps(norm, Lane(src, 0, k));
    (|Encode([norm], SymbolOps(Lane(src, 0, k))).bits| + 7) / 8
  }

  /** The size of the encoding: a header alone when there is one symbol. */
  ghost function LanesSize(norm: seq<nat>, src: seq<Byte>): nat
    requires Covers(norm, src) && TableShape(norm)
  {
    if PresentCount(norm, NSYM) == 1 then |Header(norm)|
    else
      |Header(norm)| + PREAMBLE
      + (LaneBytes(norm, src, 0) + (LaneBytes(norm, src, 1) + (LaneBytes(norm, src, 2) + LaneBytes(norm, src, 3))))
  }

  /** What the coder answers for a source, and the size it compares: it accepts (`ok`) exactly when that
      is smaller than the source and fits. */
  ghost predicate LanesAccounts(src: seq<Byte>, dstCap: nat, ok: bool, size: nat) {
    exists norm :: LanesAccountsFor(norm, src, dstCap, ok, size)
  }

  ghost predicate LanesAccountsFor(norm: seq<nat>, src: seq<Byte>, dstCap: nat, ok: bool, size: nat) {
    && Tabled(src, norm) && Covers(norm, src) && TableShape(norm)
    && size == LanesSize(norm, src) && (ok <==> size <= dstCap && size < |src|)
  }

  lemma PartsSize(norm: seq<nat>, src: seq<Byte>, xs: seq<nat>, parts: seq<seq<Byte>>)
    requires Covers(norm, src) && TableShape(norm) && LaneCodes(norm, src, xs, parts) && PresentCount(norm, NSYM) != 1
    ensures |LanesImage(Header(norm), xs, parts)| == LanesSize(norm, src)
  {
    hide Encode, Lane, Covers, Header, PresentCount, Fields, Normalized;
    FieldsSize(xs, 2);
    FieldsSize(Sizes(parts), 4);
    assert forall k :: 0 <= k < LANES ==> LaneCode(norm, src, k, xs[k], parts[k]);
    assert |parts[0]| == LaneBytes(norm, src, 0) && |parts[1]| == LaneBytes(norm, src, 1);
    assert |parts[2]| == LaneBytes(norm, src, 2) && |parts[3]| == LaneBytes(norm, src, 3);
    FourParts(parts);
  }

  lemma FourParts(parts: seq<seq<Byte>>)
    requires |parts| == 4
    ensures |Parts(parts)| == |parts[0]| + (|parts[1]| + (|parts[2]| + |parts[3]|))
  {
    var t := parts[1..];
    var u := t[1..];
    var v := u[1..];
    assert Parts(v) == v[0] + Parts(v[1..]);
    assert v[1..] == [];
    assert t[0] == parts[1] && u[0] == parts[2] && v[0] == parts[3];
    assert Parts(parts) == parts[0] + Parts(t) && Parts(t) == t[0] + Parts(u) && Parts(u) == u[0] + Parts(v);
  }

  /** `vva_encode4`: accepted exactly when its encoding, under the frequencies the normalization gives, is
      shorter than the source and fits. */
  method VvaEncodeLanes(src: seq<Byte>, dstCap: nat) returns (r: EncodeResult)
    requires |src| <= 0x8000_0000
    ensures src == [] ==> r == Encoded([])
    ensures r.EncodeFailed? ==> r.error == Error.Overflow
    ensures r.Encoded? && src != [] ==> EncodesLanes(src, r.bytes) && |r.bytes| <= dstCap && |r.bytes| < |src|
    ensures src != [] ==>
              if r.Encoded? then LanesAccounts(src, dstCap, true, |r.bytes|) else exists size :: LanesAccounts(src, dstCap, false, size)
  {
    hide Sum, Normalized, Apportioned, Header, Covers, PresentCount, LaneCodes, Fields, Parts, LaneBytes, LanesImage;
    if |src| == 0 {
      return Encoded([]);
    }
    var raw := CountBytes(src);
    var norm, np := NormalizeFreq(raw[..]);
    if np == 0 {
      return EncodeFailed(Param);
    }
    assert raw[..] == CountsOf(src);
    assert Tabled(src, norm[..]);
    TabledCovers(src, norm[..]);
    PresenceAgrees(raw[..], norm[..], NSYM) by { PresenceFromApportioned(raw[..], norm[..]); }
    var h := WriteHeader(norm[..], dstCap);
    HeaderNotEmpty(norm[..]);
    ghost var size := LanesSize(norm[..], src);
    assert LanesAccountsFor(norm[..], src, dstCap, size <= dstCap && size < |src|, size);
    assert LanesAccounts(src, dstCap, size <= dstCap && size < |src|, size);
    if h == [] {
      return EncodeFailed(Error.Overflow);
    }
    if np == 1 {
      if |h| >= |src| {
        return EncodeFailed(Error.Overflow);
      }
      assert EncodesLanesWith(norm[..], src, [], [], h);
      return Encoded(h);
    }
    var xs, parts := EncodeLanes(norm[..], src);
    PartsSize(norm[..], src, xs, parts);
    var bytes := LanesImage(h, xs, parts);
    if |bytes| > dstCap || |bytes| >= |src| {
      return EncodeFailed(Error.Overflow);
    }
    assert EncodesLanesWith(norm[..], src, xs, parts, bytes);
    r := Encoded(bytes);
  }

  method EncodeLanes(norm: seq<nat>, src: seq<Byte>) returns (xs: seq<nat>, parts: seq<seq<Byte>>)
    requires Covers(norm, src)
    ensures LaneCodes(norm, src, xs, parts)
  {
    hide LaneCode, Ready, Covers, Normalized;
    CoversNormalized(norm, src);
    var enc := BuildAll(norm);
    xs, parts := [], [];
    for k := 0 to LANES
      invariant |xs| == |parts| == k && Ready(norm, enc)
      invariant forall j :: 0 <= j < k ==> LaneCode(norm, src, j, xs[j], parts[j])
    {
      var x, bs := EncodeLane(norm, enc, src, k);
      xs, parts := xs + [x], parts + [bs];
    }
  }

  //////////////////////////////////////////////////////////////////////////////
  // Decoder
  //////////////////////////////////////////////////////////////////////////////

  lemma RunStep(norm: seq<nat>, streams: seq<seq<bool>>, ts: seq<nat>, xs: seq<nat>, i: nat, n: nat)
    requires Normalized(norm) && LaneShape(streams, ts, xs) && i < n
    ensures var k := i % LANES;
            var e := DecTable(norm)[xs[k]];
            var y := NextState(e, streams[k], ts[k]);
            && y < ANS_L && e.nbits <= ANS_LOG
            && LanesRun(norm, streams, ts, xs, i, n) ==
               [e.symbol] + LanesRun(norm, streams, ts[k := ts[k] + e.nbits], xs[k := y], i + 1, n)
  {
    hide DecTable, NextState;
    NextStateInRange(norm, xs[i % LANES], streams[i % LANES], ts[i % LANES]);
  }

  ghost function NextOf(norm: seq<nat>, stream: seq<bool>, t: nat, x: nat): (y: nat)
    requires Normalized(norm) && x < ANS_L
    ensures y < ANS_L
  {
    NextStateInRange(norm, x, stream, t);
    NextState(DecTable(norm)[x], stream, t)
  }

  ghost function EntryOf(norm: seq<nat>, x: nat): Entry
    requires Normalized(norm) && x < ANS_L
  {
    DecTable(norm)[x]
  }

  /** Positions and states once all four lanes have been served. */
  ghost function AllTs(norm: seq<nat>, ts: seq<nat>, xs: seq<nat>): (us: seq<nat>)
    requires Normalized(norm) && LaneShape(ts, ts, xs)
    ensures |us| == LANES
  {
    seq(LANES, k requires 0 <= k < LANES => ts[k] + EntryOf(norm, xs[k]).nbits)
  }

  ghost function AllXs(norm: seq<nat>, streams: seq<seq<bool>>, ts: seq<nat>, xs: seq<nat>): (ys: seq<nat>)
    requires Normalized(norm) && LaneShape(streams, ts, xs)
    ensures |ys| == LANES && forall k :: 0 <= k < LANES ==> ys[k] < ANS_L
  {
    seq(LANES, k requires 0 <= k < LANES => NextOf(norm, streams[k], ts[k], xs[k]))
  }

  lemma ServeLane(norm: seq<nat>, streams: seq<seq<bool>>, ts: seq<nat>, xs: seq<nat>, i: nat, n: nat, k: nat)
    requires Normalized(norm) && LaneShape(streams, ts, xs) && i < n && i % LANES == k
    ensures LanesRun(norm, streams, ts, xs, i, n) ==
            [EntryOf(norm, xs[k]).symbol] +
            LanesRun(norm, streams, ts[k := ts[k] + EntryOf(norm, xs[k]).nbits],
                     xs[k := NextOf(norm, streams[k], ts[k], xs[k])], i + 1, n)
  {
    hide DecTable, NextState, LanesRun, Normalized;
    RunStep(norm, streams, ts, xs, i, n);
  }

  /** Four steps in a row serve the four lanes, each from where it stood before all of them. */
  lemma RunFour(norm: seq<nat>, streams: seq<seq<bool>>, ts: seq<nat>, xs: seq<nat>, i: nat, n: nat)
    requires Normalized(norm) && LaneShape(streams, ts, xs) && i % LANES == 0 && i + LANES <= n
    ensures LanesRun(norm, streams, ts, xs, i, n) ==
            [EntryOf(norm, xs[0]).symbol, EntryOf(norm, xs[1]).symbol, EntryOf(norm, xs[2]).symbol, EntryOf(norm, xs[3]).symbol]
            + LanesRun(norm, streams, AllTs(norm, ts, xs), AllXs(norm, streams, ts, xs), i + LANES, n)
  {
    hide EntryOf, NextOf, LanesRun, Normalized;
    ServeLane(norm, streams, ts, xs, i, n, 0);
    var ts1, xs1 := ts[0 := ts[0] + EntryOf(norm, xs[0]).nbits], xs[0 := NextOf(norm, streams[0], ts[0], xs[0])];
    ServeLane(norm, streams, ts1, xs1, i + 1, n, 1);
    var ts2, xs2 := ts1[1 := ts[1] + EntryOf(norm, xs[1]).nbits], xs1[1 := NextOf(norm, streams[1], ts[1], xs[1])];
    ServeLane(norm, streams, ts2, xs2, i + 2, n, 2);
    var ts3, xs3 := ts2[2 := ts[2] + EntryOf(norm, xs[2]).nbits], xs2[2 := NextOf(norm, streams[2], ts[2], xs[2])];
    ServeLane(norm, streams, ts3, xs3, i + 3, n, 3);
    assert xs3[3 := NextOf(norm, streams[3], ts[3], xs[3])] == AllXs(norm, streams, ts, xs);
    assert ts3[3 := ts[3] + EntryOf(norm, xs[3]).nbits] == AllTs(norm, ts, xs);
  }

  /** Moves one lane on after the entry at its state. */
  method Advance(r: BitReader, ghost norm: seq<nat>, e: Entry, ghost x: nat) returns (next: nat)
    requires r.Valid() && Normalized(norm) && x < ANS_L && e == EntryOf(norm, x)
    modifies r
    ensures r.Valid() && r.Consumed() == old(r.Consumed()) + EntryOf(norm, x).nbits
    ensures next == NextOf(norm, ByteBits(r.src), old(r.Consumed()), x)
  {
    hide DecTable, Normalized, ByteBits, Window;
    NextStateInRange(norm, x, ByteBits(r.src), r.Consumed());
    if r.n < ANS_LOG {
      r.Fill();
    }
    var bits := r.Take(e.nbits);
    next := e.baseline + bits;
  }

  /** The four readers, all different, over four streams. */
  ghost predicate Readers(r0: BitReader, r1: BitReader, r2: BitReader, r3: BitReader, streams: seq<seq<bool>>)
    reads r0, r1, r2, r3
  {
    && r0 != r1 && r0 != r2 && r0 != r3 && r1 != r2 && r1 != r3 && r2 != r3
    && r0.Valid() && r1.Valid() && r2.Valid() && r3.Valid()
    && streams == [ByteBits(r0.src), ByteBits(r1.src), ByteBits(r2.src), ByteBits(r3.src)]
  }

  ghost function Ats(r0: BitReader, r1: BitReader, r2: BitReader, r3: BitReader): (ts: seq<nat>)
    requires r0.Valid() && r1.Valid() && r2.Valid() && r3.Valid()
    reads r0, r1, r2, r3
    ensures |ts| == LANES
  {
    [r0.Consumed(), r1.Consumed(), r2.Consumed(), r3.Consumed()]
  }

  ghost predicate StatesOkay(xs: seq<nat>) {
    |xs| == LANES && forall k :: 0 <= k < LANES ==> xs[k] < ANS_L
  }

  /** The bytes still to come from where the readers stand. */
  ghost function Rest(norm: seq<nat>, r0: BitReader, r1: BitReader, r2: BitReader, r3: BitReader, streams: seq<seq<bool>>,
                      xs: seq<nat>, i: nat, n: nat): seq<Byte>
    requires Normalized(norm) && Readers(r0, r1, r2, r3, streams) && StatesOkay(xs)
    reads r0, r1, r2, r3
  {
    LanesRun(norm, streams, Ats(r0, r1, r2, r3), xs, i, n)
  }

  /** One pass of the hot loop: four lookups, four bytes, four state updates. The updated states
      are always in range, so the source's range test after them never fails. */
  method Quad(norm: seq<nat>, dec: array<Entry>, r0: BitReader, r1: BitReader, r2: BitReader, r3: BitReader, xs: seq<nat>,
              dst: array<Byte>, i: nat, num: nat, ghost streams: seq<seq<bool>>) returns (ys: seq<nat>)
    requires Normalized(norm) && dec.Length == ANS_L && dec[..] == DecTable(norm)
    requires Readers(r0, r1, r2, r3, streams) && StatesOkay(xs)
    requires i % LANES == 0 && i + LANES <= num <= dst.Length
    modifies r0, r1, r2, r3, dst
    ensures Readers(r0, r1, r2, r3, streams) && StatesOkay(ys)
    ensures dst[..i] == old(dst[..i]) && dst[num..] == old(dst[num..])
    ensures old(Rest(norm, r0, r1, r2, r3, streams, xs, i, num)) ==
            dst[i..i + LANES] + Rest(norm, r0, r1, r2, r3, streams, ys, i + LANES, num)
  {
    hide DecTable, Normalized, LanesRun, NextState, ByteBits, NextOf;
    ghost var ts := Ats(r0, r1, r2, r3);
    RunFour(norm, streams, ts, xs, i, num);
    var e0, e1, e2, e3 := dec[xs[0]], dec[xs[1]], dec[xs[2]], dec[xs[3]];
    assert e0 == EntryOf(norm, xs[0]) && e1 == EntryOf(norm, xs[1]) && e2 == EntryOf(norm, xs[2]) && e3 == EntryOf(norm, xs[3]);
    hide EntryOf;
    dst[i], dst[i + 1], dst[i + 2], dst[i + 3] := e0.symbol, e1.symbol, e2.symbol, e3.symbol;
    assert dst[i..i + LANES] == [e0.symbol, e1.symbol, e2.symbol, e3.symbol];
    ys := AdvanceAll(norm, r0, r1, r2, r3, xs, e0, e1, e2, e3, streams);
  }

  method AdvanceAll(ghost norm: seq<nat>, r0: BitReader, r1: BitReader, r2: BitReader, r3: BitReader, ghost xs: seq<nat>,
                    e0: Entry, e1: Entry, e2: Entry, e3: Entry, ghost streams: seq<seq<bool>>) returns (ys: seq<nat>)
    requires Normalized(norm) && Readers(r0, r1, r2, r3, streams) && StatesOkay(xs)
    requires e0 == EntryOf(norm, xs[0]) && e1 == EntryOf(norm, xs[1]) && e2 == EntryOf(norm, xs[2]) && e3 == EntryOf(norm, xs[3])
    modifies r0, r1, r2, r3
    ensures Readers(r0, r1, r2, r3, streams)
    ensures ys == AllXs(norm, streams, old(Ats(r0, r1, r2, r3)), xs)
    ensures Ats(r0, r1, r2, r3) == AllTs(norm, old(Ats(r0, r1, r2, r3)), xs)
  {
    hide EntryOf, Normalized, ByteBits, NextOf, BitReader.Valid, BitReader.Consumed;
    var y0 := Advance(r0, norm, e0, xs[0]);
    var y1 := Advance(r1, norm, e1, xs[1]);
    var y2 := Advance(r2, norm, e2, xs[2]);
    var y3 := Advance(r3, norm, e3, xs[3]);
    ys := [y0, y1, y2, y3];
  }

  /** One byte of the tail, from the next lane in turn. */
  method TailStep(norm: seq<nat>, dec: array<Entry>, r0: BitReader, r1: BitReader, r2: BitReader, r3: BitReader, xs: seq<nat>,
                  dst: array<Byte>, i: nat, num: nat, ghost streams: seq<seq<bool>>) returns (ys: seq<nat>)
    requires Normalized(norm) && dec.Length == ANS_L && dec[..] == DecTable(norm)
    requires Readers(r0, r1, r2, r3, streams) && StatesOkay(xs) && i < num <= dst.Length
    modifies r0, r1, r2, r3, dst
    ensures Readers(r0, r1, r2, r3, streams) && StatesOkay(ys)
    ensures dst[..i] == old(dst[..i]) && dst[num..] == old(dst[num..])
    ensures old(Rest(norm, r0, r1, r2, r3, streams, xs, i, num)) ==
            [dst[i]] + Rest(norm, r0, r1, r2, r3, streams, ys, i + 1, num)
  {
    hide DecTable, Normalized, LanesRun, NextState, ByteBits, NextOf;
    var k := i % LANES;
    ghost var ts := Ats(r0, r1, r2, r3);
    ServeLane(norm, streams, ts, xs, i, num, k);
    var e := dec[xs[k]];
    assert e == EntryOf(norm, xs[k]);
    hide EntryOf;
    dst[i] := e.symbol;
    var r := if k == 0 then r0 else if k == 1 then r1 else if k == 2 then r2 else r3;
    var y := Advance(r, norm, e, xs[k]);
    ys := xs[k := y];
    assert Ats(r0, r1, r2, r3) == ts[k := ts[k] + e.nbits];
  }

  method DecodeLoop(norm: seq<nat>, dec: array<Entry>, r0: BitReader, r1: BitReader, r2: BitReader, r3: BitReader,
                    xs0: seq<nat>, dst: array<Byte>, num: nat, ghost streams: seq<seq<bool>>)
    requires Normalized(norm) && dec.Length == ANS_L && dec[..] == DecTable(norm)
    requires Readers(r0, r1, r2, r3, streams) && StatesOkay(xs0) && num <= dst.Length
    modifies r0, r1, r2, r3, dst
    ensures dst[..num] == old(Rest(norm, r0, r1, r2, r3, streams, xs0, 0, num))
    ensures dst[num..] == old(dst[num..])
  {
    hide DecTable, Normalized, LanesRun, ByteBits, Readers, StatesOkay, Rest;
    ghost var goal := Rest(norm, r0, r1, r2, r3, streams, xs0, 0, num);
    ghost var table := dec[..];
    var xs, i := xs0, 0;
    assert dst[..0] + goal == goal;
    while i < num / LANES * LANES
      invariant i % LANES == 0 && i <= num / LANES * LANES && dec[..] == table
      invariant Readers(r0, r1, r2, r3, streams) && StatesOkay(xs)
      invariant goal == dst[..i] + Rest(norm, r0, r1, r2, r3, streams, xs, i, num)
      invariant dst[num..] == old(dst[num..])
    {
      ghost var before := dst[..i];
      xs := Quad(norm, dec, r0, r1, r2, r3, xs, dst, i, num, streams);
      assert dst[..i + LANES] == before + dst[i..i + LANES];
      AppendAssociative(before, dst[i..i + LANES], Rest(norm, r0, r1, r2, r3, streams, xs, i + LANES, num));
      i := i + LANES;
    }
    while i < num
      invariant i <= num && dec[..] == table
      invariant Readers(r0, r1, r2, r3, streams) && StatesOkay(xs)
      invariant goal == dst[..i] + Rest(norm, r0, r1, r2, r3, streams, xs, i, num)
      invariant dst[num..] == old(dst[num..])
    {
      ghost var before := dst[..i];
      xs := TailStep(norm, dec, r0, r1, r2, r3, xs, dst, i, num, streams);
      assert dst[..i + 1] == before + [dst[i]];
      AppendAssociative(before, [dst[i]], Rest(norm, r0, r1, r2, r3, streams, xs, i + 1, num));
      i := i + 1;
    }
    RestDone(norm, r0, r1, r2, r3, streams, xs, num);
    assert dst[..num] + [] == dst[..num];
  }

  lemma RestDone(norm: seq<nat>, r0: BitReader, r1: BitReader, r2: BitReader, r3: BitReader, streams: seq<seq<bool>>,
                 xs: seq<nat>, n: nat)
    requires Normalized(norm) && Readers(r0, r1, r2, r3, streams) && StatesOkay(xs)
    ensures Rest(norm, r0, r1, r2, r3, streams, xs, n, n) == []
  {
  }

  /** `vva_decode4`. On failure only the destination's first `num` bytes may have changed. */
  method VvaDecodeLanes(src: seq<Byte>, dst: array<Byte>, num: nat) returns (status: Status, consumed: nat)
    modifies dst
    ensures DecodeLanes(src, dst.Length, num).DecodeFailed? ==>
              status == Fail(DecodeLanes(src, dst.Length, num).error)
    ensures DecodeLanes(src, dst.Length, num).Decoded? ==>
              status == Ok && DecodeLanes(src, dst.Length, num) == Decoded(dst[..num], consumed)
    ensures num <= dst.Length ==> dst[num..] == old(dst[num..])
  {
    hide Sum, DecTable, ReadHeader, PresentCount, DecodeLanesBody;
    if num == 0 {
      assert dst[..0] == [];
      return Ok, 0;
    }
    if num > dst.Length {
      return Fail(Error.Overflow), 0;
    }
    var norm := new nat[NSYM](_ => 0);
    var h := ReadHeaderInto(src, norm);
    if h == 0 {
      return Fail(Error.Corrupt), 0;
    }
    var np, single := ValidatedSymbolCount(norm);
    if np == 0 {
      EmptyTable(norm[..]);
      return Fail(Error.Corrupt), 0;
    }
    if np == 1 {
      FillWith(dst, single, num);
      assert dst[..num] == Repeat(OnlySymbol(norm[..]), num);
      return Ok, h;
    }
    status, consumed := DecodeParts(norm[..], src[h..], h, dst, num);
  }

  method DecodeParts(norm: seq<nat>, s: seq<Byte>, h: nat, dst: array<Byte>, num: nat) returns (status: Status, consumed: nat)
    requires Normalized(norm) && num <= dst.Length
    modifies dst
    ensures dst[num..] == old(dst[num..])
    ensures DecodeLanesBody(norm, s, h, num) ==
            if status.Ok? then Decoded(dst[..num], consumed) else DecodeFailed(status.error)
  {
    hide DecTable, Normalized, LanesRun, ByteBits, Cut, TakeFields;
    var dec := new Entry[ANS_L](_ => AnsTables.Entry(0, 0, 0));
    BuildDecDirect(norm, dec);
    consumed := 0;
    if |s| < PREAMBLE {
      return Fail(Error.Corrupt), 0;
    }
    var f := TakeFields(s, 2, LANES);
    if f.Short? || f.values[0] >= ANS_L || f.values[1] >= ANS_L || f.values[2] >= ANS_L || f.values[3] >= ANS_L {
      return Fail(Error.Corrupt), 0;
    }
    var g := TakeFields(f.rest, 4, LANES);
    if g.Short? || Total(g.values) > |g.rest| {
      return Fail(Error.Corrupt), 0;
    }
    var parts := Cut(g.rest, g.values);
    ReadLanes(norm, dec, parts, f.values, dst, num);
    status, consumed := Ok, h + PREAMBLE + Total(g.values);
  }

  method ReadLanes(norm: seq<nat>, dec: array<Entry>, parts: seq<seq<Byte>>, xs: seq<nat>, dst: array<Byte>, num: nat)
    requires Normalized(norm) && dec.Length == ANS_L && dec[..] == DecTable(norm)
    requires |parts| == LANES && StatesOkay(xs) && num <= dst.Length
    modifies dst
    ensures dst[..num] == LanesRun(norm, Streams(parts), [0, 0, 0, 0], xs, 0, num)
    ensures dst[num..] == old(dst[num..])
  {
    hide DecTable, Normalized, LanesRun, ByteBits, BitReader.Valid;
    var r0 := new BitReader(parts[0]);
    var r1 := new BitReader(parts[1]);
    var r2 := new BitReader(parts[2]);
    var r3 := new BitReader(parts[3]);
    assert Streams(parts) == [ByteBits(r0.src), ByteBits(r1.src), ByteBits(r2.src), ByteBits(r3.src)];
    DecodeLoop(norm, dec, r0, r1, r2, r3, xs, dst, num, Streams(parts));
  }
}
