/** The Huffman literal coder end to end (`vvh_encode`, `vvh_encode4`, `vvh_decode`, `vvh_decode4`,
    src/vv_huffman.c:404-596, 642-900). */
module HuffCodec {
  import opened Arith
  import opened BitIo
  import opened Bits
  import opened Bytes
  import opened HuffCode
  import opened HuffDecode
  import opened HuffLengths
  import opened HuffTable
  import opened Lz
  import opened Tokens
  import Wire

  //////////////////////////////////////////////////////////////////////////////
  // Lanes
  //////////////////////////////////////////////////////////////////////////////

  ghost predicate Encodable(lengths: seq<nat>, src: seq<Byte>) {
    HuffCode.Usable(lengths) && LengthsOkay(lengths) && forall i :: 0 <= i < |src| ==> lengths[src[i]] > 0
  }

  /** The code words of the symbols from `i` on that go to lane `k` of `lanes`. */
  ghost function LaneBits(lengths: seq<nat>, src: seq<Byte>, i: nat, k: nat, lanes: nat): seq<bool>
    requires LengthsOkay(lengths) && lanes > 0
    decreases |src| - i
  {
    if i >= |src| then []
    else (if i % lanes == k then WordOf(lengths, src[i]) else []) + LaneBits(lengths, src, i + 1, k, lanes)
  }

  lemma AheadSplit(stream: seq<bool>, t: nat, a: seq<bool>, b: seq<bool>)
    requires Ahead(stream, t, a + b)
    ensures t + |a| <= |stream| && stream[t..t + |a|] == a && Ahead(stream, t + |a|, b)
  {
    assert stream[t..t + |a|] == stream[t..][..|a|];
    assert stream[t + |a|..] == stream[t..][|a|..];
    assert (a + b)[|a|..] == b;
  }

  lemma LaneStep(lengths: seq<nat>, src: seq<Byte>, i: nat, k: nat, lanes: nat)
    requires LengthsOkay(lengths) && lanes > 0 && i < |src|
    ensures LaneBits(lengths, src, i, k, lanes) ==
            if i % lanes == k then WordOf(lengths, src[i]) + LaneBits(lengths, src, i + 1, k, lanes)
            else LaneBits(lengths, src, i + 1, k, lanes)
  {
    hide WordOf;
  }

  /** Every lane holds what is left of it. */
  ghost predicate LanesAhead(lengths: seq<nat>, src: seq<Byte>, i: nat, streams: seq<seq<bool>>, ts: seq<nat>)
    requires LengthsOkay(lengths)
  {
    && |streams| == |ts| > 0
    && forall k :: 0 <= k < |streams| ==> Ahead(streams[k], ts[k], LaneBits(lengths, src, i, k, |streams|))
  }

  lemma LanesStep(lengths: seq<nat>, src: seq<Byte>, i: nat, streams: seq<seq<bool>>, ts: seq<nat>)
    requires LengthsOkay(lengths) && i < |src| && LanesAhead(lengths, src, i, streams, ts)
    ensures NextIs(lengths, src[i], streams[i % |streams|], ts[i % |streams|]) <==> lengths[src[i]] > 0
    ensures var k := i % |streams|; LanesAhead(lengths, src, i + 1, streams, ts[k := ts[k] + lengths[src[i]]])
  {
    hide Ahead, WordOf, LaneBits;
    var k, n := i % |streams|, |streams|;
    LaneStep(lengths, src, i, k, n);
    AheadSplit(streams[k], ts[k], WordOf(lengths, src[i]), LaneBits(lengths, src, i + 1, k, n));
    forall j | 0 <= j < n && j != k
      ensures Ahead(streams[j], ts[j], LaneBits(lengths, src, i + 1, j, n))
    {
      LaneStep(lengths, src, i, j, n);
    }
  }

  /** Where each lane ends. */
  ghost function LaneEnds(lengths: seq<nat>, src: seq<Byte>, i: nat, ts: seq<nat>): (r: seq<nat>)
    requires LengthsOkay(lengths) && |ts| > 0
    ensures |r| == |ts|
  {
    seq(|ts|, k requires 0 <= k < |ts| => ts[k] + |LaneBits(lengths, src, i, k, |ts|)|)
  }

  lemma EndsStep(lengths: seq<nat>, src: seq<Byte>, i: nat, ts: seq<nat>)
    requires LengthsOkay(lengths) && i < |src| && |ts| > 0
    ensures var k := i % |ts|;
            LaneEnds(lengths, src, i, ts) == LaneEnds(lengths, src, i + 1, ts[k := ts[k] + lengths[src[i]]])
  {
    hide LaneBits, WordOf;
    var k := i % |ts|;
    var a, b := LaneEnds(lengths, src, i, ts), LaneEnds(lengths, src, i + 1, ts[k := ts[k] + lengths[src[i]]]);
    forall j | 0 <= j < |ts|
      ensures a[j] == b[j]
    {
      LaneStep(lengths, src, i, j, |ts|);
    }
  }

  /** Decoding lanes that hold the code words of a text gives the text. */
  lemma {:induction false} LanesDecode(lengths: seq<nat>, d: DecTable, src: seq<Byte>, i: nat, streams: seq<seq<bool>>, ts: seq<nat>)
    requires Encodable(lengths, src) && IsTableFor(d, lengths) && i <= |src| && LanesAhead(lengths, src, i, streams, ts)
    ensures TableOkay(d) && |streams| == |ts| > 0
    ensures RoundRobin(d, streams, ts, i, |src|) == Out(src[i..], LaneEnds(lengths, src, i, ts))
    decreases |src| - i
  {
    hide HuffCode.Usable, LanesAhead, IsTableFor, Decode, TableOkay, LaneEnds, LaneBits;
    TableForOkay(d, lengths);
    LanesSize(lengths, src, i, streams, ts);
    if i < |src| {
      var k := i % |streams|;
      LanesStep(lengths, src, i, streams, ts);
      EndsStep(lengths, src, i, ts);
      DecodeFinds(lengths, d, src[i], streams[k], ts[k]);
      LanesDecode(lengths, d, src, i + 1, streams, ts[k := ts[k] + lengths[src[i]]]);
      assert src[i..] == [src[i]] + src[i + 1..];
    } else {
      EndsDone(lengths, src, i, ts);
    }
  }

  lemma EndsDone(lengths: seq<nat>, src: seq<Byte>, i: nat, ts: seq<nat>)
    requires LengthsOkay(lengths) && |ts| > 0 && i >= |src|
    ensures LaneEnds(lengths, src, i, ts) == ts
  {
  }

  lemma LanesSize(lengths: seq<nat>, src: seq<Byte>, i: nat, streams: seq<seq<bool>>, ts: seq<nat>)
    requires LengthsOkay(lengths) && LanesAhead(lengths, src, i, streams, ts)
    ensures |streams| == |ts| > 0
  {
  }

  //////////////////////////////////////////////////////////////////////////////
  // Writing a lane
  //////////////////////////////////////////////////////////////////////////////

  lemma {:induction false} LaneSkip(lengths: seq<nat>, src: seq<Byte>, i: nat, j: nat, k: nat, lanes: nat)
    requires LengthsOkay(lengths) && lanes > 0 && i <= j && forall m :: i <= m < j ==> m % lanes != k
    ensures LaneBits(lengths, src, i, k, lanes) == LaneBits(lengths, src, j, k, lanes)
    decreases j - i
  {
    hide WordOf;
    if i < j {
      LaneSkip(lengths, src, i + 1, j, k, lanes);
    }
  }

  lemma BetweenTurns(i: nat, lanes: nat, m: nat)
    requires lanes > 0 && i < m < i + lanes
    ensures m % lanes != i % lanes && (i + lanes) % lanes == i % lanes
  {
    var q, k, e := i / lanes, i % lanes, m - i;
    assert i == q * lanes + k;
    ModPlusMultiple(i, lanes, 1);
    if k + e < lanes {
      DivModUnique(m, lanes, q, k + e);
    } else {
      assert (q + 1) * lanes == q * lanes + lanes;
      DivModUnique(m, lanes, q + 1, k + e - lanes);
    }
  }

  lemma LaneTurn(lengths: seq<nat>, src: seq<Byte>, i: nat, k: nat, lanes: nat)
    requires LengthsOkay(lengths) && lanes > 0 && i < |src| && i % lanes == k
    ensures (i + lanes) % lanes == k
    ensures LaneBits(lengths, src, i, k, lanes) == WordOf(lengths, src[i]) + LaneBits(lengths, src, i + lanes, k, lanes)
  {
    hide WordOf;
    ModPlusMultiple(i, lanes, 1);
    forall m | i + 1 <= m < i + lanes
      ensures m % lanes != k
    {
      BetweenTurns(i, lanes, m);
    }
    LaneSkip(lengths, src, i + 1, i + lanes, k, lanes);
  }

  lemma {:induction false} LaneAtMost(lengths: seq<nat>, src: seq<Byte>, i: nat, k: nat, lanes: nat)
    requires LengthsOkay(lengths) && lanes > 0 && i <= |src|
    ensures |LaneBits(lengths, src, i, k, lanes)| <= MAX_CODE_LEN * (|src| - i)
    decreases |src| - i
  {
    if i < |src| {
      LaneAtMost(lengths, src, i + 1, k, lanes);
    }
  }

  lemma LaneFirst(lengths: seq<nat>, src: seq<Byte>, k: nat, lanes: nat)
    requires LengthsOkay(lengths) && k < lanes
    ensures LaneBits(lengths, src, 0, k, lanes) == LaneBits(lengths, src, k, k, lanes) && k % lanes == k
  {
    hide WordOf, LaneBits;
    DivModUnique(k, lanes, 0, k);
    forall m | 0 <= m < k
      ensures m % lanes != k
    {
      DivModUnique(m, lanes, 0, m);
    }
    LaneSkip(lengths, src, 0, k, k, lanes);
  }

  /** The reversed code words. */
  ghost predicate EncTable(lengths: seq<nat>, codes: seq<nat>) {
    && LengthsOkay(lengths) && |codes| == SYMBOLS
    && forall s :: 0 <= s < SYMBOLS && lengths[s] > 0 ==> codes[s] == Val(WordOf(lengths, s)) && codes[s] < Pow2(lengths[s])
  }

  method BuildEncCodes(lengths: seq<nat>) returns (codes: array<nat>)
    requires LengthsOkay(lengths)
    ensures fresh(codes) && EncTable(lengths, codes[..])
  {
    hide Code, Word, Pow2, Val;
    codes := AssignCodes(lengths);
    for s := 0 to SYMBOLS
      invariant forall u :: s <= u < SYMBOLS && lengths[u] > 0 ==> codes[u] == Code(lengths, u)
      invariant forall u :: 0 <= u < s && lengths[u] > 0 ==>
                  codes[u] == Val(WordOf(lengths, u)) && codes[u] < Pow2(lengths[u])
    {
      if lengths[s] > 0 {
        codes[s] := ReverseBits(codes[s], lengths[s]);
      } else {
        codes[s] := 0;
      }
    }
  }

  lemma CodeBits(lengths: seq<nat>, codes: seq<nat>, s: nat)
    requires EncTable(lengths, codes) && s < SYMBOLS && lengths[s] > 0
    ensures ToBits(codes[s], lengths[s]) == WordOf(lengths, s)
  {
    ToBitsVal(WordOf(lengths, s));
  }

  /** The bytes of one lane. */
  method EncodeLane(lengths: seq<nat>, codes: seq<nat>, src: seq<Byte>, k: nat, lanes: nat) returns (bytes: seq<Byte>)
    requires Encodable(lengths, src) && EncTable(lengths, codes) && k < lanes
    ensures LaneBits(lengths, src, 0, k, lanes) <= ByteBits(bytes)
    ensures |bytes| == (|LaneBits(lengths, src, 0, k, lanes)| + 7) / 8
  {
    hide HuffCode.Usable, EncTable, LaneBits, WordOf, ByteBits, ToBits, Pow2;
    ghost var all := LaneBits(lengths, src, 0, k, lanes);
    LaneAtMost(lengths, src, 0, k, lanes);
    LaneFirst(lengths, src, k, lanes);
    EncTableSize(lengths, codes);
    var w := new BitWriter(2 * |src| + 1);
    var i: nat := k;
    while i < |src|
      invariant fresh(w) && fresh(w.buf) && w.Valid() && w.buf.Length == 2 * |src| + 1 && i % lanes == k
      invariant w.Written() + LaneBits(lengths, src, i, k, lanes) == all
      decreases |src| - i
    {
      LaneTurn(lengths, src, i, k, lanes);
      CodeBits(lengths, codes, src[i]);
      ghost var before := w.Written();
      w.Add(codes[src[i]], lengths[src[i]]);
      AppendAssociative(before, WordOf(lengths, src[i]), LaneBits(lengths, src, i + lanes, k, lanes));
      i := i + lanes;
    }
    LaneEnd(lengths, src, i, k, lanes);
    assert w.Written() == all;
    var len := w.Flush();
    bytes := w.buf[..len];
  }

  lemma EncTableSize(lengths: seq<nat>, codes: seq<nat>)
    requires EncTable(lengths, codes)
    ensures LengthsOkay(lengths) && |codes| == SYMBOLS
  {
  }

  lemma LaneEnd(lengths: seq<nat>, src: seq<Byte>, i: nat, k: nat, lanes: nat)
    requires LengthsOkay(lengths) && lanes > 0 && i >= |src|
    ensures LaneBits(lengths, src, i, k, lanes) == []
  {
  }

  //////////////////////////////////////////////////////////////////////////////
  // The code-length header
  //////////////////////////////////////////////////////////////////////////////

  /** The highest symbol with a code; 0 when there is none. */
  function MaxSym(lengths: seq<nat>): (m: nat)
    ensures |lengths| > 0 ==> m < |lengths|
    ensures forall s :: m < s < |lengths| ==> lengths[s] == 0
  {
    if lengths == [] then 0
    else
      var n := |lengths| - 1;
      if lengths[n] > 0 then n else MaxSym(lengths[..n])
  }

  /** Two lengths to a byte, the even symbol's in the high half. */
  function PairByte(lengths: seq<nat>, j: nat): Byte
    requires |lengths| == SYMBOLS && 2 * j < SYMBOLS && forall s :: 0 <= s < SYMBOLS ==> lengths[s] <= MAX_CODE_LEN
  {
    16 * lengths[2 * j] + (if 2 * j + 1 <= MaxSym(lengths) then lengths[2 * j + 1] else 0)
  }

  function HeaderBytes(lengths: seq<nat>): (h: seq<Byte>)
    requires |lengths| == SYMBOLS && forall s :: 0 <= s < SYMBOLS ==> lengths[s] <= MAX_CODE_LEN
    ensures |h| == 1 + (MaxSym(lengths) + 2) / 2
  {
    [MaxSym(lengths)] + seq((MaxSym(lengths) + 2) / 2, j requires 0 <= j < (MaxSym(lengths) + 2) / 2 => PairByte(lengths, j))
  }

  datatype Header = NoHeader | Header(size: nat, lengths: seq<nat>)

  /** The lengths a header gives: high and low halves of its pair bytes, zero past the last symbol. */
  function HeaderOf(src: seq<Byte>): (h: Header)
    ensures h.Header? ==> h.size <= |src| && |h.lengths| == SYMBOLS
    ensures h.Header? ==> forall s :: 0 <= s < SYMBOLS ==> h.lengths[s] <= MAX_CODE_LEN
  {
    if |src| < 1 || 1 + (src[0] as int + 2) / 2 > |src| then NoHeader
    else
      Header(1 + (src[0] as int + 2) / 2,
             seq(SYMBOLS, s requires 0 <= s < SYMBOLS =>
               if s > src[0] then 0 else if s % 2 == 0 then src[1 + s / 2] / 16 else src[1 + s / 2] % 16))
  }

  lemma PairHalves(lengths: seq<nat>, s: nat)
    requires |lengths| == SYMBOLS && s <= MaxSym(lengths) && forall s :: 0 <= s < SYMBOLS ==> lengths[s] <= MAX_CODE_LEN
    ensures s < SYMBOLS && lengths[s] == if s % 2 == 0 then PairByte(lengths, s / 2) / 16 else PairByte(lengths, s / 2) % 16
  {
    hide MaxSym;
  }

  lemma HeaderRoundTrip(lengths: seq<nat>, rest: seq<Byte>)
    requires |lengths| == SYMBOLS && forall s :: 0 <= s < SYMBOLS ==> lengths[s] <= MAX_CODE_LEN
    ensures HeaderOf(HeaderBytes(lengths) + rest) == Header(|HeaderBytes(lengths)|, lengths)
  {
    hide MaxSym, PairByte;
    var h := HeaderBytes(lengths);
    var r := HeaderOf(h + rest);
    assert (h + rest)[0] == MaxSym(lengths);
    forall s | 0 <= s < SYMBOLS
      ensures r.lengths[s] == lengths[s]
    {
      if s <= MaxSym(lengths) {
        assert (h + rest)[1 + s / 2] == h[1 + s / 2] == PairByte(lengths, s / 2);
        PairHalves(lengths, s);
      }
    }
    assert r.lengths == lengths;
  }

  method FindMaxSym(lengths: seq<nat>) returns (m: nat)
    requires |lengths| == SYMBOLS
    ensures m == MaxSym(lengths)
  {
    m := SYMBOLS - 1;
    assert lengths[..SYMBOLS] == lengths;
    while m > 0 && lengths[m] == 0
      invariant m < SYMBOLS && MaxSym(lengths[..m + 1]) == MaxSym(lengths)
    {
      assert lengths[..m + 1][..m] == lengths[..m];
      m := m - 1;
    }
    assert lengths[..m + 1][..m] == lengths[..m];
    MaxOfOne(lengths[..1]);
  }

  method WriteHeader(lengths: seq<nat>) returns (h: seq<Byte>)
    requires |lengths| == SYMBOLS && forall s :: 0 <= s < SYMBOLS ==> lengths[s] <= MAX_CODE_LEN
    ensures h == HeaderBytes(lengths)
  {
    hide MaxSym, PairByte;
    var m := FindMaxSym(lengths);
    h := [m];
    var i: nat := 0;
    while i <= m
      invariant i % 2 == 0 && i <= m + 2 && |h| == 1 + i / 2
      invariant h[0] == m && forall j :: 0 <= j < i / 2 ==> h[1 + j] == PairByte(lengths, j)
    {
      var hi, lo := lengths[i], if i + 1 <= m then lengths[i + 1] else 0;
      PairByteIs(lengths, i / 2);
      h := h + [16 * hi + lo];
      i := i + 2;
    }
  }

  lemma PairByteIs(lengths: seq<nat>, j: nat)
    requires |lengths| == SYMBOLS && 2 * j < SYMBOLS && forall s :: 0 <= s < SYMBOLS ==> lengths[s] <= MAX_CODE_LEN
    ensures PairByte(lengths, j) == 16 * lengths[2 * j] + (if 2 * j + 1 <= MaxSym(lengths) then lengths[2 * j + 1] else 0)
  {
  }

  lemma MaxOfOne(lengths: seq<nat>)
    requires |lengths| == 1
    ensures MaxSym(lengths) == 0
  {
    assert lengths[..0] == [];
  }

  method ReadHeader(src: seq<Byte>) returns (h: Header)
    ensures h == HeaderOf(src)
  {
    if |src| < 1 {
      return NoHeader;
    }
    var m: nat := src[0];
    var size := 1 + (m + 2) / 2;
    if size > |src| {
      return NoHeader;
    }
    var lengths := new nat[SYMBOLS](_ => 0);
    var i: nat := 0;
    while i <= m
      invariant i % 2 == 0 && i <= m + 2
      invariant forall s :: 0 <= s < SYMBOLS ==>
                  lengths[s] == if s >= i || s > m then 0 else if s % 2 == 0 then src[1 + s / 2] / 16 else src[1 + s / 2] % 16
    {
      var packed: nat := src[1 + i / 2];
      lengths[i] := packed / 16;
      if i + 1 <= m {
        lengths[i + 1] := packed % 16;
      }
      i := i + 2;
    }
    h := Header(size, lengths[..]);
    assert h.lengths == HeaderOf(src).lengths;
  }

  //////////////////////////////////////////////////////////////////////////////
  // Decoding
  //////////////////////////////////////////////////////////////////////////////

  ghost function TableOf(lengths: seq<nat>): (d: DecTable)
    requires LengthsOkay(lengths)
    ensures IsTableFor(d, lengths) && TableOkay(d)
  {
    var d := DecTable(seq(DECODE_SIZE, i requires 0 <= i < DECODE_SIZE => FastFor(lengths, SYMBOLS, i)), SlowFor(lengths, SYMBOLS));
    TableForOkay(d, lengths);
    d
  }

  lemma OneTable(d: DecTable, lengths: seq<nat>)
    requires IsTableFor(d, lengths)
    ensures d == TableOf(lengths)
  {
    assert d.fast == TableOf(lengths).fast;
  }

  predicate Present(lengths: seq<nat>) {
    exists s :: 0 <= s < |lengths| && lengths[s] > 0
  }

  method HasSymbol(lengths: seq<nat>) returns (yes: bool)
    ensures yes == Present(lengths)
  {
    for i := 0 to |lengths|
      invariant forall s :: 0 <= s < i ==> lengths[s] == 0
    {
      if lengths[i] > 0 {
        return true;
      }
    }
    return false;
  }

  /** `vvh_decode` as a specification: header, table, one stream. */
  ghost function SingleSpec(src: seq<Byte>, n: nat): (r: Decoded)
    ensures r.Out? ==> |r.bytes| == n
  {
    if n == 0 then Out([], [0])
    else
      match HeaderOf(src)
      case NoHeader => Failed
      case Header(size, lengths) =>
        if !Present(lengths) then Failed
        else RoundRobin(TableOf(lengths), [ByteBits(src[size..])], [0], 0, n)
  }

  datatype Quad = Quad(s0: int, s1: int, s2: int, s3: int)

  /** The sizes of the four streams: three are stored, the first is what remains. */
  function Sizes(src: seq<Byte>, at: nat): (z: Quad)
    requires at + 9 <= |src|
  {
    var s1, s2, s3 := LittleEndian(src, at, 3), LittleEndian(src, at + 3, 3), LittleEndian(src, at + 6, 3);
    Quad(|src| - at - 9 - s1 - s2 - s3, s1, s2, s3)
  }

  ghost predicate Fits(src: seq<Byte>, off: nat, z: Quad) {
    z.s0 >= 0 && z.s1 >= 0 && z.s2 >= 0 && z.s3 >= 0 && off + z.s0 + z.s1 + z.s2 + z.s3 <= |src|
  }

  function Slice(src: seq<Byte>, p: nat, n: nat): seq<Byte>
    requires p + n <= |src|
  {
    src[p..p + n]
  }

  ghost function FourStreams(src: seq<Byte>, off: nat, z: Quad): seq<seq<bool>>
    requires Fits(src, off, z)
  {
    [ByteBits(Slice(src, off, z.s0)), ByteBits(Slice(src, off + z.s0, z.s1)), ByteBits(Slice(src, off + z.s0 + z.s1, z.s2)),
     ByteBits(Slice(src, off + z.s0 + z.s1 + z.s2, z.s3))]
  }

  /** `vvh_decode4` as a specification: header, sizes, four streams in turn, every symbol checked. */
  ghost function FourSpec(src: seq<Byte>, n: nat): (r: Decoded)
    ensures r.Out? ==> |r.bytes| == n
  {
    if n == 0 then Out([], [0, 0, 0, 0])
    else
      match HeaderOf(src)
      case NoHeader => Failed
      case Header(size, lengths) =>
        if !Present(lengths) || size + 9 > |src| then Failed
        else
          var z := Sizes(src, size);
          if z.s0 < 0 then Failed
          else if n >= 4 && (z.s0 == 0 || z.s1 == 0 || z.s2 == 0 || z.s3 == 0) then Failed
          else RoundRobin(TableOf(lengths), FourStreams(src, size + 9, z), [0, 0, 0, 0], 0, n)
  }

  /** `vvh_decode`: on success, also how many bytes were used. */
  method DecodeSingle(src: seq<Byte>, n: nat) returns (ok: bool, bytes: seq<Byte>, consumed: nat)
    ensures var r := SingleSpec(src, n);
            && (ok <==> r.Out?)
            && (ok ==> bytes == r.bytes && |r.ends| == 1)
            && (ok ==> consumed == if n == 0 then 0 else HeaderOf(src).size + (r.ends[0] + 7) / 8)
  {
    hide IsTableFor, RoundRobin, ByteBits, HeaderOf, Present;
    bytes, consumed := [], 0;
    if n == 0 {
      return true, [], 0;
    }
    var h := ReadHeader(src);
    if h.NoHeader? {
      return false, [], 0;
    }
    var present := HasSymbol(h.lengths);
    if !present {
      return false, [], 0;
    }
    var d := BuildDecTable(h.lengths);
    TableForOkay(d, h.lengths);
    OneTable(d, h.lengths);
    var r := new Reader(src[h.size..]);
    r.Refill();
    var dst;
    ok, dst := DecodeOneStream(r, d, n);
    bytes := dst[..];
    consumed := h.size + r.pos - r.nbits / 8;
  }

  method ReadSize(src: seq<Byte>, at: nat) returns (z: nat)
    requires at + 3 <= |src|
    ensures z == LittleEndian(src, at, 3)
  {
    assert LittleEndian(src, at, 3) == src[at] + 256 * LittleEndian(src, at + 1, 2);
    assert LittleEndian(src, at + 1, 2) == src[at + 1] + 256 * LittleEndian(src, at + 2, 1);
    assert LittleEndian(src, at + 2, 1) == src[at + 2] + 256 * LittleEndian(src, at + 3, 0);
    z := src[at] as int + 256 * (src[at + 1] as int + 256 * src[at + 2] as int);
  }

  method DecodeLanes(lengths: seq<nat>, src: seq<Byte>, off: nat, s0: nat, s1: nat, s2: nat, s3: nat, n: nat)
    returns (ok: bool, bytes: seq<Byte>)
    requires LengthsOkay(lengths) && off + s0 + s1 + s2 + s3 <= |src|
    ensures var r := RoundRobin(TableOf(lengths), FourStreams(src, off, Quad(s0, s1, s2, s3)), [0, 0, 0, 0], 0, n);
            (ok <==> r.Out?) && (ok ==> bytes == r.bytes)
  {
    hide IsTableFor, RoundRobin, ByteBits, TableOf, LengthsOkay, Slice;
    var d := BuildDecTable(lengths);
    TableForOkay(d, lengths);
    OneTable(d, lengths);
    var r0 := new Reader(Slice(src, off, s0));
    var r1 := new Reader(Slice(src, off + s0, s1));
    var r2 := new Reader(Slice(src, off + s0 + s1, s2));
    var r3 := new Reader(Slice(src, off + s0 + s1 + s2, s3));
    var dst;
    ok, dst := DecodeFourStreams(r0, r1, r2, r3, d, n, FourStreams(src, off, Quad(s0, s1, s2, s3)));
    bytes := dst[..];
  }

  /** `vvh_decode4`. */
  method DecodeFour(src: seq<Byte>, n: nat) returns (ok: bool, bytes: seq<Byte>, consumed: nat)
    ensures ok <==> FourSpec(src, n).Out?
    ensures ok ==> bytes == FourSpec(src, n).bytes && consumed == if n == 0 then 0 else |src|
  {
    hide RoundRobin, ByteBits, HeaderOf, Present, LittleEndian, TableOf, FourStreams;
    bytes, consumed := [], 0;
    if n == 0 {
      return true, [], 0;
    }
    var h := ReadHeader(src);
    if h.NoHeader? {
      return false, [], 0;
    }
    var present := HasSymbol(h.lengths);
    if !present || h.size + 9 > |src| {
      return false, [], 0;
    }
    var s1 := ReadSize(src, h.size);
    var s2 := ReadSize(src, h.size + 3);
    var s3 := ReadSize(src, h.size + 6);
    var off := h.size + 9;
    var total := |src| - off;
    if s1 > total || s2 > total - s1 || s3 > total - s1 - s2 {
      return false, [], 0;
    }
    var s0 := total - s1 - s2 - s3;
    if n >= 4 && (s0 == 0 || s1 == 0 || s2 == 0 || s3 == 0) {
      return false, [], 0;
    }
    assert Sizes(src, h.size) == Quad(s0, s1, s2, s3);
    ok, bytes := DecodeLanes(h.lengths, src, off, s0, s1, s2, s3, n);
    consumed := off + s0 + s1 + s2 + s3;
  }

  //////////////////////////////////////////////////////////////////////////////
  // Encoding
  //////////////////////////////////////////////////////////////////////////////

  lemma OneMoreByte(src: seq<Byte>, i: nat, s: nat)
    requires i < |src|
    ensures multiset(src[..i + 1])[s] == multiset(src[..i])[s] + (if s == src[i] then 1 else 0)
  {
    assert src[..i + 1] == src[..i] + [src[i]];
  }

  /** Symbol counts. */
  method Histogram(src: seq<Byte>) returns (freq: array<nat>)
    ensures fresh(freq) && freq.Length == SYMBOLS && SumBy(Same, freq[..]) == |src|
    ensures forall s :: 0 <= s < SYMBOLS ==> freq[s] == multiset(src)[s]
    ensures forall i :: 0 <= i < |src| ==> freq[src[i]] > 0
  {
    hide SumBy;
    freq := new nat[SYMBOLS](_ => 0);
    SumByZeros(Same, freq[..]);
    for i := 0 to |src|
      invariant SumBy(Same, freq[..]) == i
      invariant forall s :: 0 <= s < SYMBOLS ==> freq[s] == multiset(src[..i])[s]
    {
      ghost var was := freq[..];
      SumByUpdate(Same, was, src[i], was[src[i]] + 1);
      forall s | 0 <= s < SYMBOLS
        ensures multiset(src[..i + 1])[s] == was[s] + (if s == src[i] then 1 else 0)
      {
        OneMoreByte(src, i, s);
      }
      freq[src[i]] := freq[src[i]] + 1;
      assert freq[..] == was[src[i] := was[src[i]] + 1];
    }
    assert src[..|src|] == src;
    forall i | 0 <= i < |src|
      ensures freq[src[i]] > 0
    {
      assert src[i] in multiset(src);
    }
  }

  /** How often each byte occurs. */
  ghost function CountsOf(src: seq<Byte>): (freq: seq<nat>)
    ensures |freq| == SYMBOLS
  {
    seq(SYMBOLS, s requires 0 <= s < SYMBOLS => multiset(src)[s])
  }

  method BuildEncTable(src: seq<Byte>) returns (lengths: seq<nat>, codes: seq<nat>)
    requires |src| <= MAX_BLOCK
    ensures Encodable(lengths, src) && EncTable(lengths, codes) && CodeLengths(CountsOf(src), lengths)
  {
    hide Kraft, SumBy, EncTable;
    var freq := Histogram(src);
    assert freq[..] == CountsOf(src);
    var table, _ := BuildCodeLengths(freq[..]);
    lengths := table[..];
    var c := BuildEncCodes(lengths);
    codes := c[..];
  }

  datatype Encoded = Refused | Encoded(bytes: seq<Byte>)

  /** The byte string of one lane. */
  ghost predicate LaneStream(lengths: seq<nat>, src: seq<Byte>, k: nat, lanes: nat, bytes: seq<Byte>)
    requires LengthsOkay(lengths) && lanes > 0
  {
    var bits := LaneBits(lengths, src, 0, k, lanes);
    bits <= ByteBits(bytes) && |bytes| == (|bits| + 7) / 8
  }

  lemma StreamAhead(lengths: seq<nat>, src: seq<Byte>, k: nat, lanes: nat, bytes: seq<Byte>)
    requires LengthsOkay(lengths) && lanes > 0 && LaneStream(lengths, src, k, lanes, bytes)
    ensures Ahead(ByteBits(bytes), 0, LaneBits(lengths, src, 0, k, lanes))
  {
    hide LaneBits, ByteBits;
    assert ByteBits(bytes)[0..] == ByteBits(bytes);
  }

  lemma SomeSymbol(lengths: seq<nat>, src: seq<Byte>)
    requires Encodable(lengths, src) && src != []
    ensures Present(lengths)
  {
    assert lengths[src[0]] > 0;
  }

  /** Header and one stream decode to the text, and exactly the bytes written are used. */
  lemma SingleStreamRoundTrip(lengths: seq<nat>, src: seq<Byte>, stream: seq<Byte>)
    requires Encodable(lengths, src) && src != [] && LaneStream(lengths, src, 0, 1, stream)
    ensures var bytes := HeaderBytes(lengths) + stream;
            var r := SingleSpec(bytes, |src|);
            && r.Out? && r.bytes == src && |r.ends| == 1
            && HeaderOf(bytes).Header? && HeaderOf(bytes).size + (r.ends[0] + 7) / 8 == |bytes|
  {
    hide HuffCode.Usable, LaneBits, ByteBits, RoundRobin, TableOf, HeaderOf, HeaderBytes, IsTableFor, Present;
    var bytes := HeaderBytes(lengths) + stream;
    HeaderRoundTrip(lengths, stream);
    SomeSymbol(lengths, src);
    assert bytes[|HeaderBytes(lengths)|..] == stream;
    StreamAhead(lengths, src, 0, 1, stream);
    LanesDecode(lengths, TableOf(lengths), src, 0, [ByteBits(stream)], [0]);
    assert src[0..] == src;
  }

  /** The size of a lane in bytes. */
  ghost function LaneBytes(lengths: seq<nat>, src: seq<Byte>, k: nat, lanes: nat): nat
    requires LengthsOkay(lengths) && lanes > 0
  {
    (|LaneBits(lengths, src, 0, k, lanes)| + 7) / 8
  }

  /** Header and one stream. */
  ghost function SingleSize(lengths: seq<nat>, src: seq<Byte>): nat
    requires LengthsOkay(lengths)
  {
    |HeaderBytes(lengths)| + LaneBytes(lengths, src, 0, 1)
  }

  /** Header, three sizes, four streams. */
  ghost function FourSize(lengths: seq<nat>, src: seq<Byte>): nat
    requires LengthsOkay(lengths)
  {
    |HeaderBytes(lengths)| + 9 + LaneBytes(lengths, src, 0, 4) + LaneBytes(lengths, src, 1, 4)
    + LaneBytes(lengths, src, 2, 4) + LaneBytes(lengths, src, 3, 4)
  }

  /** What the one-stream coder answers, and the size it compares: it accepts (`ok`) exactly when that is
      smaller than the source and fits. */
  ghost predicate SingleAccounts(src: seq<Byte>, cap: nat, ok: bool, size: nat) {
    exists lengths :: SingleAccountsFor(lengths, src, cap, ok, size)
  }

  ghost predicate SingleAccountsFor(lengths: seq<nat>, src: seq<Byte>, cap: nat, ok: bool, size: nat) {
    && CodeLengths(CountsOf(src), lengths) && LengthsOkay(lengths)
    && size == SingleSize(lengths, src) && (ok <==> size <= cap && size < |src|)
  }

  /** The same for the four-stream coder. */
  ghost predicate FourAccounts(src: seq<Byte>, cap: nat, ok: bool, size: nat) {
    exists lengths :: FourAccountsFor(lengths, src, cap, ok, size)
  }

  ghost predicate FourAccountsFor(lengths: seq<nat>, src: seq<Byte>, cap: nat, ok: bool, size: nat) {
    && CodeLengths(CountsOf(src), lengths) && LengthsOkay(lengths)
    && size == FourSize(lengths, src) && (ok <==> size <= cap && size < |src|)
  }

  /** `vvh_encode`: it accepts an input exactly when its encoding is shorter and fits, and that decodes to the
      input. */
  method EncodeSingle(src: seq<Byte>, cap: nat) returns (r: Encoded)
    requires |src| <= MAX_BLOCK
    ensures r.Encoded? ==>
              var q := SingleSpec(r.bytes, |src|);
              && |r.bytes| <= cap && q.Out? && q.bytes == src
              && (src != [] ==> |r.bytes| < |src| && HeaderOf(r.bytes).Header? && |q.ends| == 1)
              && (src != [] ==> HeaderOf(r.bytes).size + (q.ends[0] + 7) / 8 == |r.bytes|)
    ensures src != [] ==>
              if r.Encoded? then SingleAccounts(src, cap, true, |r.bytes|) else exists size :: SingleAccounts(src, cap, false, size)
  {
    hide HuffCode.Usable, LaneBits, ByteBits, RoundRobin, TableOf, HeaderOf, HeaderBytes, EncTable, CodeLengths;
    if |src| == 0 {
      return Encoded([]);
    }
    var lengths, codes := BuildEncTable(src);
    var header := WriteHeader(lengths);
    ghost var size := SingleSize(lengths, src);
    assert SingleAccountsFor(lengths, src, cap, size <= cap && size < |src|, size);
    assert SingleAccounts(src, cap, size <= cap && size < |src|, size);
    if |header| > cap {
      return Refused;
    }
    var stream := EncodeLane(lengths, codes, src, 0, 1);
    if |stream| > cap - |header| || |header| + |stream| >= |src| {
      return Refused;
    }
    SingleStreamRoundTrip(lengths, src, stream);
    r := Encoded(header + stream);
  }

  lemma LaneNotEmpty(lengths: seq<nat>, src: seq<Byte>, k: nat, lanes: nat, bytes: seq<Byte>)
    requires Encodable(lengths, src) && k < lanes && k < |src| && LaneStream(lengths, src, k, lanes, bytes)
    ensures bytes != []
  {
    hide HuffCode.Usable, LaneBits, ByteBits, WordOf;
    LaneFirst(lengths, src, k, lanes);
    LaneTurn(lengths, src, k, k, lanes);
  }

  /** Header, three sizes, four streams. */
  function FourImage(header: seq<Byte>, s0: seq<Byte>, s1: seq<Byte>, s2: seq<Byte>, s3: seq<Byte>): seq<Byte> {
    header + (LeBytes(|s1|, 3) + (LeBytes(|s2|, 3) + (LeBytes(|s3|, 3) + (s0 + (s1 + (s2 + s3))))))
  }

  lemma PartsAt(header: seq<Byte>, s0: seq<Byte>, s1: seq<Byte>, s2: seq<Byte>, s3: seq<Byte>)
    ensures var b := FourImage(header, s0, s1, s2, s3);
            var h := |header|;
            && |b| == h + 9 + |s0| + |s1| + |s2| + |s3|
            && At(b, h, LeBytes(|s1|, 3)) && At(b, h + 3, LeBytes(|s2|, 3)) && At(b, h + 6, LeBytes(|s3|, 3))
            && At(b, h + 9, s0) && At(b, h + 9 + |s0|, s1) && At(b, h + 9 + |s0| + |s1|, s2)
            && At(b, h + 9 + |s0| + |s1| + |s2|, s3)
  {
    hide LeBytes, At;
    var b, h := FourImage(header, s0, s1, s2, s3), |header|;
    var p3 := s0 + (s1 + (s2 + s3));
    WholeAt(b);
    AtSplit(b, 0, header, LeBytes(|s1|, 3) + (LeBytes(|s2|, 3) + (LeBytes(|s3|, 3) + p3)));
    AtSplit(b, h, LeBytes(|s1|, 3), LeBytes(|s2|, 3) + (LeBytes(|s3|, 3) + p3));
    AtSplit(b, h + 3, LeBytes(|s2|, 3), LeBytes(|s3|, 3) + p3);
    AtSplit(b, h + 6, LeBytes(|s3|, 3), p3);
    AtSplit(b, h + 9, s0, s1 + (s2 + s3));
    AtSplit(b, h + 9 + |s0|, s1, s2 + s3);
    AtSplit(b, h + 9 + |s0| + |s1|, s2, s3);
  }

  /** Every part stands where the decoder looks for it. */
  lemma ImageParts(header: seq<Byte>, s0: seq<Byte>, s1: seq<Byte>, s2: seq<Byte>, s3: seq<Byte>)
    requires |s1| <= 0xFF_FFFF && |s2| <= 0xFF_FFFF && |s3| <= 0xFF_FFFF
    ensures var b := FourImage(header, s0, s1, s2, s3);
            var h := |header|;
            && |b| == h + 9 + |s0| + |s1| + |s2| + |s3|
            && Sizes(b, h) == Quad(|s0|, |s1|, |s2|, |s3|)
            && FourStreams(b, h + 9, Quad(|s0|, |s1|, |s2|, |s3|)) == [ByteBits(s0), ByteBits(s1), ByteBits(s2), ByteBits(s3)]
  {
    hide LittleEndian, LeBytes, ByteBits, At, Pow2, FourImage, FourStreams, Sizes;
    var b, h := FourImage(header, s0, s1, s2, s3), |header|;
    PartsAt(header, s0, s1, s2, s3);
    SizesAt(b, h, s0, s1, s2, s3);
    StreamsAt(b, h + 9, s0, s1, s2, s3);
  }

  lemma SizeAt(b: seq<Byte>, p: nat, v: nat)
    requires v <= 0xFF_FFFF && At(b, p, LeBytes(v, 3))
    ensures p + 3 <= |b| && LittleEndian(b, p, 3) == v
  {
    hide LittleEndian, LeBytes, At, Pow2;
    Wire.Pow2Of32();
    ReadLe(b, p, v, 3);
  }

  lemma SizesAt(b: seq<Byte>, h: nat, s0: seq<Byte>, s1: seq<Byte>, s2: seq<Byte>, s3: seq<Byte>)
    requires |s1| <= 0xFF_FFFF && |s2| <= 0xFF_FFFF && |s3| <= 0xFF_FFFF
    requires |b| == h + 9 + |s0| + |s1| + |s2| + |s3|
    requires At(b, h, LeBytes(|s1|, 3)) && At(b, h + 3, LeBytes(|s2|, 3)) && At(b, h + 6, LeBytes(|s3|, 3))
    ensures Sizes(b, h) == Quad(|s0|, |s1|, |s2|, |s3|)
  {
    hide LittleEndian, LeBytes, At;
    SizeAt(b, h, |s1|);
    SizeAt(b, h + 3, |s2|);
    SizeAt(b, h + 6, |s3|);
  }

  lemma SliceAt(b: seq<Byte>, p: nat, part: seq<Byte>, n: int)
    requires At(b, p, part) && n == |part|
    ensures p + n <= |b| && Slice(b, p, n) == part
  {
  }

  lemma StreamsOf(b: seq<Byte>, off: nat, z: Quad, s0: seq<Byte>, s1: seq<Byte>, s2: seq<Byte>, s3: seq<Byte>)
    requires Fits(b, off, z)
    requires Slice(b, off, z.s0) == s0 && Slice(b, off + z.s0, z.s1) == s1
    requires Slice(b, off + z.s0 + z.s1, z.s2) == s2 && Slice(b, off + z.s0 + z.s1 + z.s2, z.s3) == s3
    ensures FourStreams(b, off, z) == [ByteBits(s0), ByteBits(s1), ByteBits(s2), ByteBits(s3)]
  {
    hide ByteBits, Slice;
  }

  lemma SlicesAt(b: seq<Byte>, off: nat, z: Quad, s0: seq<Byte>, s1: seq<Byte>, s2: seq<Byte>, s3: seq<Byte>)
    requires z == Quad(|s0|, |s1|, |s2|, |s3|)
    requires At(b, off, s0) && At(b, off + |s0|, s1) && At(b, off + |s0| + |s1|, s2) && At(b, off + |s0| + |s1| + |s2|, s3)
    ensures Fits(b, off, z)
    ensures Slice(b, off, z.s0) == s0 && Slice(b, off + z.s0, z.s1) == s1
    ensures Slice(b, off + z.s0 + z.s1, z.s2) == s2 && Slice(b, off + z.s0 + z.s1 + z.s2, z.s3) == s3
  {
    hide At, Slice;
    SliceAt(b, off, s0, z.s0);
    SliceAt(b, off + z.s0, s1, z.s1);
    SliceAt(b, off + z.s0 + z.s1, s2, z.s2);
    SliceAt(b, off + z.s0 + z.s1 + z.s2, s3, z.s3);
  }

  lemma StreamsAt(b: seq<Byte>, off: nat, s0: seq<Byte>, s1: seq<Byte>, s2: seq<Byte>, s3: seq<Byte>)
    requires At(b, off, s0) && At(b, off + |s0|, s1) && At(b, off + |s0| + |s1|, s2) && At(b, off + |s0| + |s1| + |s2|, s3)
    ensures var z := Quad(|s0|, |s1|, |s2|, |s3|);
            Fits(b, off, z) && FourStreams(b, off, z) == [ByteBits(s0), ByteBits(s1), ByteBits(s2), ByteBits(s3)]
  {
    hide ByteBits, At, Slice, FourStreams;
    var z := Quad(|s0|, |s1|, |s2|, |s3|);
    SlicesAt(b, off, z, s0, s1, s2, s3);
    StreamsOf(b, off, z, s0, s1, s2, s3);
  }

  lemma WholeAt(b: seq<Byte>)
    ensures At(b, 0, b)
  {
    assert b[0..|b|] == b;
  }

  /** Four-stream decoding inverts four-stream encoding. */
  lemma FourStreamRoundTrip(lengths: seq<nat>, src: seq<Byte>, s0: seq<Byte>, s1: seq<Byte>, s2: seq<Byte>, s3: seq<Byte>)
    requires Encodable(lengths, src) && |src| >= 4
    requires LaneStream(lengths, src, 0, 4, s0) && LaneStream(lengths, src, 1, 4, s1)
    requires LaneStream(lengths, src, 2, 4, s2) && LaneStream(lengths, src, 3, 4, s3)
    requires |s1| <= 0xFF_FFFF && |s2| <= 0xFF_FFFF && |s3| <= 0xFF_FFFF
    ensures var r := FourSpec(FourImage(HeaderBytes(lengths), s0, s1, s2, s3), |src|); r.Out? && r.bytes == src
  {
    hide HuffCode.Usable, LaneBits, LaneStream, ByteBits, RoundRobin, TableOf, HeaderOf, HeaderBytes, IsTableFor, Present, Sizes,
      FourStreams, LeBytes;
    var header := HeaderBytes(lengths);
    var b := FourImage(header, s0, s1, s2, s3);
    HeaderRoundTrip(lengths, b[|header|..]);
    assert header + b[|header|..] == b;
    SomeSymbol(lengths, src);
    ImageParts(header, s0, s1, s2, s3);
    LaneNotEmpty(lengths, src, 0, 4, s0);
    LaneNotEmpty(lengths, src, 1, 4, s1);
    LaneNotEmpty(lengths, src, 2, 4, s2);
    LaneNotEmpty(lengths, src, 3, 4, s3);
    FourAhead(lengths, src, s0, s1, s2, s3);
    LanesDecode(lengths, TableOf(lengths), src, 0, [ByteBits(s0), ByteBits(s1), ByteBits(s2), ByteBits(s3)], [0, 0, 0, 0]);
    assert src[0..] == src;
  }

  lemma FourAhead(lengths: seq<nat>, src: seq<Byte>, s0: seq<Byte>, s1: seq<Byte>, s2: seq<Byte>, s3: seq<Byte>)
    requires LengthsOkay(lengths)
    requires LaneStream(lengths, src, 0, 4, s0) && LaneStream(lengths, src, 1, 4, s1)
    requires LaneStream(lengths, src, 2, 4, s2) && LaneStream(lengths, src, 3, 4, s3)
    ensures LanesAhead(lengths, src, 0, [ByteBits(s0), ByteBits(s1), ByteBits(s2), ByteBits(s3)], [0, 0, 0, 0])
  {
    hide LaneBits, LaneStream, ByteBits, Ahead;
    StreamAhead(lengths, src, 0, 4, s0);
    StreamAhead(lengths, src, 1, 4, s1);
    StreamAhead(lengths, src, 2, 4, s2);
    StreamAhead(lengths, src, 3, 4, s3);
  }

  const MIN_LITERALS: nat := 1024

  /** The four streams. */
  method EncodeLanes(lengths: seq<nat>, codes: seq<nat>, src: seq<Byte>)
    returns (s0: seq<Byte>, s1: seq<Byte>, s2: seq<Byte>, s3: seq<Byte>)
    requires Encodable(lengths, src) && EncTable(lengths, codes) && 4 <= |src| <= MAX_BLOCK
    ensures LaneStream(lengths, src, 0, 4, s0) && LaneStream(lengths, src, 1, 4, s1)
    ensures LaneStream(lengths, src, 2, 4, s2) && LaneStream(lengths, src, 3, 4, s3)
    ensures |s0| == LaneBytes(lengths, src, 0, 4) && |s1| == LaneBytes(lengths, src, 1, 4)
    ensures |s2| == LaneBytes(lengths, src, 2, 4) && |s3| == LaneBytes(lengths, src, 3, 4)
    ensures s3 != [] && |s1| <= 0xFF_FFFF && |s2| <= 0xFF_FFFF && |s3| <= 0xFF_FFFF
  {
    hide HuffCode.Usable, LaneBits, ByteBits, EncTable;
    s0 := EncodeLane(lengths, codes, src, 0, 4);
    s1 := EncodeLane(lengths, codes, src, 1, 4);
    s2 := EncodeLane(lengths, codes, src, 2, 4);
    s3 := EncodeLane(lengths, codes, src, 3, 4);
    LaneNotEmpty(lengths, src, 3, 4, s3);
    LaneAtMost(lengths, src, 0, 1, 4);
    LaneAtMost(lengths, src, 0, 2, 4);
    LaneAtMost(lengths, src, 0, 3, 4);
  }

  /** `vvh_encode4`: it accepts an input of at least 1024 bytes exactly when its encoding is shorter and fits, and
      that decodes to the input. */
  method EncodeFour(src: seq<Byte>, cap: nat) returns (r: Encoded)
    requires |src| <= MAX_BLOCK
    ensures r.Encoded? ==>
              var q := FourSpec(r.bytes, |src|);
              MIN_LITERALS <= |src| && |r.bytes| < |src| && |r.bytes| <= cap && q.Out? && q.bytes == src
    ensures |src| < MIN_LITERALS || cap < 200 ==> r.Refused?
    ensures |src| >= MIN_LITERALS && cap >= 200 ==>
              if r.Encoded? then FourAccounts(src, cap, true, |r.bytes|) else exists size :: FourAccounts(src, cap, false, size)
  {
    hide HuffCode.Usable, LaneBytes, LaneStream, FourSpec, FourImage, HeaderBytes, EncTable, CodeLengths;
    if |src| < MIN_LITERALS || cap < 200 {
      return Refused;
    }
    var lengths, codes := BuildEncTable(src);
    ghost var size := FourSize(lengths, src);
    assert FourAccountsFor(lengths, src, cap, size <= cap && size < |src|, size);
    assert FourAccounts(src, cap, size <= cap && size < |src|, size);
    var header := WriteHeader(lengths);
    if |header| > cap || |header| + 9 >= cap {
      return Refused;
    }
    var s0, s1, s2, s3 := EncodeLanes(lengths, codes, src);
    var off := |header| + 9;
    if |s0| > cap - off || off + |s0| + |s1| > cap || off + |s0| + |s1| + |s2| > cap || off + |s0| + |s1| + |s2| + |s3| > cap {
      return Refused;
    }
    if off + |s0| >= cap || off + |s0| + |s1| >= cap || off + |s0| + |s1| + |s2| >= cap {
      return Refused;
    }
    if |s1| > 0xFF_FFFF || |s2| > 0xFF_FFFF || |s3| > 0xFF_FFFF || off + |s0| + |s1| + |s2| + |s3| >= |src| {
      return Refused;
    }
    FourStreamRoundTrip(lengths, src, s0, s1, s2, s3);
    ImageParts(header, s0, s1, s2, s3);
    r := Encoded(FourImage(header, s0, s1, s2, s3));
  }
}
