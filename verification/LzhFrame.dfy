/** The byte format of src/zupt_lzh.c:15-23, 652-705, 738-812: flags, sizes, two tables of code lengths and
    a bit stream. */
module LzhFrame {
  import opened Bits
  import opened BitIo
  import opened Bytes
  import opened HuffCode
  import opened HuffLengths
  import opened Lz
  import opened LzhLens
  import opened LzhRle
  import opened LzhSyms
  import opened Tokens
  import opened Wire

  //////////////////////////////////////////////////////////////////////////////
  // Reading
  //////////////////////////////////////////////////////////////////////////////

  datatype Table = NoTable | Table(lens: seq<nat>, rest: seq<Byte>)

  function Padded(lens: seq<nat>, size: nat): (r: seq<nat>)
    requires |lens| <= size
    ensures |r| == size
  {
    lens + Repeat(0, size - |lens|)
  }

  function Numbers(s: seq<Byte>): (r: seq<nat>)
    ensures |r| == |s|
  {
    seq(|s|, i requires 0 <= i < |s| => s[i])
  }

  /** Code lengths for an alphabet of `size` symbols, of which `count` are announced, behind their size field. */
  function ReadTable(s: seq<Byte>, count: nat, size: nat): (r: Table)
    requires count <= size
    ensures r.Table? ==> |r.lens| == size && |r.rest| <= |s|
  {
    if |s| < 2 then NoTable else ReadLens(LittleEndian(s, 0, 2), s[2..], count, size)
  }

  /** They are run-length coded when the high bit of the size field is set, else a byte each. */
  function ReadLens(hdr: nat, s: seq<Byte>, count: nat, size: nat): (r: Table)
    requires count <= size
    ensures r.Table? ==> |r.lens| == size && |r.rest| <= |s|
  {
    if hdr >= 0x8000 then
      var n := hdr - 0x8000;
      if n > |s| then NoTable
      else
        match Expand(s[..n], 0, [], 0, count)
        case BadLengths => NoTable
        case Lengths(lens, _) => Table(Padded(lens, size), s[n..])
    else if hdr > size || hdr > |s| then NoTable
    else if exists i :: 0 <= i < hdr && s[i] > MAX_CODE_LEN then NoTable
    else Table(Padded(Numbers(s[..hdr]), size), s[hdr..])
  }

  datatype Header = NoHeader | Header(rle: bool, ll: seq<nat>, d: seq<nat>, body: seq<Byte>)

  /** Everything before the bit stream. */
  function ReadHeader(s: seq<Byte>): (r: Header)
    ensures r.Header? ==> |r.ll| <= MAX_LITLEN && |r.d| <= DIST_CODES
  {
    if |s| < 5 then NoHeader
    else
      var rle := s[0] % 2 == 1;
      ReadCounts(rle, s[if rle then 5 else 1..])
  }

  /** The sizes of the two alphabets. */
  function ReadCounts(rle: bool, s: seq<Byte>): (r: Header)
    ensures r.Header? ==> |r.ll| <= MAX_LITLEN && |r.d| <= DIST_CODES
  {
    if |s| < 4 then NoHeader
    else ReadLengths(rle, LittleEndian(s, 0, 2), LittleEndian(s[2..], 0, 2), s[2..][2..])
  }

  /** The two tables. */
  function ReadLengths(rle: bool, llCnt: nat, dCnt: nat, s: seq<Byte>): (r: Header)
    ensures r.Header? ==> |r.ll| <= MAX_LITLEN && |r.d| <= DIST_CODES
  {
    if llCnt > MAX_LITLEN || dCnt > DIST_CODES then NoHeader
    else
      match ReadTable(s, llCnt, MAX_LITLEN)
      case NoTable => NoHeader
      case Table(ll, s2) =>
        match ReadTable(s2, dCnt, DIST_CODES)
        case NoTable => NoHeader
        case Table(d, s3) => Header(rle, ll[..llCnt], d[..dCnt], s3)
  }

  /** `zupt_lzh_decompress` into `dlen` bytes, on every input: a header that cannot be read gives nothing,
      and the bit stream gives what can be decoded of it. */
  ghost function Decompress(s: seq<Byte>, dlen: nat): (r: seq<Byte>)
    ensures |r| <= dlen
  {
    match ReadHeader(s)
    case NoHeader => []
    case Header(rle, ll, d, body) =>
      var out := Inflate(ll, d, ByteBits(body), 0, [], dlen);
      if rle then Decoded(out, dlen) else out
  }

  //////////////////////////////////////////////////////////////////////////////
  // Writing
  //////////////////////////////////////////////////////////////////////////////

  /** Run-length coded lengths behind their size. */
  function TableBytes(cl: seq<Byte>): seq<Byte> {
    LeBytes(|cl| + 0x8000, 2) + cl
  }

  function Start(rle: bool, orig: nat): seq<Byte> {
    [if rle then 1 else 0] + (if rle then LeBytes(orig, 4) else [])
  }

  function HeaderBytes(rle: bool, orig: nat, llCnt: nat, dCnt: nat, llCl: seq<Byte>, dCl: seq<Byte>): seq<Byte> {
    Start(rle, orig) + LeBytes(llCnt, 2) + LeBytes(dCnt, 2) + TableBytes(llCl) + TableBytes(dCl)
  }

  lemma TableRoundTrip(lens: seq<nat>, cl: seq<Byte>, size: nat, rest: seq<Byte>)
    requires |lens| <= size && |cl| < 0x8000 && Expand(cl, 0, [], 0, |lens|) == Lengths(lens, |cl|)
    ensures ReadTable(TableBytes(cl) + rest, |lens|, size) == Table(Padded(lens, size), rest)
  {
    hide LeBytes, LittleEndian, Expand, Pow2, ReadLens, Padded;
    Pow2Small();
    AppendAssociative(LeBytes(|cl| + 0x8000, 2), cl, rest);
    FrontLe(|cl| + 0x8000, 2, cl + rest);
    LensRoundTrip(lens, cl, size, rest);
  }

  lemma LensRoundTrip(lens: seq<nat>, cl: seq<Byte>, size: nat, rest: seq<Byte>)
    requires |lens| <= size && Expand(cl, 0, [], 0, |lens|) == Lengths(lens, |cl|)
    ensures ReadLens(|cl| + 0x8000, cl + rest, |lens|, size) == Table(Padded(lens, size), rest)
  {
    hide Expand, Padded;
    assert (cl + rest)[..|cl|] == cl && (cl + rest)[|cl|..] == rest;
  }

  lemma PaddedPrefix(lens: seq<nat>, size: nat)
    requires |lens| <= size
    ensures Padded(lens, size)[..|lens|] == lens
  {
  }

  lemma LengthsRoundTrip(rle: bool, ll: seq<nat>, d: seq<nat>, llCl: seq<Byte>, dCl: seq<Byte>, body: seq<Byte>)
    requires |ll| <= MAX_LITLEN && |d| <= DIST_CODES && |llCl| < 0x8000 && |dCl| < 0x8000
    requires Expand(llCl, 0, [], 0, |ll|) == Lengths(ll, |llCl|) && Expand(dCl, 0, [], 0, |d|) == Lengths(d, |dCl|)
    ensures ReadLengths(rle, |ll|, |d|, TableBytes(llCl) + (TableBytes(dCl) + body)) == Header(rle, ll, d, body)
  {
    hide TableBytes, Expand, Padded, ReadTable;
    TableRoundTrip(ll, llCl, MAX_LITLEN, TableBytes(dCl) + body);
    TableRoundTrip(d, dCl, DIST_CODES, body);
    PaddedPrefix(ll, MAX_LITLEN);
    PaddedPrefix(d, DIST_CODES);
  }

  /** The header is read back, and the bit stream is what follows it. */
  lemma HeaderRoundTrip(rle: bool, orig: nat, ll: seq<nat>, d: seq<nat>, llCl: seq<Byte>, dCl: seq<Byte>, body: seq<Byte>)
    requires |ll| <= MAX_LITLEN && |d| <= DIST_CODES && |llCl| < 0x8000 && |dCl| < 0x8000
    requires Expand(llCl, 0, [], 0, |ll|) == Lengths(ll, |llCl|) && Expand(dCl, 0, [], 0, |d|) == Lengths(d, |dCl|)
    ensures ReadHeader(HeaderBytes(rle, orig, |ll|, |d|, llCl, dCl) + body) == Header(rle, ll, d, body)
  {
    hide TableBytes, Expand, ReadCounts, LeBytes, Start;
    var tail := TableBytes(llCl) + (TableBytes(dCl) + body);
    var counts := LeBytes(|ll|, 2) + (LeBytes(|d|, 2) + tail);
    Nested(Start(rle, orig), LeBytes(|ll|, 2), LeBytes(|d|, 2), TableBytes(llCl), TableBytes(dCl), body);
    StartShape(rle, orig, counts);
    CountsRoundTrip(rle, |ll|, |d|, tail);
    LengthsRoundTrip(rle, ll, d, llCl, dCl, body);
  }

  lemma Nested<T>(a: seq<T>, b: seq<T>, c: seq<T>, d: seq<T>, e: seq<T>, f: seq<T>)
    ensures a + b + c + d + e + f == a + (b + (c + (d + (e + f))))
  {
    AppendAssociative(a + b + c + d, e, f);
    AppendAssociative(a + b + c, d, e + f);
    AppendAssociative(a + b, c, d + (e + f));
    AppendAssociative(a, b, c + (d + (e + f)));
  }

  lemma CountsRoundTrip(rle: bool, llCnt: nat, dCnt: nat, tail: seq<Byte>)
    requires llCnt <= MAX_LITLEN && dCnt <= DIST_CODES
    ensures ReadCounts(rle, LeBytes(llCnt, 2) + (LeBytes(dCnt, 2) + tail)) == ReadLengths(rle, llCnt, dCnt, tail)
  {
    hide ReadLengths, LeBytes, LittleEndian, Pow2;
    Pow2Small();
    FrontLe(llCnt, 2, LeBytes(dCnt, 2) + tail);
    FrontLe(dCnt, 2, tail);
  }

  lemma StartShape(rle: bool, orig: nat, rest: seq<Byte>)
    requires |rest| >= 4
    ensures var s := Start(rle, orig) + rest;
            |s| >= 5 && (s[0] % 2 == 1 <==> rle) && s[if rle then 5 else 1..] == rest
  {
    hide LeBytes;
    var s := Start(rle, orig) + rest;
    assert |Start(rle, orig)| == if rle then 5 else 1;
  }

  /** A frame whose bits spell pieces decodes to what they denote, or to what that unpacks to. */
  lemma FrameRoundTrip(rle: bool, orig: nat, ll: seq<nat>, d: seq<nat>, llCl: seq<Byte>, dCl: seq<Byte>, body: seq<Byte>,
                       ps: seq<Piece>, dlen: nat)
    requires |ll| <= MAX_LITLEN && |d| <= DIST_CODES && |llCl| < 0x8000 && |dCl| < 0x8000
    requires Expand(llCl, 0, [], 0, |ll|) == Lengths(ll, |llCl|) && Expand(dCl, 0, [], 0, |d|) == Lengths(d, |dCl|)
    requires Decodable(ll) && Decodable(d) && AllCodable(ll, d, ps)
    requires Meaningful([], ps) && |Meaning([], ps)| <= dlen
    requires PiecesBits(ll, d, ps) + WordOf(ll, END_OF_BLOCK) <= ByteBits(body)
    ensures Decompress(HeaderBytes(rle, orig, |ll|, |d|, llCl, dCl) + body, dlen) ==
            if rle then Decoded(Meaning([], ps), dlen) else Meaning([], ps)
  {
    hide Decodable, Expand, Inflate, ReadHeader, HeaderBytes, Meaning, Meaningful, PiecesBits, WordOf, Decoded, ByteBits, Codable;
    HeaderRoundTrip(rle, orig, ll, d, llCl, dCl, body);
    assert ByteBits(body)[0..] == ByteBits(body);
    InflateInverse(ll, d, ByteBits(body), 0, [], ps, dlen);
  }
}
