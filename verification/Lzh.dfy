/** The LZH codec (`zupt_lzh_compress` and `zupt_lzh_decompress`, src/zupt_lzh.c:528-863). */
module Lzh {
  import opened BitIo
  import opened Bits
  import opened Bytes
  import Copies
  import opened HuffCode
  import opened HuffLengths
  import LazyLog
  import opened Lz
  import opened LzhBits
  import opened LzhFrame
  import opened LzhLengths
  import opened LzhLens
  import opened LzhLut
  import opened LzhMatch
  import opened LzhRle
  import opened LzhSyms
  import opened Tokens

  //////////////////////////////////////////////////////////////////////////////
  // Counting
  //////////////////////////////////////////////////////////////////////////////

  /** How often literal-or-length symbol `s` is used. */
  function LitLenUses(ps: seq<Piece>, s: nat): nat {
    if ps == [] then 0
    else LitLenUses(ps[..|ps| - 1], s) + (if LitLen(ps[|ps| - 1]) == s then 1 else 0)
  }

  function DistUses(ps: seq<Piece>, s: nat): nat {
    if ps == [] then 0
    else DistUses(ps[..|ps| - 1], s) + (if ps[|ps| - 1].Match? && Dist(ps[|ps| - 1]) == s then 1 else 0)
  }

  lemma {:induction false} Used(ps: seq<Piece>, i: nat)
    requires i < |ps|
    ensures LitLenUses(ps, LitLen(ps[i])) > 0
    ensures ps[i].Match? ==> DistUses(ps, Dist(ps[i])) > 0
    decreases |ps|
  {
    if i < |ps| - 1 {
      Used(ps[..|ps| - 1], i);
    }
  }

  lemma UsesNext(ps: seq<Piece>, i: nat, s: nat)
    requires i < |ps|
    ensures LitLenUses(ps[..i + 1], s) == LitLenUses(ps[..i], s) + (if LitLen(ps[i]) == s then 1 else 0)
    ensures DistUses(ps[..i + 1], s) == DistUses(ps[..i], s) + (if ps[i].Match? && Dist(ps[i]) == s then 1 else 0)
  {
    assert ps[..i + 1][..i] == ps[..i];
  }

  lemma SymbolRange(p: Piece)
    ensures LitLen(p) < MAX_LITLEN && LitLen(p) != END_OF_BLOCK && Dist(p) < DIST_CODES
  {
  }

  /** The symbol counts, with one end of block. */
  method Tally(ps: seq<Piece>) returns (ll: array<nat>, d: array<nat>)
    ensures fresh(ll) && fresh(d) && ll.Length == MAX_LITLEN && d.Length == DIST_CODES
    ensures forall s :: 0 <= s < MAX_LITLEN ==> ll[s] == LitLenUses(ps, s) + (if s == END_OF_BLOCK then 1 else 0)
    ensures forall s :: 0 <= s < DIST_CODES ==> d[s] == DistUses(ps, s)
  {
    hide LitLenUses, DistUses, LitLen, Dist;
    ll, d := new nat[MAX_LITLEN](_ => 0), new nat[DIST_CODES](_ => 0);
    NoUses();
    assert ps[..0] == [];
    for i := 0 to |ps|
      invariant forall s :: 0 <= s < MAX_LITLEN ==> ll[s] == LitLenUses(ps[..i], s)
      invariant forall s :: 0 <= s < DIST_CODES ==> d[s] == DistUses(ps[..i], s)
    {
      var p := ps[i];
      SymbolRange(p);
      forall s | 0 <= s < MAX_LITLEN
        ensures LitLenUses(ps[..i + 1], s) == LitLenUses(ps[..i], s) + (if LitLen(p) == s then 1 else 0)
        ensures DistUses(ps[..i + 1], s) == DistUses(ps[..i], s) + (if p.Match? && Dist(p) == s then 1 else 0)
      {
        UsesNext(ps, i, s);
      }
      ll[LitLen(p)] := ll[LitLen(p)] + 1;
      if p.Match? {
        d[Dist(p)] := d[Dist(p)] + 1;
      }
    }
    assert ps[..|ps|] == ps;
    EndUnused(ps);
    ll[END_OF_BLOCK] := ll[END_OF_BLOCK] + 1;
  }

  lemma NoUses()
    ensures forall s: nat :: LitLenUses([], s) == 0 && DistUses([], s) == 0
  {
  }

  lemma {:induction false} EndUnused(ps: seq<Piece>)
    ensures LitLenUses(ps, END_OF_BLOCK) == 0
    decreases |ps|
  {
    if ps != [] {
      EndUnused(ps[..|ps| - 1]);
      SymbolRange(ps[|ps| - 1]);
    }
  }

  /** One past the last symbol in use, looking down to `low`; `least` when there is none. */
  method SymbolCount(freq: array<nat>, low: nat, least: nat) returns (cnt: nat)
    requires low <= least <= low + 1 && least <= freq.Length && least > 0
    ensures least <= cnt <= freq.Length && forall s :: cnt <= s < freq.Length ==> freq[s] == 0
    ensures cnt > least ==> freq[cnt - 1] > 0
  {
    var i := freq.Length;
    while i > low
      invariant low <= i <= freq.Length && forall s :: i <= s < freq.Length ==> freq[s] == 0
    {
      if freq[i - 1] > 0 {
        return i;
      }
      i := i - 1;
    }
    cnt := least;
  }

  /** The counts of the first `n` symbols. */
  function LitLenFreq(ps: seq<Piece>, n: nat): (f: seq<nat>)
    ensures |f| == n
  {
    seq(n, (s: nat) => LitLenUses(ps, s) + (if s == END_OF_BLOCK then 1 else 0))
  }

  function DistFreq(ps: seq<Piece>, n: nat): (f: seq<nat>)
    ensures |f| == n
  {
    seq(n, (s: nat) => DistUses(ps, s))
  }

  /** Code lengths for the symbols that the pieces use, from Huffman's trees for how often they do; no more symbols than
      are used, but the literals and the end of block at least. */
  ghost predicate CodesFor(ps: seq<Piece>, ll: seq<nat>, d: seq<nat>) {
    && END_OF_BLOCK < |ll| <= MAX_LITLEN && (|ll| > END_OF_BLOCK + 1 ==> LitLenUses(ps, |ll| - 1) > 0)
    && (forall s :: |ll| <= s < MAX_LITLEN ==> LitLenUses(ps, s) == 0)
    && CodeFor(LitLenFreq(ps, |ll|), ll) && FromTree(LitLenFreq(ps, |ll|), ll)
    && 0 < |d| <= DIST_CODES && (|d| > 1 ==> DistUses(ps, |d| - 1) > 0)
    && (forall s :: |d| <= s < DIST_CODES ==> DistUses(ps, s) == 0)
    && CodeFor(DistFreq(ps, |d|), d) && FromTree(DistFreq(ps, |d|), d)
  }

  /** Codes for every symbol in use. */
  lemma UsedCodable(ps: seq<Piece>, llFreq: seq<nat>, dFreq: seq<nat>, llCnt: nat, dCnt: nat, ll: seq<nat>, d: seq<nat>)
    requires |llFreq| == MAX_LITLEN && |dFreq| == DIST_CODES && END_OF_BLOCK < llCnt <= MAX_LITLEN && dCnt <= DIST_CODES
    requires forall s :: 0 <= s < MAX_LITLEN ==> llFreq[s] == LitLenUses(ps, s) + (if s == END_OF_BLOCK then 1 else 0)
    requires forall s :: 0 <= s < DIST_CODES ==> dFreq[s] == DistUses(ps, s)
    requires forall s :: llCnt <= s < MAX_LITLEN ==> llFreq[s] == 0
    requires forall s :: dCnt <= s < DIST_CODES ==> dFreq[s] == 0
    requires CodeFor(llFreq[..llCnt], ll) && CodeFor(dFreq[..dCnt], d)
    requires forall i :: 0 <= i < |ps| ==> Sized(ps[i])
    ensures AllCodable(ll, d, ps)
  {
    hide LitLenUses, DistUses, LitLen, Dist, Kraft;
    forall i | 0 <= i < |ps|
      ensures Codable(ll, d, ps[i])
    {
      Used(ps, i);
      SymbolRange(ps[i]);
      assert llFreq[LitLen(ps[i])] > 0;
      assert llFreq[..llCnt][LitLen(ps[i])] == llFreq[LitLen(ps[i])];
      if ps[i].Match? {
        assert dFreq[Dist(ps[i])] > 0;
        assert dFreq[..dCnt][Dist(ps[i])] == dFreq[Dist(ps[i])];
      }
    }
    assert llFreq[..llCnt][END_OF_BLOCK] == llFreq[END_OF_BLOCK];
  }

  lemma {:induction false} MeaningfulSized(out: seq<Byte>, ps: seq<Piece>, i: nat)
    requires Meaningful(out, ps) && i < |ps|
    ensures Sized(ps[i])
    decreases |ps|
  {
    if i > 0 {
      MeaningfulSized(After(out, ps[0]), ps[1..], i - 1);
    }
  }

  //////////////////////////////////////////////////////////////////////////////
  // The bit stream
  //////////////////////////////////////////////////////////////////////////////

  /** The code word of symbol `s`. */
  method PutSymbol(w: Writer, codes: array<HCode>, s: nat, ghost lengths: seq<nat>)
    requires w.Valid() && codes != w.buf as object && CodesOf(lengths, codes[..]) && Coded(lengths, s)
    modifies w`pos, w`acc, w`nb, w.buf
    ensures w.Valid() && w.Written() == old(w.Written()) + WordOf(lengths, s)
    ensures w.buf[..w.start] == old(w.buf[..w.start])
  {
    hide Code, Word, ToBits, Val;
    var c := codes[s];
    assert c == codes[..][s];
    ValBound(WordOf(lengths, s));
    ToBitsVal(WordOf(lengths, s));
    w.Put(c.code, c.len);
  }

  /** The extra bits of a length. */
  method PutLength(w: Writer, len: nat)
    requires w.Valid() && MIN_MATCH <= len <= MAX_MATCH
    modifies w`pos, w`acc, w`nb, w.buf
    ensures w.Valid() && w.Written() == old(w.Written()) + LenBits(len)
    ensures w.buf[..w.start] == old(w.buf[..w.start])
  {
    hide ToBits, LenBase, LenExtra, LenCode;
    LenFits(len);
    var c := LenCode(len, LEN_CODES - 1);
    if LenExtra(c) > 0 {
      w.Put(len - LenBase(c), LenExtra(c));
    } else {
      NoBits(len - LenBase(c));
    }
  }

  method PutDistance(w: Writer, dist: nat)
    requires w.Valid() && 1 <= dist <= MAX_DISTANCE
    modifies w`pos, w`acc, w`nb, w.buf
    ensures w.Valid() && w.Written() == old(w.Written()) + DistBits(dist)
    ensures w.buf[..w.start] == old(w.buf[..w.start])
  {
    hide ToBits, DistBase, DistExtra, DistCode;
    DistFits(dist);
    var c := DistCode(dist, DIST_CODES - 1);
    if DistExtra(c) > 0 {
      w.Put(dist - DistBase(c), DistExtra(c));
    } else {
      NoBits(dist - DistBase(c));
    }
  }

  /** One piece: a literal, or a length and a distance with their extra bits. */
  method PutPiece(w: Writer, p: Piece, llCodes: array<HCode>, dCodes: array<HCode>, ghost ll: seq<nat>, ghost d: seq<nat>)
    requires w.Valid() && llCodes != w.buf as object && dCodes != w.buf as object
    requires CodesOf(ll, llCodes[..]) && CodesOf(d, dCodes[..]) && Codable(ll, d, p)
    modifies w`pos, w`acc, w`nb, w.buf
    ensures w.Valid() && w.Written() == old(w.Written()) + PieceBits(ll, d, p)
    ensures w.buf[..w.start] == old(w.buf[..w.start])
  {
    hide WordOf, LenBits, DistBits, LenCode, DistCode, CodesOf, Writer.Valid, Writer.Written;
    ghost var was := w.Written();
    PutSymbol(w, llCodes, LitLen(p), ll);
    if p.Match? {
      PutLength(w, p.len);
      PutSymbol(w, dCodes, Dist(p), d);
      PutDistance(w, p.dist);
      Nested4(was, WordOf(ll, LitLen(p)), LenBits(p.len), WordOf(d, Dist(p)), DistBits(p.dist));
    }
  }

  lemma NoBits(v: nat)
    ensures ToBits(v, 0) == []
  {
  }

  lemma Nested4<T>(a: seq<T>, b: seq<T>, c: seq<T>, d: seq<T>, e: seq<T>)
    ensures a + b + c + d + e == a + (b + (c + (d + e)))
  {
    AppendAssociative(a + b + c, d, e);
    AppendAssociative(a + b, c, d + e);
    AppendAssociative(a, b, c + (d + e));
  }

  /** All pieces and the end of the block, into `dst` from `op` on. */
  method PutStream(ps: seq<Piece>, llCodes: array<HCode>, dCodes: array<HCode>, dst: array<Byte>, op: nat,
                   ghost ll: seq<nat>, ghost d: seq<nat>) returns (end: nat)
    requires op <= dst.Length && llCodes != dst as object && dCodes != dst as object
    requires CodesOf(ll, llCodes[..]) && CodesOf(d, dCodes[..]) && AllCodable(ll, d, ps)
    modifies dst
    ensures op <= end <= dst.Length && dst[..op] == old(dst[..op])
    ensures var bits := PiecesBits(ll, d, ps) + WordOf(ll, END_OF_BLOCK);
            if op + (|bits| + 7) / 8 <= dst.Length then end == op + (|bits| + 7) / 8 && bits <= ByteBits(dst[op..end])
            else end == dst.Length
  {
    hide WordOf, PieceBits, PiecesBits, CodesOf, Codable, ByteBits;
    var w := new Writer(dst, op);
    NoPieces(ll, d);
    for i := 0 to |ps|
      invariant w.Valid() && w.buf == dst && w.start == op && fresh(w)
      invariant w.Written() == PiecesBits(ll, d, ps[..i]) && dst[..op] == old(dst[..op])
      invariant CodesOf(ll, llCodes[..]) && CodesOf(d, dCodes[..])
    {
      PiecesNext(ll, d, ps, i);
      PutPiece(w, ps[i], llCodes, dCodes, ll, d);
    }
    assert ps[..|ps|] == ps;
    PutSymbol(w, llCodes, END_OF_BLOCK, ll);
    ghost var bits := w.Written();
    w.Flush();
    end := w.pos;
  }

  lemma PiecesNext(ll: seq<nat>, d: seq<nat>, ps: seq<Piece>, i: nat)
    requires i < |ps| && AllCodable(ll, d, ps)
    ensures PiecesBits(ll, d, ps[..i + 1]) == PiecesBits(ll, d, ps[..i]) + PieceBits(ll, d, ps[i])
  {
    hide PieceBits, Codable;
    assert ps[..i + 1][..i] == ps[..i];
  }

  //////////////////////////////////////////////////////////////////////////////
  // Compressing
  //////////////////////////////////////////////////////////////////////////////

  const CL_BUFFER: nat := 2048

  /** One table of code lengths. The run-length coding cannot fail, so the fallback of a byte for each
      length is never written. */
  method PutTable(lens: seq<nat>, dst: array<Byte>, op: nat) returns (ok: bool, end: nat, cl: seq<Byte>)
    requires op <= dst.Length && 0 < |lens| <= CL_BUFFER && forall i :: 0 <= i < |lens| ==> lens[i] <= MAX_CODE_LEN
    modifies dst
    ensures |cl| <= |lens| && Expand(cl, 0, [], 0, |lens|) == Lengths(lens, |cl|)
    ensures ok ==> op <= end <= dst.Length && dst[..end] == old(dst[..op]) + TableBytes(cl)
    ensures if ok then end == op + 2 + |cl| else dst.Length < op + 2 + |cl|
  {
    hide Expand, LeBytes;
    cl := ClEncode(lens, CL_BUFFER);
    if op + 2 + |cl| > dst.Length {
      return false, op, cl;
    }
    end := WriteBytes(dst, op, TableBytes(cl));
    ok := true;
  }

  /** No header is longer. */
  const HEADER_MOST: nat := 5 + 4 + (2 + MAX_LITLEN) + (2 + DIST_CODES)

  /** The header. */
  method PutHeader(rle: bool, orig: nat, ll: seq<nat>, d: seq<nat>, dst: array<Byte>)
    returns (ok: bool, op: nat, llCl: seq<Byte>, dCl: seq<Byte>)
    requires 0 < |ll| <= MAX_LITLEN && 0 < |d| <= DIST_CODES
    requires forall i :: 0 <= i < |ll| ==> ll[i] <= MAX_CODE_LEN
    requires forall i :: 0 <= i < |d| ==> d[i] <= MAX_CODE_LEN
    modifies dst
    ensures op <= dst.Length && |llCl| <= |ll| && |dCl| <= |d|
    ensures ok ==> Expand(llCl, 0, [], 0, |ll|) == Lengths(ll, |llCl|) && Expand(dCl, 0, [], 0, |d|) == Lengths(d, |dCl|)
    ensures ok ==> dst[..op] == HeaderBytes(rle, orig, |ll|, |d|, llCl, dCl)
    ensures HEADER_MOST <= dst.Length ==> ok
    ensures ok == (|HeaderBytes(rle, orig, |ll|, |d|, llCl, dCl)| <= dst.Length)
  {
    hide Expand, LeBytes;
    op, llCl, dCl := 0, [], [];
    if |Start(rle, orig)| > dst.Length { return false, op, llCl, dCl; }
    op := WriteBytes(dst, 0, Start(rle, orig));
    if op + 4 > dst.Length { return false, op, llCl, dCl; }
    op := WriteBytes(dst, op, LeBytes(|ll|, 2));
    op := WriteBytes(dst, op, LeBytes(|d|, 2));
    ghost var front := dst[..op];
    var end;
    ok, end, llCl := PutTable(ll, dst, op);
    if !ok { return false, 0, llCl, []; }
    op := end;
    ok, end, dCl := PutTable(d, dst, op);
    if !ok { return false, 0, llCl, dCl; }
    op := end;
  }

  function ZeroCount(s: seq<Byte>): nat {
    if s == [] then 0 else ZeroCount(s[..|s| - 1]) + (if s[|s| - 1] == 0 then 1 else 0)
  }

  /** Whether zeros are run-length coded: if they are more than an eighth of the source, and that saves a tenth. */
  predicate Zeroed(src: seq<Byte>) {
    ZeroCount(src) > |src| / 8 && 0 < Packed(src, 0) < |src| * 9 / 10
  }

  /** What is parsed. */
  ghost predicate Input(src: seq<Byte>, rle: bool, input: seq<Byte>) {
    && rle == Zeroed(src)
    && if rle then |input| == Packed(src, 0) && forall cap: nat :: cap >= |src| ==> Decoded(input, cap) == src
       else input == src
  }

  lemma {:induction false} ZerosCounted(s: seq<Byte>)
    ensures ZeroCount(s) > 0 ==> 0 in s
    decreases |s|
  {
    if s != [] {
      ZerosCounted(s[..|s| - 1]);
    }
  }

  /** Run-length coding of zeros, kept if it saves a tenth. */
  method Preprocess(src: seq<Byte>) returns (rle: bool, input: seq<Byte>)
    requires src != []
    ensures input != [] && |input| <= |src| && (!rle ==> input == src)
    ensures rle ==> 0 in src && forall cap: nat :: cap >= |src| ==> Decoded(input, cap) == src
    ensures Input(src, rle, input)
  {
    hide Decoded, Packed;
    var zeros := 0;
    assert src[..0] == [];
    for i := 0 to |src|
      invariant zeros == ZeroCount(src[..i])
    {
      assert src[..i + 1][..i] == src[..i];
      if src[i] == 0 {
        zeros := zeros + 1;
      }
    }
    assert src[..|src|] == src;
    ZerosCounted(src);
    if zeros > |src| / 8 {
      var buf := new Byte[|src|](_ => 0);
      var rs := RleEncode(src, buf);
      if rs > 0 && rs < |src| * 9 / 10 {
        return true, buf[..rs];
      }
    }
    rle, input := false, src;
  }

  /** The code lengths in a table of codes. */
  method LensOf(codes: array<HCode>, ghost lengths: seq<nat>) returns (lens: seq<nat>)
    requires CodesOf(lengths, codes[..])
    ensures lens == lengths
  {
    hide WordOf, Val;
    lens := [];
    assert |codes[..]| == codes.Length;
    for i := 0 to codes.Length
      invariant |lens| == i && forall s :: 0 <= s < i ==> lens[s] == lengths[s]
    {
      assert codes[i] == codes[..][i];
      lens := lens + [codes[i].len];
    }
  }

  /** How a source is compressed: what is parsed, the looks of the parser and the pieces they make, the two codes, and
      the coded tables of their lengths. */
  datatype Plan = Plan(rle: bool, input: seq<Byte>, looks: seq<LazyLog.Look>, ps: seq<Piece>, ll: seq<nat>, d: seq<nat>,
                       llCl: seq<Byte>, dCl: seq<Byte>)

  ghost predicate Planned(src: seq<Byte>, level: int, p: Plan) {
    && Input(src, p.rle, p.input)
    && LazyLog.Log(p.input, FinderOf(p.input, ConfigFor(level)), p.looks) && Makes(p.input, p.looks, p.ps)
    && Meaningful([], p.ps) && Meaning([], p.ps) == p.input
    && CodesFor(p.ps, p.ll, p.d) && AllCodable(p.ll, p.d, p.ps)
  }

  function HeaderOf(src: seq<Byte>, p: Plan): seq<Byte> {
    HeaderBytes(p.rle, |src|, |p.ll|, |p.d|, p.llCl, p.dCl)
  }

  /** The size of the whole stream: the header, and the bits of the pieces and of the end of block in whole bytes. */
  function SizeOf(src: seq<Byte>, p: Plan): nat
    requires AllCodable(p.ll, p.d, p.ps)
  {
    |HeaderOf(src, p)| + (|PiecesBits(p.ll, p.d, p.ps) + WordOf(p.ll, END_OF_BLOCK)| + 7) / 8
  }

  /** `zupt_lzh_compress`: the size of the stream, or of the buffer where that is smaller; 0 when the source is empty, when
      there is no room for the header, or when nothing is gained. The parse is that of the looks, and the codes are
      Huffman's. What it returns decompresses to the source in any buffer that can hold it, unless the stream was cut
      off: that needs a buffer that is full and smaller than the source, and in such a buffer, if it has room for a
      header, the result is never 0. */
  method LzhCompress(src: seq<Byte>, dst: array<Byte>, level: int) returns (n: nat, ghost p: Plan)
    modifies dst
    ensures n <= dst.Length && (n > 0 ==> n < |src|)
    ensures src == [] ==> n == 0
    ensures src != [] ==>
              && Planned(src, level, p)
              && var end := if SizeOf(src, p) <= dst.Length then SizeOf(src, p) else dst.Length;
                 n == if |HeaderOf(src, p)| <= dst.Length && end < |src| then end else 0
    ensures HEADER_MOST <= dst.Length ==> |HeaderOf(src, p)| <= dst.Length
    ensures HEADER_MOST <= dst.Length < |src| ==> n > 0
    ensures n > 0 ==> 0 in src || dst[0] == 0
    ensures n > 0 && SizeOf(src, p) <= dst.Length ==> forall dlen: nat :: dlen >= |src| ==> Decompress(dst[..n], dlen) == src
  {
    hide Decompress, Decoded, CodesOf, CodeFor, Decodable, AllCodable, Meaningful, Meaning, Expand, HeaderBytes, PiecesBits, WordOf, ByteBits,
      LitLenUses, DistUses, Input, Zeroed, LazyLog.Log, Makes, CodesFor, FinderOf;
    p := Plan(false, [], [], [], [], [], [], []);
    if |src| == 0 {
      HeaderSmall(p.rle, |src|, p.ll, p.d, p.llCl, p.dCl);
      return 0, p;
    }
    var rle, input := Preprocess(src);
    var ps;
    ghost var looks;
    ps, looks := Parse(input, ConfigFor(level));
    var llCodes, dCodes;
    ghost var ll0, d0;
    llCodes, dCodes, ll0, d0 := BuildCodes(ps);
    var ll := LensOf(llCodes, ll0);
    var d := LensOf(dCodes, d0);
    DecodableSmall(ll);
    DecodableSmall(d);
    var ok, op, llCl, dCl := PutHeader(rle, |src|, ll, d, dst);
    p := Plan(rle, input, looks, ps, ll, d, llCl, dCl);
    if !ok {
      return 0, p;
    }
    ghost var header := dst[..op];
    FirstByte(rle, |src|, |ll|, |d|, llCl, dCl);
    assert dst[0] == dst[..op][0];
    var end := PutStream(ps, llCodes, dCodes, dst, op, ll, d);
    n := if end < |src| then end else 0;
    if SizeOf(src, p) <= dst.Length {
      assert dst[..end] == header + dst[op..end];
      forall dlen: nat | dlen >= |src|
        ensures Decompress(dst[..end], dlen) == src
      {
        InputBack(src, rle, input, dlen);
        FrameRoundTrip(rle, |src|, ll, d, llCl, dCl, dst[op..end], ps, dlen);
      }
    }
  }

  lemma InputBack(src: seq<Byte>, rle: bool, input: seq<Byte>, dlen: nat)
    requires Input(src, rle, input) && dlen >= |src|
    ensures if rle then Decoded(input, dlen) == src else input == src
  {
    hide Zeroed, Decoded;
  }

  lemma HeaderSmall(rle: bool, orig: nat, ll: seq<nat>, d: seq<nat>, llCl: seq<Byte>, dCl: seq<Byte>)
    requires |llCl| <= MAX_LITLEN && |dCl| <= DIST_CODES
    ensures |HeaderBytes(rle, orig, |ll|, |d|, llCl, dCl)| <= HEADER_MOST
  {
  }

  lemma FirstByte(rle: bool, orig: nat, llCnt: nat, dCnt: nat, llCl: seq<Byte>, dCl: seq<Byte>)
    ensures var h := HeaderBytes(rle, orig, llCnt, dCnt, llCl, dCl); |h| > 0 && (!rle ==> h[0] == 0)
  {
    hide LeBytes, TableBytes;
  }

  /** The codes of a parse. */
  method BuildCodes(ps: seq<Piece>)
    returns (llCodes: array<HCode>, dCodes: array<HCode>, ghost ll: seq<nat>, ghost d: seq<nat>)
    requires Meaningful([], ps)
    ensures fresh(llCodes) && fresh(dCodes) && CodesOf(ll, llCodes[..]) && CodesOf(d, dCodes[..])
    ensures 0 < |ll| <= MAX_LITLEN && 0 < |d| <= DIST_CODES && CodesFor(ps, ll, d)
    ensures Decodable(ll) && Decodable(d) && AllCodable(ll, d, ps)
  {
    hide CodesOf, CodeFor, Decodable, AllCodable, Meaningful, LitLenUses, DistUses, FromTree;
    var llFreq, dFreq := Tally(ps);
    var llCnt := SymbolCount(llFreq, 257, 257);
    var dCnt := SymbolCount(dFreq, 0, 1);
    llCodes, ll := HuffBuild(llFreq[..llCnt]);
    dCodes, d := HuffBuild(dFreq[..dCnt]);
    CodeForSize(llFreq[..llCnt], ll);
    CodeForSize(dFreq[..dCnt], d);
    assert llFreq[..llCnt] == LitLenFreq(ps, llCnt) && dFreq[..dCnt] == DistFreq(ps, dCnt);
    forall i | 0 <= i < |ps|
      ensures Sized(ps[i])
    {
      MeaningfulSized([], ps, i);
    }
    UsedCodable(ps, llFreq[..], dFreq[..], llCnt, dCnt, ll, d);
  }

  lemma CodeForSize(freq: seq<nat>, lengths: seq<nat>)
    requires CodeFor(freq, lengths)
    ensures |lengths| == |freq|
  {
  }

  lemma DecodableSmall(lengths: seq<nat>)
    requires Decodable(lengths)
    ensures forall i :: 0 <= i < |lengths| ==> lengths[i] <= MAX_CODE_LEN
  {
  }

  //////////////////////////////////////////////////////////////////////////////
  // Decompressing
  //////////////////////////////////////////////////////////////////////////////

  /** Reads a table of code lengths at `ip`. */
  method ReadTableAt(src: seq<Byte>, ip: nat, count: nat, size: nat) returns (ok: bool, lens: array<nat>, next: nat)
    requires ip <= |src| && count <= size
    ensures fresh(lens) && lens.Length == size && next <= |src|
    ensures var r := ReadTable(src[ip..], count, size);
            ok == r.Table? && (ok ==> lens[..] == r.lens && src[next..] == r.rest)
  {
    hide Expand, LittleEndian, ReadLens;
    lens := new nat[size](_ => 0);
    if ip + 2 > |src| {
      return false, lens, ip;
    }
    var hdr := LittleEndian(src[ip..], 0, 2);
    next := ip + 2;
    assert src[next..] == src[ip..][2..];
    if hdr >= 0x8000 {
      ok, next := ReadPacked(src, next, hdr - 0x8000, lens, count);
    } else {
      ok, next := ReadPlain(src, next, hdr, lens, count);
    }
  }

  method ReadPacked(src: seq<Byte>, ip: nat, n: nat, lens: array<nat>, count: nat) returns (ok: bool, next: nat)
    requires ip <= |src| && count <= lens.Length && forall i :: 0 <= i < lens.Length ==> lens[i] == 0
    modifies lens
    ensures next <= |src|
    ensures var r := ReadLens(n + 0x8000, src[ip..], count, lens.Length);
            ok == r.Table? && (ok ==> lens[..] == r.lens && src[next..] == r.rest)
  {
    hide Expand;
    next := ip;
    if ip + n > |src| {
      return false, next;
    }
    assert src[ip..][..n] == src[ip..ip + n] && src[ip..][n..] == src[ip + n..];
    var used;
    ok, used := ClDecode(src[ip..ip + n], lens, count);
    next := ip + n;
  }

  method ReadPlain(src: seq<Byte>, ip: nat, n: nat, lens: array<nat>, count: nat) returns (ok: bool, next: nat)
    requires ip <= |src| && n < 0x8000 && count <= lens.Length && forall i :: 0 <= i < lens.Length ==> lens[i] == 0
    modifies lens
    ensures next <= |src|
    ensures var r := ReadLens(n, src[ip..], count, lens.Length);
            ok == r.Table? && (ok ==> lens[..] == r.lens && src[next..] == r.rest)
  {
    next := ip;
    if n > lens.Length || ip + n > |src| {
      return false, next;
    }
    forall i | 0 <= i < n {
      lens[i] := src[ip + i];
    }
    next := ip + n;
    ghost var rest := src[ip..];
    assert src[next..] == rest[n..] && lens[..] == Padded(Numbers(rest[..n]), lens.Length);
    for k := 0 to n
      invariant forall i :: 0 <= i < k ==> rest[i] <= MAX_CODE_LEN
    {
      assert lens[k] == rest[k];
      if lens[k] > MAX_CODE_LEN {
        return false, next;
      }
    }
    ok := true;
  }

  /** The decoding loop, into the first `cap` bytes of `buf`. */
  method InflateInto(body: seq<Byte>, ll: seq<nat>, d: seq<nat>, buf: array<Byte>, cap: nat) returns (op: nat)
    requires cap <= buf.Length
    modifies buf
    ensures op <= cap && buf[..op] == Inflate(ll, d, ByteBits(body), 0, [], cap)
  {
    hide ByteBits, Inflate, Symbol, ReadPair, Copy, IsLut;
    var llLut := BuildLut(ll);
    var dLut := BuildLut(d);
    var r := new Reader(body);
    op := 0;
    assert buf[..0] == [];
    ghost var stream := ByteBits(body);
    while true
      invariant op <= cap && r.Valid() && r.src == body && fresh(r) && fresh(llLut) && fresh(dLut)
      invariant IsLut(llLut[..], ll) && IsLut(dLut[..], d)
      invariant Inflate(ll, d, stream, 0, [], cap) == Inflate(ll, d, stream, r.At(), buf[..op], cap)
      decreases cap - op
    {
      InflateStep(ll, d, stream, r.At(), buf[..op], cap);
      ghost var was := buf[..op];
      var e := HuffDec(r, llLut, ll);
      if e.NoSymbol? {
        break;
      }
      if e.sym < 256 {
        if op >= cap {
          break;
        }
        buf[op] := e.sym;
        assert buf[..op + 1] == was + [e.sym as Byte];
        op := op + 1;
      } else if e.sym == END_OF_BLOCK {
        break;
      } else {
        var ok, len, dist := TakePair(r, dLut, d, e.sym);
        if !ok || dist > op || op + len > cap {
          break;
        }
        Copies.CopyBytes(buf, op, dist, len);
        op := op + len;
      }
    }
  }

  lemma InflateStep(ll: seq<nat>, d: seq<nat>, stream: seq<bool>, t: nat, out: seq<Byte>, cap: nat)
    requires |out| <= cap
    ensures Inflate(ll, d, stream, t, out, cap) ==
            match Symbol(ll, stream, t)
            case NoSymbol => out
            case Entry(sym, len) =>
              if sym < 256 then
                if |out| >= cap then out else Inflate(ll, d, stream, t + len, out + [sym], cap)
              else if sym == END_OF_BLOCK then out
              else
                match ReadPair(d, stream, t + len, sym)
                case NoPair => out
                case Pair(length, dist, next) =>
                  if dist > |out| || |out| + length > cap then out
                  else Inflate(ll, d, stream, next, Copy(out, dist, length), cap)
  {
  }

  /** The rest of a match, behind its length symbol. */
  method TakePair(r: Reader, dLut: array<Entry>, ghost d: seq<nat>, sym: nat) returns (ok: bool, len: nat, dist: nat)
    requires r.Valid() && IsLut(dLut[..], d) && sym > END_OF_BLOCK
    modifies r
    ensures r.Valid()
    ensures var p := ReadPair(d, ByteBits(r.src), old(r.At()), sym);
            ok == p.Pair? && (ok ==> len == p.len && dist == p.dist && r.At() == p.next)
  {
    hide ByteBits, Symbol, IsLut, LenBase, LenExtra, DistBase, DistExtra, BitIo.Window, Val, Reader.Valid, Reader.At;
    var li := sym - 257;
    ok, len, dist := false, 0, 0;
    if li >= LEN_CODES {
      return;
    }
    var more := r.Get(LenExtra(li));
    len := LenBase(li) + more;
    var e := HuffDec(r, dLut, d);
    if e.NoSymbol? || e.sym >= DIST_CODES {
      return;
    }
    var far := r.Get(DistExtra(e.sym));
    ok, dist := true, DistBase(e.sym) + far;
  }

  /** `zupt_lzh_decompress` into the first `dlen` bytes of `dst`. */
  method LzhDecompress(src: seq<Byte>, dst: array<Byte>, dlen: nat) returns (n: nat)
    requires dlen <= dst.Length
    modifies dst
    ensures n <= dlen && dst[..n] == Decompress(src, dlen)
  {
    hide Inflate, Decoded, LittleEndian, ReadTable, ByteBits;
    if |src| < 5 {
      return 0;
    }
    var rle := src[0] % 2 == 1;
    var ip := if rle then 5 else 1;
    if ip + 4 > |src| {
      return 0;
    }
    ghost var s := src[ip..];
    var llCnt, dCnt := LittleEndian(src[ip..], 0, 2), LittleEndian(src[ip..][2..], 0, 2);
    ip := ip + 4;
    assert src[ip..] == s[2..][2..];
    if llCnt > MAX_LITLEN || dCnt > DIST_CODES {
      return 0;
    }
    var ok, llLens, dLens;
    ok, llLens, ip := ReadTableAt(src, ip, llCnt, MAX_LITLEN);
    if !ok {
      return 0;
    }
    ok, dLens, ip := ReadTableAt(src, ip, dCnt, DIST_CODES);
    if !ok {
      return 0;
    }
    assert llLens[..llCnt] == llLens[..][..llCnt] && dLens[..dCnt] == dLens[..][..dCnt];
    if rle {
      var tmp := new Byte[dlen](_ => 0);
      var op := InflateInto(src[ip..], llLens[..llCnt], dLens[..dCnt], tmp, dlen);
      n := RleDecode(tmp[..op], dst, dlen);
    } else {
      n := InflateInto(src[ip..], llLens[..llCnt], dLens[..dCnt], dst, dlen);
    }
  }
}
