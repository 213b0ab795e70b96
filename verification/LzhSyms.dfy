/** The LZ77 symbols of src/zupt_lzh.c:42-78, 508-513, 711-726, 822-853 and their code words: lengths from 3
    to 4322 and distances from 1 to 2^20, each as a code and extra bits. Length codes 257 to 284 are those of
    section 3.2.5 of RFC 1951. */
module LzhSyms {
  import opened Arith
  import opened BitIo
  import opened Bits
  import opened Bytes
  import opened HuffCode
  import opened HuffLengths
  import opened Lz
  import opened LzhLut

  const MIN_MATCH: nat := 3
  const MAX_MATCH: nat := 4322
  const MAX_DISTANCE: nat := 0x10_0000
  const END_OF_BLOCK: nat := 256
  const LEN_CODES: nat := 36
  const DIST_CODES: nat := 40
  const MAX_LITLEN: nat := 293

  /** `LEN_BASE`. */
  function LenBase(c: nat): (v: nat)
    ensures v >= 3
  {
    if c == 0 then 3
    else if c == 1 then 4
    else if c == 2 then 5
    else if c == 3 then 6
    else if c == 4 then 7
    else if c == 5 then 8
    else if c == 6 then 9
    else if c == 7 then 10
    else if c == 8 then 11
    else if c == 9 then 13
    else if c == 10 then 15
    else if c == 11 then 17
    else if c == 12 then 19
    else if c == 13 then 23
    else if c == 14 then 27
    else if c == 15 then 31
    else if c == 16 then 35
    else if c == 17 then 43
    else if c == 18 then 51
    else if c == 19 then 59
    else if c == 20 then 67
    else if c == 21 then 83
    else if c == 22 then 99
    else if c == 23 then 115
    else if c == 24 then 131
    else if c == 25 then 163
    else if c == 26 then 195
    else if c == 27 then 227
    else if c == 28 then 258
    else if c == 29 then 259
    else if c == 30 then 291
    else if c == 31 then 355
    else if c == 32 then 483
    else if c == 33 then 739
    else if c == 34 then 1251
    else 2275
  }

  /** `LEN_EXTRA`. */
  function LenExtra(c: nat): (n: nat)
    ensures c < LEN_CODES ==> n <= 11
  {
    if c < 8 || c == 28 then 0 else if c < 28 then (c - 4) / 4 else c - 24
  }

  /** `DIST_BASE`. */
  function DistBase(c: nat): (v: nat)
    ensures v >= 1
  {
    if c == 0 then 1
    else if c == 1 then 2
    else if c == 2 then 3
    else if c == 3 then 4
    else if c == 4 then 5
    else if c == 5 then 7
    else if c == 6 then 9
    else if c == 7 then 13
    else if c == 8 then 17
    else if c == 9 then 25
    else if c == 10 then 33
    else if c == 11 then 49
    else if c == 12 then 65
    else if c == 13 then 97
    else if c == 14 then 129
    else if c == 15 then 193
    else if c == 16 then 257
    else if c == 17 then 385
    else if c == 18 then 513
    else if c == 19 then 769
    else if c == 20 then 1025
    else if c == 21 then 1537
    else if c == 22 then 2049
    else if c == 23 then 3073
    else if c == 24 then 4097
    else if c == 25 then 6145
    else if c == 26 then 8193
    else if c == 27 then 12289
    else if c == 28 then 16385
    else if c == 29 then 24577
    else if c == 30 then 32769
    else if c == 31 then 49153
    else if c == 32 then 65537
    else if c == 33 then 98305
    else if c == 34 then 131073
    else if c == 35 then 196609
    else if c == 36 then 262145
    else if c == 37 then 393217
    else if c == 38 then 524289
    else 786433
  }

  /** `DIST_EXTRA`. */
  function DistExtra(c: nat): (n: nat)
    ensures c < DIST_CODES ==> n <= 18
  {
    if c < 2 then 0 else c / 2 - 1
  }

  /** Each code with its extra bits reaches at least up to the next code. */
  lemma LenReach(c: nat)
    requires c < LEN_CODES
    ensures (if c + 1 < LEN_CODES then LenBase(c + 1) else MAX_MATCH + 1) <= LenBase(c) + Pow2(LenExtra(c))
  {
    hide Pow2;
    Widths();
    if c < 8 {
    } else if c < 16 {
    } else if c < 28 {
    } else {
    }
  }

  lemma DistReach(c: nat)
    requires c < DIST_CODES
    ensures (if c + 1 < DIST_CODES then DistBase(c + 1) else MAX_DISTANCE + 1) <= DistBase(c) + Pow2(DistExtra(c))
  {
    hide Pow2;
    Widths();
    if c < 10 {
    } else if c < 20 {
    } else if c < 30 {
    } else {
    }
  }

  lemma Widths()
    ensures Pow2(0) == 1 && Pow2(1) == 2 && Pow2(2) == 4 && Pow2(3) == 8 && Pow2(4) == 16 && Pow2(5) == 32
    ensures Pow2(6) == 64 && Pow2(7) == 128 && Pow2(8) == 256 && Pow2(9) == 512 && Pow2(10) == 1024
    ensures Pow2(11) == 2048 && Pow2(12) == 4096 && Pow2(13) == 8192 && Pow2(14) == 16384 && Pow2(15) == 32768
    ensures Pow2(16) == 65536 && Pow2(17) == 131072 && Pow2(18) == 262144
  {
    assert Pow2(4) == 16;
    assert Pow2(8) == 16 * Pow2(4);
    assert Pow2(12) == 16 * Pow2(8);
    assert Pow2(16) == 16 * Pow2(12);
  }

  /** `len_to_code`, less 257: the last code up to `c` whose base is not above `len`. */
  function LenCode(len: nat, c: nat): (r: nat)
    ensures r <= c && (len >= MIN_MATCH ==> LenBase(r) <= len) && (r < c ==> len < LenBase(r + 1))
  {
    if len >= LenBase(c) then c else if c == 0 then 0 else LenCode(len, c - 1)
  }

  /** `dist_to_code`. */
  function DistCode(d: nat, c: nat): (r: nat)
    ensures r <= c && (d >= 1 ==> DistBase(r) <= d) && (r < c ==> d < DistBase(r + 1))
  {
    if d >= DistBase(c) then c else if c == 0 then 0 else DistCode(d, c - 1)
  }

  /** A length's distance from its base fits its extra bits. */
  lemma LenFits(len: nat)
    requires MIN_MATCH <= len <= MAX_MATCH
    ensures var c := LenCode(len, LEN_CODES - 1);
            c < LEN_CODES && 0 <= len - LenBase(c) < Pow2(LenExtra(c))
  {
    hide LenBase;
    LenReach(LenCode(len, LEN_CODES - 1));
  }

  lemma DistFits(d: nat)
    requires 1 <= d <= MAX_DISTANCE
    ensures var c := DistCode(d, DIST_CODES - 1);
            c < DIST_CODES && 0 <= d - DistBase(c) < Pow2(DistExtra(c))
  {
    hide DistBase;
    DistReach(DistCode(d, DIST_CODES - 1));
  }

  //////////////////////////////////////////////////////////////////////////////
  // Pieces
  //////////////////////////////////////////////////////////////////////////////

  /** A literal byte, or a match. */
  datatype Piece = Lit(b: Byte) | Match(len: nat, dist: nat)

  predicate Sized(p: Piece) {
    p.Match? ==> MIN_MATCH <= p.len <= MAX_MATCH && 1 <= p.dist <= MAX_DISTANCE
  }

  function After(out: seq<Byte>, p: Piece): seq<Byte>
    requires p.Match? ==> 1 <= p.dist <= |out|
  {
    match p
    case Lit(b) => out + [b]
    case Match(len, dist) => Copy(out, dist, len)
  }

  /** What the pieces denote after `out`. */
  predicate Meaningful(out: seq<Byte>, ps: seq<Piece>)
    decreases |ps|
  {
    ps != [] ==> Sized(ps[0]) && (ps[0].Match? ==> ps[0].dist <= |out|) && Meaningful(After(out, ps[0]), ps[1..])
  }

  function Meaning(out: seq<Byte>, ps: seq<Piece>): (r: seq<Byte>)
    requires Meaningful(out, ps)
    ensures out <= r
    decreases |ps|
  {
    if ps == [] then out else Meaning(After(out, ps[0]), ps[1..])
  }

  lemma {:induction false} MeaningAppend(out: seq<Byte>, ps: seq<Piece>, p: Piece)
    requires Meaningful(out, ps) && Sized(p) && (p.Match? ==> p.dist <= |Meaning(out, ps)|)
    ensures Meaningful(out, ps + [p]) && Meaning(out, ps + [p]) == After(Meaning(out, ps), p)
    decreases |ps|
  {
    hide Copy;
    if ps == [] {
      assert ps + [p] == [p];
      assert [p][1..] == [];
    } else {
      assert (ps + [p])[1..] == ps[1..] + [p];
      MeaningAppend(After(out, ps[0]), ps[1..], p);
    }
  }

  /** The literal-or-length symbol of a piece, and the distance symbol of a match. */
  function LitLen(p: Piece): nat {
    match p
    case Lit(b) => b
    case Match(len, _) => 257 + LenCode(len, LEN_CODES - 1)
  }

  function Dist(p: Piece): nat {
    match p
    case Lit(_) => 0
    case Match(_, dist) => DistCode(dist, DIST_CODES - 1)
  }

  /** Symbol `s` has a code word. */
  predicate Coded(lengths: seq<nat>, s: nat) {
    s < |lengths| && 0 < lengths[s] <= MAX_CODE_LEN
  }

  predicate Codable(ll: seq<nat>, d: seq<nat>, p: Piece) {
    Sized(p) && Coded(ll, LitLen(p)) && (p.Match? ==> Coded(d, Dist(p)))
  }

  /** The bits of a piece. */
  function PieceBits(ll: seq<nat>, d: seq<nat>, p: Piece): seq<bool>
    requires Codable(ll, d, p)
  {
    match p
    case Lit(b) => WordOf(ll, b)
    case Match(len, dist) =>
      WordOf(ll, LitLen(p)) + (LenBits(len) + (WordOf(d, Dist(p)) + DistBits(dist)))
  }

  function LenBits(len: nat): seq<bool>
    requires len >= MIN_MATCH
  {
    var c := LenCode(len, LEN_CODES - 1);
    ToBits(len - LenBase(c), LenExtra(c))
  }

  function DistBits(d: nat): seq<bool>
    requires d >= 1
  {
    var c := DistCode(d, DIST_CODES - 1);
    ToBits(d - DistBase(c), DistExtra(c))
  }

  ghost predicate AllCodable(ll: seq<nat>, d: seq<nat>, ps: seq<Piece>) {
    Coded(ll, END_OF_BLOCK) && forall i :: 0 <= i < |ps| ==> Codable(ll, d, ps[i])
  }

  /** The bits of pieces, one after another. */
  function PiecesBits(ll: seq<nat>, d: seq<nat>, ps: seq<Piece>): seq<bool>
    requires forall i :: 0 <= i < |ps| ==> Codable(ll, d, ps[i])
  {
    if ps == [] then [] else PiecesBits(ll, d, ps[..|ps| - 1]) + PieceBits(ll, d, ps[|ps| - 1])
  }

  lemma {:induction false} PiecesFront(ll: seq<nat>, d: seq<nat>, ps: seq<Piece>)
    requires ps != [] && forall i :: 0 <= i < |ps| ==> Codable(ll, d, ps[i])
    ensures PiecesBits(ll, d, ps) == PieceBits(ll, d, ps[0]) + PiecesBits(ll, d, ps[1..])
    decreases |ps|
  {
    hide PieceBits, Codable;
    var n := |ps| - 1;
    if n > 0 {
      PiecesFront(ll, d, ps[..n]);
      assert ps[..n][1..] == ps[1..][..n - 1];
      AppendAssociative(PieceBits(ll, d, ps[0]), PiecesBits(ll, d, ps[1..][..n - 1]), PieceBits(ll, d, ps[n]));
    }
  }

  //////////////////////////////////////////////////////////////////////////////
  // Decoding
  //////////////////////////////////////////////////////////////////////////////

  /** A match as the decoder reads it at bit `t`: a length symbol has been found, `t` is behind it. */
  datatype Pair = NoPair | Pair(len: nat, dist: nat, next: nat)

  ghost function ReadPair(d: seq<nat>, stream: seq<bool>, t: nat, sym: nat): (r: Pair)
    requires sym > END_OF_BLOCK
    ensures r.Pair? ==> r.len >= MIN_MATCH && r.dist >= 1
  {
    var li := sym - 257;
    if li >= LEN_CODES then NoPair
    else
      var len, t1 := LenBase(li) + Val(BitIo.Window(stream, t, LenExtra(li))), t + LenExtra(li);
      match Symbol(d, stream, t1)
      case NoSymbol => NoPair
      case Entry(ds, dl) =>
        if ds >= DIST_CODES then NoPair
        else Pair(len, DistBase(ds) + Val(BitIo.Window(stream, t1 + dl, DistExtra(ds))), t1 + dl + DistExtra(ds))
  }

  /** `zupt_lzh_decompress`'s loop at bit `t`: whatever it cannot take ends the output. */
  ghost function Inflate(ll: seq<nat>, d: seq<nat>, stream: seq<bool>, t: nat, out: seq<Byte>, cap: nat): (r: seq<Byte>)
    requires |out| <= cap
    ensures |r| <= cap
    decreases cap - |out|
  {
    match Symbol(ll, stream, t)
    case NoSymbol => out
    case Entry(sym, len) =>
      if sym < 256 then
        if |out| >= cap then out else Inflate(ll, d, stream, t + len, out + [sym], cap)
      else if sym == END_OF_BLOCK then out
      else
        match ReadPair(d, stream, t + len, sym)
        case NoPair => out
        case Pair(length, dist, next) =>
          if dist > |out| || |out| + length > cap then out
          else Inflate(ll, d, stream, next, Copy(out, dist, length), cap)
  }

  lemma NextCodeWord(lengths: seq<nat>, s: nat, stream: seq<bool>, t: nat, rest: seq<bool>)
    requires Decodable(lengths) && Coded(lengths, s) && Ahead(stream, t, WordOf(lengths, s) + rest)
    ensures Symbol(lengths, stream, t) == Entry(s, lengths[s]) && Ahead(stream, t + lengths[s], rest)
  {
    hide Kraft, WordOf;
    var bits := WordOf(lengths, s) + rest;
    AheadTake(stream, t, bits, lengths[s]);
    assert bits[..lengths[s]] == WordOf(lengths, s) && bits[lengths[s]..] == rest;
    WindowIsSlice(stream, t, lengths[s]);
    SymbolFound(lengths, s, stream, t);
  }

  lemma NextExtra(v: nat, n: nat, stream: seq<bool>, t: nat, rest: seq<bool>)
    requires v < Pow2(n) && Ahead(stream, t, ToBits(v, n) + rest)
    ensures Val(BitIo.Window(stream, t, n)) == v && Ahead(stream, t + n, rest)
  {
    hide ToBits, BitIo.Window, Pow2, Val;
    var bits := ToBits(v, n) + rest;
    AheadTake(stream, t, bits, n);
    assert bits[..n] == ToBits(v, n) && bits[n..] == rest;
    ValToBits(v, n);
  }

  /** A match is read back, and the stream is left behind it. */
  lemma PairInverse(ll: seq<nat>, d: seq<nat>, stream: seq<bool>, t: nat, p: Piece, rest: seq<bool>)
    requires Decodable(d) && Codable(ll, d, p) && p.Match?
    requires Ahead(stream, t, LenBits(p.len) + (WordOf(d, Dist(p)) + (DistBits(p.dist) + rest)))
    ensures ReadPair(d, stream, t, LitLen(p)).Pair?
    ensures var r := ReadPair(d, stream, t, LitLen(p));
            r.len == p.len && r.dist == p.dist && Ahead(stream, r.next, rest)
  {
    hide Kraft, WordOf, ToBits, BitIo.Window, Pow2, Val, LenBase, DistBase, LenExtra, DistExtra, Symbol, LenCode, DistCode, Ahead;
    var lc, dc := LenCode(p.len, LEN_CODES - 1), DistCode(p.dist, DIST_CODES - 1);
    LenFits(p.len);
    DistFits(p.dist);
    NextExtra(p.len - LenBase(lc), LenExtra(lc), stream, t, WordOf(d, dc) + (DistBits(p.dist) + rest));
    var t1 := t + LenExtra(lc);
    NextCodeWord(d, dc, stream, t1, DistBits(p.dist) + rest);
    NextExtra(p.dist - DistBase(dc), DistExtra(dc), stream, t1 + d[dc], rest);
  }

  /** Pieces whose bits lie ahead, up to the end of the block, are decoded to what they denote. */
  lemma {:induction false} InflateInverse(ll: seq<nat>, d: seq<nat>, stream: seq<bool>, t: nat, out: seq<Byte>, ps: seq<Piece>, cap: nat)
    requires Decodable(ll) && Decodable(d) && AllCodable(ll, d, ps)
    requires Meaningful(out, ps) && |Meaning(out, ps)| <= cap
    requires Ahead(stream, t, PiecesBits(ll, d, ps) + WordOf(ll, END_OF_BLOCK))
    ensures |out| <= cap && Inflate(ll, d, stream, t, out, cap) == Meaning(out, ps)
    decreases |ps|
  {
    hide Decodable, WordOf, Ahead, Symbol, PieceBits, PiecesBits, Copy, Codable, ReadPair;
    if ps == [] {
      NoPieces(ll, d);
      assert PiecesBits(ll, d, ps) + WordOf(ll, END_OF_BLOCK) == WordOf(ll, END_OF_BLOCK) + [];
      NextCodeWord(ll, END_OF_BLOCK, stream, t, []);
      InflateEnd(ll, d, stream, t, out, cap);
    } else {
      var p := ps[0];
      var rest := PiecesBits(ll, d, ps[1..]) + WordOf(ll, END_OF_BLOCK);
      PiecesFront(ll, d, ps);
      AppendAssociative(PieceBits(ll, d, p), PiecesBits(ll, d, ps[1..]), WordOf(ll, END_OF_BLOCK));
      var next := InflatePiece(ll, d, stream, t, out, p, rest, cap);
      InflateInverse(ll, d, stream, next, After(out, p), ps[1..], cap);
    }
  }

  lemma NoPieces(ll: seq<nat>, d: seq<nat>)
    ensures PiecesBits(ll, d, []) == []
  {
  }

  lemma InflateEnd(ll: seq<nat>, d: seq<nat>, stream: seq<bool>, t: nat, out: seq<Byte>, cap: nat)
    requires |out| <= cap && Coded(ll, END_OF_BLOCK) && Symbol(ll, stream, t) == Entry(END_OF_BLOCK, ll[END_OF_BLOCK])
    ensures Inflate(ll, d, stream, t, out, cap) == out
  {
  }

  lemma LiteralMove(ll: seq<nat>, d: seq<nat>, stream: seq<bool>, t: nat, out: seq<Byte>, b: Byte, cap: nat)
    requires Coded(ll, b) && |out| < cap && Symbol(ll, stream, t) == Entry(b, ll[b])
    ensures Inflate(ll, d, stream, t, out, cap) == Inflate(ll, d, stream, t + ll[b], out + [b], cap)
  {
  }

  lemma MatchMove(ll: seq<nat>, d: seq<nat>, stream: seq<bool>, t: nat, out: seq<Byte>, s: nat, cap: nat)
    requires s > END_OF_BLOCK && Coded(ll, s) && Symbol(ll, stream, t) == Entry(s, ll[s])
    requires var r := ReadPair(d, stream, t + ll[s], s);
             r.Pair? && r.dist <= |out| && |out| + r.len <= cap
    ensures var r := ReadPair(d, stream, t + ll[s], s);
            Inflate(ll, d, stream, t, out, cap) == Inflate(ll, d, stream, r.next, Copy(out, r.dist, r.len), cap)
  {
    hide ReadPair, Copy;
  }

  lemma MatchBits(ll: seq<nat>, d: seq<nat>, p: Piece, rest: seq<bool>)
    requires Codable(ll, d, p) && p.Match?
    ensures PieceBits(ll, d, p) + rest ==
            WordOf(ll, LitLen(p)) + (LenBits(p.len) + (WordOf(d, Dist(p)) + (DistBits(p.dist) + rest)))
  {
    hide WordOf, LenBits, DistBits;
    AppendAssociative(WordOf(ll, LitLen(p)), LenBits(p.len) + (WordOf(d, Dist(p)) + DistBits(p.dist)), rest);
    AppendAssociative(LenBits(p.len), WordOf(d, Dist(p)) + DistBits(p.dist), rest);
    AppendAssociative(WordOf(d, Dist(p)), DistBits(p.dist), rest);
  }

  /** The decoder's move at one piece. */
  lemma InflatePiece(ll: seq<nat>, d: seq<nat>, stream: seq<bool>, t: nat, out: seq<Byte>, p: Piece, rest: seq<bool>, cap: nat)
    returns (next: nat)
    requires Decodable(ll) && Decodable(d) && Codable(ll, d, p) && (p.Match? ==> p.dist <= |out|)
    requires |After(out, p)| <= cap && Ahead(stream, t, PieceBits(ll, d, p) + rest)
    ensures |out| <= cap && Ahead(stream, next, rest)
    ensures Inflate(ll, d, stream, t, out, cap) == Inflate(ll, d, stream, next, After(out, p), cap)
  {
    hide Decodable, WordOf, Ahead, Symbol, Copy, ReadPair, LenBits, DistBits, Inflate, LenCode, DistCode;
    var s := LitLen(p);
    match p {
      case Lit(b) =>
        NextCodeWord(ll, s, stream, t, rest);
        LiteralMove(ll, d, stream, t, out, b, cap);
        next := t + ll[s];
      case Match(len, dist) =>
        MatchBits(ll, d, p, rest);
        NextCodeWord(ll, s, stream, t, LenBits(len) + (WordOf(d, Dist(p)) + (DistBits(dist) + rest)));
        PairInverse(ll, d, stream, t + ll[s], p, rest);
        MatchMove(ll, d, stream, t, out, s, cap);
        next := ReadPair(d, stream, t + ll[s], s).next;
    }
  }
}
