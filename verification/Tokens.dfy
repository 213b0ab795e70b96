/** Token emission (`emit_seq`, `write_varint`, src/vv_encoder.c) and its inverse, the token parser. */
module Tokens {
  import opened Arith
  import opened Bits
  import opened Bytes
  import opened Lz

  //////////////////////////////////////////////////////////////////////////////
  // The bytes of a token
  //////////////////////////////////////////////////////////////////////////////

  /** A length extension: 255 for each whole 255, then the remainder. */
  function Varint(v: nat): (r: seq<Byte>)
    ensures |r| == v / 255 + 1
  {
    if v >= 255 then [255] + Varint(v - 255) else [v]
  }

  function Nibble(v: nat): (r: nat)
    ensures r <= 15
  {
    if v >= 15 then 15 else v
  }

  function ExtensionBytes(v: nat): seq<Byte> {
    if v >= 15 then Varint(v - 15) else []
  }

  function LeBytes(v: nat, n: nat): (r: seq<Byte>)
    ensures |r| == n
  {
    if n == 0 then [] else [v % 256] + LeBytes(v / 256, n - 1)
  }

  /** The offset and the match length's extension. */
  function MatchBytes(s: Sequence, offBytes: nat, minMatch: nat): seq<Byte> {
    if s.matchLen < minMatch || s.matchLen == 0 then []
    else LeBytes(s.offset, offBytes) + ExtensionBytes(s.matchLen - minMatch)
  }

  function Lead(s: Sequence, minMatch: nat): Byte {
    16 * Nibble(|s.lits|) + (if s.matchLen < minMatch then 0 else Nibble(s.matchLen - minMatch))
  }

  function TokenBytes(s: Sequence, offBytes: nat, minMatch: nat): seq<Byte> {
    [Lead(s, minMatch)] + ExtensionBytes(|s.lits|) + s.lits + MatchBytes(s, offBytes, minMatch)
  }

  function TokenStream(seqs: seq<Sequence>, offBytes: nat, minMatch: nat): seq<Byte> {
    if seqs == [] then [] else TokenBytes(seqs[0], offBytes, minMatch) + TokenStream(seqs[1..], offBytes, minMatch)
  }

  lemma NoTokens(offBytes: nat, minMatch: nat)
    ensures TokenStream([], offBytes, minMatch) == []
  {
  }

  lemma {:induction false} StreamAppend(a: seq<Sequence>, one: Sequence, offBytes: nat, minMatch: nat)
    ensures TokenStream(a + [one], offBytes, minMatch) ==
            TokenStream(a, offBytes, minMatch) + TokenBytes(one, offBytes, minMatch)
  {
    hide TokenBytes;
    if a == [] {
      assert a + [one] == [one];
    } else {
      assert (a + [one])[1..] == a[1..] + [one];
      StreamAppend(a[1..], one, offBytes, minMatch);
    }
  }

  /** What the parser checks room for before writing a token: `needed`. */
  function NeededMatch(ll: nat, ml: nat): nat {
    NeededRun(ll) + 2 + (ml / 255 + 2)
  }

  function NeededRun(ll: nat): nat {
    1 + (if ll >= 15 then ll / 255 + 2 else 0) + ll
  }

  /** A token never takes more room than was checked for, with 2- or 3-byte offsets. */
  lemma TokenFits(s: Sequence, offBytes: nat, minMatch: nat)
    requires offBytes <= 3
    ensures s.matchLen >= minMatch > 0 ==> |TokenBytes(s, offBytes, minMatch)| <= NeededMatch(|s.lits|, s.matchLen)
    ensures s.matchLen == 0 < minMatch ==> |TokenBytes(s, offBytes, minMatch)| <= NeededRun(|s.lits|)
  {
  }

  /** Half again as much: what tokens for `n` bytes never exceed. */
  function Roomy(n: nat): nat {
    n + n / 2
  }

  lemma TokenRoomy(s: Sequence, offBytes: nat, minMatch: nat, op: nat, covered: nat)
    requires offBytes <= 3 && minMatch >= 3 && s.matchLen >= minMatch && op <= Roomy(covered)
    ensures var next := covered + |s.lits| + s.matchLen;
            && op + |TokenBytes(s, offBytes, minMatch)| <= Roomy(next)
            && op + NeededMatch(|s.lits|, s.matchLen) <= Roomy(next) + 2
  {
    var ll, ml := |s.lits|, s.matchLen;
    assert |TokenBytes(s, offBytes, minMatch)| == 1 + |ExtensionBytes(ll)| + ll + offBytes + |ExtensionBytes(ml - minMatch)|;
    assert covered / 2 + (ll + ml) / 2 <= (covered + ll + ml) / 2;
  }

  lemma RunRoomy(op: nat, covered: nat, n: nat)
    requires op <= Roomy(covered) && covered <= n
    ensures op + NeededRun(n - covered) <= Roomy(n) + 2
  {
    assert covered / 2 + (n - covered) / 2 <= n / 2;
  }

  lemma RoomyGrows(a: nat, b: nat)
    requires a <= b
    ensures Roomy(a) <= Roomy(b)
  {
  }

  //////////////////////////////////////////////////////////////////////////////
  // Parsing what was emitted
  //////////////////////////////////////////////////////////////////////////////

  /** `part` stands in `s` at `p`. */
  ghost predicate At(s: seq<Byte>, p: nat, part: seq<Byte>) {
    p + |part| <= |s| && s[p..p + |part|] == part
  }

  lemma AtSplit(s: seq<Byte>, p: nat, a: seq<Byte>, b: seq<Byte>)
    ensures At(s, p, a + b) <==> At(s, p, a) && At(s, p + |a|, b)
  {
    if At(s, p, a + b) {
      assert s[p..p + |a|] == s[p..p + |a + b|][..|a|];
      assert s[p + |a|..p + |a| + |b|] == s[p..p + |a + b|][|a|..];
    }
  }

  lemma AtHead(s: seq<Byte>, p: nat, x: Byte, rest: seq<Byte>)
    requires At(s, p, [x] + rest)
    ensures p < |s| && s[p] == x && At(s, p + 1, rest)
  {
    AtSplit(s, p, [x], rest);
    assert s[p..p + 1][0] == x;
  }

  lemma {:induction false} ReadVarint(s: seq<Byte>, p: nat, v: nat, strict: bool)
    requires At(s, p, Varint(v))
    ensures ReadExtension(s, p, strict) == Extension(v, p + |Varint(v)|)
    decreases v
  {
    hide At;
    if v >= 255 {
      AtHead(s, p, 255, Varint(v - 255));
      ReadVarint(s, p + 1, v - 255, strict);
    } else {
      assert Varint(v) == [v] + [];
      AtHead(s, p, v, []);
    }
  }

  lemma ReadNibble(s: seq<Byte>, p: nat, v: nat, strict: bool)
    requires p <= |s| && At(s, p, ExtensionBytes(v))
    ensures ReadLength(s, Nibble(v), p, strict) == Extension(v, p + |ExtensionBytes(v)|)
  {
    hide At, ReadExtension, Varint;
    if v >= 15 {
      ReadVarint(s, p, v - 15, strict);
    }
  }

  lemma {:induction false} ReadLe(s: seq<Byte>, p: nat, v: nat, n: nat)
    requires At(s, p, LeBytes(v, n)) && v < Pow2(8 * n)
    ensures p + n <= |s| && LittleEndian(s, p, n) == v
    decreases n
  {
    if n > 0 {
      AtHead(s, p, v % 256, LeBytes(v / 256, n - 1));
      assert Pow2(8 * n) == 256 * Pow2(8 * (n - 1)) by { Pow2Add(8, 8 * (n - 1)); }
      ReadLe(s, p + 1, v / 256, n - 1);
    }
  }

  /** A sequence a token can carry: a match of at least the minimum with an offset that fits. */
  ghost predicate Carries(s: Sequence, offBytes: nat, minMatch: nat) {
    s.matchLen >= minMatch > 0 && s.offset < Pow2(8 * offBytes)
  }

  lemma LeadNibbles(a: nat, b: nat)
    requires b <= 15
    ensures (16 * a + b) / 16 == a && (16 * a + b) % 16 == b
  {
  }

  lemma ReadFull(s: seq<Byte>, p: nat, one: Sequence, offBytes: nat, minMatch: nat, strict: bool)
    requires Carries(one, offBytes, minMatch) && offBytes > 0 && At(s, p, TokenBytes(one, offBytes, minMatch))
    ensures p < |s|
    ensures ReadToken(s, p, offBytes, minMatch, strict) ==
            FullToken(one.lits, one.offset, one.matchLen, p + |TokenBytes(one, offBytes, minMatch)|)
  {
    hide At, ReadLength, LittleEndian, LeBytes, ExtensionBytes, Nibble, Pow2;
    var ext, ml := ExtensionBytes(|one.lits|), one.matchLen - minMatch;
    var le, ext2 := LeBytes(one.offset, offBytes), ExtensionBytes(ml);
    assert TokenBytes(one, offBytes, minMatch) == [Lead(one, minMatch)] + (ext + (one.lits + (le + ext2)));
    AtHead(s, p, Lead(one, minMatch), ext + (one.lits + (le + ext2)));
    AtSplit(s, p + 1, ext, one.lits + (le + ext2));
    var p1 := p + 1 + |ext|;
    AtSplit(s, p1, one.lits, le + ext2);
    var p2 := p1 + |one.lits|;
    AtSplit(s, p2, le, ext2);
    LeadNibbles(Nibble(|one.lits|), Nibble(ml));
    ReadNibble(s, p + 1, |one.lits|, strict);
    ReadLe(s, p2, one.offset, offBytes);
    ReadNibble(s, p2 + offBytes, ml, strict);
    assert s[p1..p2] == one.lits by { AtMeans(s, p1, one.lits); }
  }

  lemma AtMeans(s: seq<Byte>, p: nat, part: seq<Byte>)
    requires At(s, p, part)
    ensures p + |part| <= |s| && s[p..p + |part|] == part
  {
  }

  lemma ReadLast(s: seq<Byte>, p: nat, lits: seq<Byte>, offBytes: nat, minMatch: nat, strict: bool)
    requires minMatch > 0 && At(s, p, TokenBytes(Sequence(lits, 0, 0), offBytes, minMatch))
    requires p + |TokenBytes(Sequence(lits, 0, 0), offBytes, minMatch)| == |s|
    ensures p < |s| && ReadToken(s, p, offBytes, minMatch, strict) == LastToken(lits)
  {
    hide At, ReadLength, ExtensionBytes, Nibble;
    var one, ext := Sequence(lits, 0, 0), ExtensionBytes(|lits|);
    assert TokenBytes(one, offBytes, minMatch) == [Lead(one, minMatch)] + (ext + lits);
    AtHead(s, p, Lead(one, minMatch), ext + lits);
    AtSplit(s, p + 1, ext, lits);
    LeadNibbles(Nibble(|lits|), 0);
    ReadNibble(s, p + 1, |lits|, strict);
    AtMeans(s, p + 1 + |ext|, lits);
  }

  /** Matches, then one closing literal run. */
  ghost predicate Emittable(seqs: seq<Sequence>, offBytes: nat, minMatch: nat) {
    && seqs != []
    && seqs[|seqs| - 1].matchLen == 0 && seqs[|seqs| - 1].offset == 0
    && forall i :: 0 <= i < |seqs| - 1 ==> Carries(seqs[i], offBytes, minMatch)
  }

  /** The parser reads back exactly the sequences that were emitted, in either grammar. */
  lemma {:induction false} ParseEmitted(s: seq<Byte>, p: nat, seqs: seq<Sequence>, offBytes: nat, minMatch: nat, strict: bool)
    requires Emittable(seqs, offBytes, minMatch) && offBytes > 0 && minMatch > 0
    requires At(s, p, TokenStream(seqs, offBytes, minMatch)) && p + |TokenStream(seqs, offBytes, minMatch)| == |s|
    ensures ParseTokens(s, p, offBytes, minMatch, strict) == Parsed(seqs)
    decreases |seqs|
  {
    hide At, TokenBytes, ReadToken, Carries;
    var one := seqs[0];
    AtSplit(s, p, TokenBytes(one, offBytes, minMatch), TokenStream(seqs[1..], offBytes, minMatch));
    if |seqs| == 1 {
      assert one == Sequence(one.lits, 0, 0);
      ReadLast(s, p, one.lits, offBytes, minMatch, strict);
    } else {
      ReadFull(s, p, one, offBytes, minMatch, strict);
      CarriesMatch(one, offBytes, minMatch);
      ParseEmitted(s, p + |TokenBytes(one, offBytes, minMatch)|, seqs[1..], offBytes, minMatch, strict);
    }
  }

  lemma CarriesMatch(one: Sequence, offBytes: nat, minMatch: nat)
    requires Carries(one, offBytes, minMatch)
    ensures one.matchLen > 0 && one == Sequence(one.lits, one.matchLen, one.offset)
  {
  }

  /** Emitted sequences that are valid after `out` decode, as a block, to what they denote. */
  lemma DecodeEmitted(seqs: seq<Sequence>, out: seq<Byte>, limit: nat, maxOffset: nat, offBytes: nat, minMatch: nat)
    requires Emittable(seqs, offBytes, minMatch) && offBytes > 0 && minMatch > 0
    requires Valid(out, seqs, maxOffset) && |Denote(out, seqs, maxOffset)| <= limit
    ensures |out| <= limit
    ensures DecodeTokens(TokenStream(seqs, offBytes, minMatch), 0, out, limit, maxOffset, offBytes, minMatch) ==
            BlockOk(Denote(out, seqs, maxOffset))
  {
    hide DecodeTokens, TokenStream, Valid, Emittable;
    var s := TokenStream(seqs, offBytes, minMatch);
    assert s[0..|s|] == s;
    ParseEmitted(s, 0, seqs, offBytes, minMatch, true);
    DecodeTokensDenotes(s, 0, out, limit, maxOffset, offBytes, minMatch);
  }

  //////////////////////////////////////////////////////////////////////////////
  // Writing
  //////////////////////////////////////////////////////////////////////////////

  method WriteByte(dst: array<Byte>, op: nat, b: Byte) returns (next: nat)
    requires op < dst.Length
    modifies dst
    ensures next == op + 1 && dst[..next] == old(dst[..op]) + [b]
  {
    dst[op] := b;
    next := op + 1;
  }

  method WriteVarint(dst: array<Byte>, op: nat, val: nat) returns (next: nat)
    requires op + |Varint(val)| <= dst.Length
    modifies dst
    ensures next == op + |Varint(val)| && dst[..next] == old(dst[..op]) + Varint(val)
  {
    var v := val;
    next := op;
    while v >= 255
      invariant op <= next && next + |Varint(v)| == op + |Varint(val)|
      invariant dst[..next] + Varint(v) == old(dst[..op]) + Varint(val)
    {
      ghost var done := dst[..next];
      assert done + Varint(v) == done + [255] + Varint(v - 255);
      next := WriteByte(dst, next, 255);
      v := v - 255;
    }
    next := WriteByte(dst, next, v);
  }

  method WriteBytes(dst: array<Byte>, op: nat, bytes: seq<Byte>) returns (next: nat)
    requires op + |bytes| <= dst.Length
    modifies dst
    ensures next == op + |bytes| && dst[..next] == old(dst[..op]) + bytes
  {
    next := op;
    for i := 0 to |bytes|
      invariant next == op + i && dst[..next] == old(dst[..op]) + bytes[..i]
    {
      next := WriteByte(dst, next, bytes[i]);
      assert bytes[..i + 1] == bytes[..i] + [bytes[i]];
    }
    assert bytes[..|bytes|] == bytes;
  }

  /** The pieces in the order they are written. */
  lemma TokenPieces(before: seq<Byte>, s: Sequence, offBytes: nat, minMatch: nat)
    requires s.matchLen == 0 < minMatch || s.matchLen >= minMatch > 0
    ensures before + TokenBytes(s, offBytes, minMatch) ==
            var head := before + [Lead(s, minMatch)] + ExtensionBytes(|s.lits|) + s.lits;
            if s.matchLen == 0 then head
            else head + LeBytes(s.offset, offBytes) + ExtensionBytes(s.matchLen - minMatch)
  {
    hide Lead, ExtensionBytes, LeBytes;
  }

  lemma LeBytesStep(v: nat, n: nat)
    requires 2 <= n <= 3
    ensures LeBytes(v, n) == if n == 2 then [v % 256, v / 256 % 256] else [v % 256, v / 256 % 256, v / 65536 % 256]
  {
    assert LeBytes(v / 65536, 1) == [v / 65536 % 256] + LeBytes(v / 65536 / 256, 0);
    assert LeBytes(v / 65536, 0) == [];
    assert LeBytes(v / 256, n - 1) == [v / 256 % 256] + LeBytes(v / 256 / 256, n - 2);
    assert LeBytes(v, n) == [v % 256] + LeBytes(v / 256, n - 1);
  }

  /** The offset, as two or three bytes. */
  method WriteOffset(dst: array<Byte>, op: nat, off: nat, offBytes: nat) returns (next: nat)
    requires 2 <= offBytes <= 3 && off < Pow2(8 * offBytes) && op + offBytes <= dst.Length
    modifies dst
    ensures next == op + offBytes && dst[..next] == old(dst[..op]) + LeBytes(off, offBytes)
  {
    LeBytesStep(off, offBytes);
    next := WriteByte(dst, op, off % 256);
    next := WriteByte(dst, next, off / 256 % 256);
    if offBytes == 3 {
      next := WriteByte(dst, next, off / 65536 % 256);
    }
  }

  method WriteExtension(dst: array<Byte>, op: nat, v: nat) returns (next: nat)
    requires op + |ExtensionBytes(v)| <= dst.Length
    modifies dst
    ensures next == op + |ExtensionBytes(v)| && dst[..next] == old(dst[..op]) + ExtensionBytes(v)
  {
    next := op;
    if v >= 15 {
      next := WriteVarint(dst, op, v - 15);
    }
  }

  method LeadByte(lits: seq<Byte>, ml: nat, off: nat, minMatch: nat) returns (b: Byte)
    requires ml == 0 < minMatch || ml >= minMatch > 0
    ensures b == Lead(Sequence(lits, ml, off), minMatch)
  {
    var llField := if |lits| >= 15 then 15 else |lits|;
    var mlField := if ml == 0 then 0 else if ml - minMatch >= 15 then 15 else ml - minMatch;
    b := llField * 16 + mlField;
  }

  /** One token, where there is room for it. */
  method EmitToken(dst: array<Byte>, op: nat, lits: seq<Byte>, ml: nat, off: nat, offBytes: nat, minMatch: nat) returns (next: nat)
    requires 2 <= offBytes <= 3 && minMatch > 0
    requires ml == 0 || Carries(Sequence(lits, ml, off), offBytes, minMatch)
    requires op + |TokenBytes(Sequence(lits, ml, off), offBytes, minMatch)| <= dst.Length
    modifies dst
    ensures next == op + |TokenBytes(Sequence(lits, ml, off), offBytes, minMatch)|
    ensures dst[..next] == old(dst[..op]) + TokenBytes(Sequence(lits, ml, off), offBytes, minMatch)
  {
    hide LeBytes, Pow2, TokenBytes, ExtensionBytes, Lead;
    ghost var one := Sequence(lits, ml, off);
    TokenPieces(dst[..op], one, offBytes, minMatch);
    var lead := LeadByte(lits, ml, off, minMatch);
    next := WriteByte(dst, op, lead);
    next := WriteExtension(dst, next, |lits|);
    next := WriteBytes(dst, next, lits);
    if ml > 0 {
      next := WriteOffset(dst, next, off, offBytes);
      next := WriteExtension(dst, next, ml - minMatch);
    }
  }

  /** `emit_seq`. */
  method EmitSeq(dst: array<Byte>, op: nat, lits: seq<Byte>, ml: nat, off: nat, offBytes: nat, minMatch: nat) returns (next: nat)
    requires 2 <= offBytes <= 3 && minMatch > 0
    requires ml == 0 || Carries(Sequence(lits, ml, off), offBytes, minMatch)
    requires op + (if ml == 0 then NeededRun(|lits|) else NeededMatch(|lits|, ml)) <= dst.Length
    modifies dst
    ensures next <= dst.Length && next <= op + (if ml == 0 then NeededRun(|lits|) else NeededMatch(|lits|, ml))
    ensures next == op + |TokenBytes(Sequence(lits, ml, off), offBytes, minMatch)|
    ensures dst[..next] == old(dst[..op]) + TokenBytes(Sequence(lits, ml, off), offBytes, minMatch)
  {
    hide TokenBytes, NeededRun, NeededMatch;
    TokenFits(Sequence(lits, ml, off), offBytes, minMatch);
    next := EmitToken(dst, op, lits, ml, off, offBytes, minMatch);
  }
}
