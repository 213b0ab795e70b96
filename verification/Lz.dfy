/** What LZ sequences and token streams denote. */
module Lz {
  import opened Bytes

  /** A literal run and the match after it; match length 0 stands for "no match". */
  datatype Sequence = Sequence(lits: seq<Byte>, matchLen: nat, offset: nat)

  /** Byte-by-byte match copy: each byte comes from `offset` places back in the output so far. */
  function Copy(out: seq<Byte>, offset: nat, len: nat): (r: seq<Byte>)
    requires 1 <= offset <= |out|
    ensures |r| == |out| + len && out <= r
    decreases len
  {
    if len == 0 then out else Copy(out + [out[|out| - offset]], offset, len - 1)
  }

  /** Every copied byte equals the byte `offset` places before it. */
  lemma {:induction false} CopyPeriod(out: seq<Byte>, offset: nat, len: nat, k: nat)
    requires 1 <= offset <= |out| && |out| <= k < |out| + len
    ensures Copy(out, offset, len)[k] == Copy(out, offset, len)[k - offset]
    decreases len
  {
    var next := out + [out[|out| - offset]];
    if k == |out| {
      assert next <= Copy(out, offset, len);
      assert Copy(out, offset, len)[k] == next[k];
      assert Copy(out, offset, len)[k - offset] == next[k - offset];
    } else {
      CopyPeriod(next, offset, len - 1, k);
    }
  }

  /** The period property determines the copy. */
  lemma {:induction false} CopyUnique(out: seq<Byte>, offset: nat, len: nat, r: seq<Byte>)
    requires 1 <= offset <= |out| && |r| == |out| + len && out <= r
    requires forall k :: |out| <= k < |r| ==> r[k] == r[k - offset]
    ensures r == Copy(out, offset, len)
    decreases len
  {
    if len > 0 {
      var next := out + [out[|out| - offset]];
      assert r[|out|] == r[|out| - offset];
      assert next <= r;
      CopyUnique(next, offset, len - 1, r);
    }
  }

  lemma {:induction false} CopyAppend(out: seq<Byte>, offset: nat, a: nat, b: nat)
    requires 1 <= offset <= |out|
    ensures Copy(out, offset, a + b) == Copy(Copy(out, offset, a), offset, b)
    decreases a
  {
    if a > 0 {
      CopyAppend(out + [out[|out| - offset]], offset, a - 1, b);
    }
  }

  /** Output after one sequence. */
  function Emit(out: seq<Byte>, s: Sequence): seq<Byte>
    requires s.matchLen > 0 ==> 1 <= s.offset <= |out| + |s.lits|
  {
    if s.matchLen == 0 then out + s.lits else Copy(out + s.lits, s.offset, s.matchLen)
  }

  /** Every match reaches back into the output before it, by at most `maxOffset`. */
  predicate Valid(out: seq<Byte>, seqs: seq<Sequence>, maxOffset: nat)
    decreases |seqs|
  {
    seqs != [] ==>
      && (seqs[0].matchLen > 0 ==> 1 <= seqs[0].offset <= |out| + |seqs[0].lits| && seqs[0].offset <= maxOffset)
      && Valid(Emit(out, seqs[0]), seqs[1..], maxOffset)
  }

  /** The output a list of sequences denotes, after history `out`. */
  function Denote(out: seq<Byte>, seqs: seq<Sequence>, maxOffset: nat): (r: seq<Byte>)
    requires Valid(out, seqs, maxOffset)
    ensures out <= r
    decreases |seqs|
  {
    if seqs == [] then out else Denote(Emit(out, seqs[0]), seqs[1..], maxOffset)
  }

  lemma {:induction false} DenoteAppend(out: seq<Byte>, a: seq<Sequence>, b: seq<Sequence>, maxOffset: nat)
    requires Valid(out, a, maxOffset)
    ensures Valid(out, a + b, maxOffset) <==> Valid(Denote(out, a, maxOffset), b, maxOffset)
    ensures Valid(out, a + b, maxOffset) ==>
              Denote(out, a + b, maxOffset) == Denote(Denote(out, a, maxOffset), b, maxOffset)
    decreases |a|
  {
    if a == [] {
      assert a + b == b;
    } else {
      assert (a + b)[1..] == a[1..] + b;
      DenoteAppend(Emit(out, a[0]), a[1..], b, maxOffset);
    }
  }

  /** Offsets take two bytes for windows up to 2^16, three above. */
  function OffBytes(wlog: nat): (n: nat)
    ensures 2 <= n <= 3
  {
    if wlog > 16 then 3 else 2
  }

  /** The last three distinct offsets, most recent first; 0 stands for none. */
  datatype Rep = Rep(r0: nat, r1: nat, r2: nat)

  const NO_REP: Rep := Rep(0, 0, 0)

  function PushRep(rep: Rep, offset: nat): Rep {
    if offset != rep.r0 && offset != 0 then Rep(offset, rep.r0, rep.r1) else rep
  }

  /** The offset history after a sequence. */
  function NextRep(rep: Rep, s: Sequence): Rep {
    if s.matchLen > 0 then PushRep(rep, s.offset) else rep
  }

  //////////////////////////////////////////////////////////////////////////////
  // Token streams
  //////////////////////////////////////////////////////////////////////////////

  datatype Extension = NoExtension | Extension(value: nat, next: nat)

  /** A length extension: bytes summed up to and including the first below 255. A stream that ends
      on a 255 is an error for the block decoder (`strict`), and the end of the extension for the
      sequence parser. */
  function ReadExtension(s: seq<Byte>, p: nat, strict: bool): (r: Extension)
    ensures r.Extension? ==> p < r.next <= |s|
    decreases |s| - p
  {
    if p >= |s| then NoExtension
    else if s[p] < 255 then Extension(s[p], p + 1)
    else if p + 1 >= |s| && !strict then Extension(255, p + 1)
    else
      match ReadExtension(s, p + 1, strict)
      case NoExtension => NoExtension
      case Extension(v, n) => Extension(255 + v, n)
  }

  /** A nibble of 15 is continued by an extension. */
  function ReadLength(s: seq<Byte>, nibble: nat, p: nat, strict: bool): (r: Extension)
    requires p <= |s|
    ensures r.Extension? ==> p <= r.next <= |s| && r.value >= nibble
  {
    if nibble != 15 then Extension(nibble, p)
    else
      match ReadExtension(s, p, strict)
      case NoExtension => NoExtension
      case Extension(v, n) => Extension(15 + v, n)
  }

  function LittleEndian(s: seq<Byte>, p: nat, n: nat): (v: nat)
    requires p + n <= |s|
    decreases n
  {
    if n == 0 then 0 else s[p] + 256 * LittleEndian(s, p + 1, n - 1)
  }

  lemma {:induction false} EqualValues(data: seq<Byte>, a: nat, b: nat, n: nat)
    requires a + n <= |data| && b + n <= |data| && data[a..a + n] == data[b..b + n]
    ensures LittleEndian(data, a, n) == LittleEndian(data, b, n)
    decreases n
  {
    if n > 0 {
      assert data[a] == data[a..a + n][0] == data[b..b + n][0] == data[b];
      assert data[a + 1..a + n] == data[a..a + n][1..] && data[b + 1..b + n] == data[b..b + n][1..];
      EqualValues(data, a + 1, b + 1, n - 1);
    }
  }

  /** One token: malformed, a final literal run, or literals and a match. */
  datatype Token = BadToken | LastToken(lits: seq<Byte>) | FullToken(lits: seq<Byte>, offset: nat, matchLen: nat, next: nat)

  function ReadToken(s: seq<Byte>, p: nat, offBytes: nat, minMatch: nat, strict: bool): (t: Token)
    requires p < |s|
    ensures t.FullToken? ==> p + 1 + offBytes + |t.lits| <= t.next <= |s| && t.matchLen >= minMatch
    ensures t.LastToken? ==> p + 1 + |t.lits| <= |s|
  {
    match ReadLength(s, s[p] / 16, p + 1, strict)
    case NoExtension => BadToken
    case Extension(ll, p1) =>
      if ll > |s| - p1 then BadToken
      else
        var lits, p2 := s[p1..p1 + ll], p1 + ll;
        if p2 == |s| then LastToken(lits)
        else if offBytes > |s| - p2 then BadToken
        else
          match ReadLength(s, s[p] % 16, p2 + offBytes, strict)
          case NoExtension => BadToken
          case Extension(ml, p3) => FullToken(lits, LittleEndian(s, p2, offBytes), ml + minMatch, p3)
  }

  datatype ParseResult = Malformed | Parsed(seqs: seq<Sequence>)

  /** The sequences of a token stream from position `p`. */
  function ParseTokens(s: seq<Byte>, p: nat, offBytes: nat, minMatch: nat, strict: bool): ParseResult
    decreases |s| - p
  {
    if p >= |s| then Parsed([])
    else
      match ReadToken(s, p, offBytes, minMatch, strict)
      case BadToken => Malformed
      case LastToken(lits) => Parsed([Sequence(lits, 0, 0)])
      case FullToken(lits, offset, matchLen, next) =>
        match ParseTokens(s, next, offBytes, minMatch, strict)
        case Malformed => Malformed
        case Parsed(seqs) => Parsed([Sequence(lits, matchLen, offset)] + seqs)
  }

  lemma {:induction false} StrictExtension(s: seq<Byte>, p: nat)
    requires ReadExtension(s, p, true).Extension?
    ensures ReadExtension(s, p, false) == ReadExtension(s, p, true)
    decreases |s| - p
  {
    if s[p] == 255 {
      StrictExtension(s, p + 1);
    }
  }

  /** A stream the block decoder's grammar accepts parses to the same sequences under the
      sequence parser's grammar. */
  lemma {:induction false} StrictParse(s: seq<Byte>, p: nat, offBytes: nat, minMatch: nat)
    requires ParseTokens(s, p, offBytes, minMatch, true).Parsed?
    ensures ParseTokens(s, p, offBytes, minMatch, false) == ParseTokens(s, p, offBytes, minMatch, true)
    decreases |s| - p
  {
    if p < |s| {
      StrictToken(s, p, offBytes, minMatch);
      var t := ReadToken(s, p, offBytes, minMatch, true);
      if t.FullToken? {
        StrictParse(s, t.next, offBytes, minMatch);
      }
    }
  }

  lemma StrictToken(s: seq<Byte>, p: nat, offBytes: nat, minMatch: nat)
    requires p < |s| && !ReadToken(s, p, offBytes, minMatch, true).BadToken?
    ensures ReadToken(s, p, offBytes, minMatch, false) == ReadToken(s, p, offBytes, minMatch, true)
  {
    var a := ReadLength(s, s[p] / 16, p + 1, true);
    if s[p] / 16 == 15 {
      StrictExtension(s, p + 1);
    }
    var p2 := a.next + a.value;
    if p2 < |s| && s[p] % 16 == 15 {
      StrictExtension(s, p2 + offBytes);
    }
  }

  //////////////////////////////////////////////////////////////////////////////
  // The block decoder on values
  //////////////////////////////////////////////////////////////////////////////

  datatype DecodeError = Corrupt | Overflow

  datatype BlockResult = BlockError(error: DecodeError) | BlockOk(out: seq<Byte>)

  /** `decode_block_tokens` byte by byte: `out` is the frame's output so far, `limit` the size it
      may reach, `p` the token position. Every check is made at every token. */
  function DecodeTokens(s: seq<Byte>, p: nat, out: seq<Byte>, limit: nat, maxOffset: nat, offBytes: nat, minMatch: nat): BlockResult
    requires |out| <= limit
    decreases |s| - p
  {
    if p >= |s| then BlockOk(out)
    else
      match ReadLength(s, s[p] / 16, p + 1, true)
      case NoExtension => BlockError(Corrupt)
      case Extension(ll, p1) =>
        if ll > |s| - p1 then BlockError(Corrupt)
        else if ll > limit - |out| then BlockError(Overflow)
        else
          var out1, p2 := out + s[p1..p1 + ll], p1 + ll;
          if p2 == |s| then BlockOk(out1)
          else if offBytes > |s| - p2 then BlockError(Corrupt)
          else
            match ReadLength(s, s[p] % 16, p2 + offBytes, true)
            case NoExtension => BlockError(Corrupt)
            case Extension(ml, p3) =>
              var offset, len := LittleEndian(s, p2, offBytes), ml + minMatch;
              if offset == 0 || offset > maxOffset || offset > |out1| then BlockError(Corrupt)
              else if len > limit - |out1| then BlockError(Overflow)
              else DecodeTokens(s, p3, Copy(out1, offset, len), limit, maxOffset, offBytes, minMatch)
  }

  ghost predicate TokenInRange(out: seq<Byte>, limit: nat, maxOffset: nat, t: Token) {
    t.FullToken? && 1 <= t.offset <= maxOffset && t.offset <= |out + t.lits| && |out + t.lits| + t.matchLen <= limit
  }

  /** The block decoder's move at one token. */
  lemma DecodeStep(s: seq<Byte>, p: nat, out: seq<Byte>, limit: nat, maxOffset: nat, offBytes: nat, minMatch: nat)
    requires |out| <= limit && p < |s|
    ensures var r := DecodeTokens(s, p, out, limit, maxOffset, offBytes, minMatch);
            var t := ReadToken(s, p, offBytes, minMatch, true);
            && (t.BadToken? ==> r.BlockError?)
            && (t.LastToken? ==> if |out + t.lits| <= limit then r == BlockOk(out + t.lits) else r.BlockError?)
            && (t.FullToken? ==>
                  if TokenInRange(out, limit, maxOffset, t)
                  then r == DecodeTokens(s, t.next, Copy(out + t.lits, t.offset, t.matchLen), limit, maxOffset, offBytes, minMatch)
                  else r.BlockError?)
  {
    hide ReadLength, LittleEndian, Copy;
  }

  /** The block decoder returns what the parsed sequences denote; it succeeds exactly when the
      stream parses, every match is in range and the output fits. */
  lemma {:induction false} DecodeTokensDenotes(s: seq<Byte>, p: nat, out: seq<Byte>, limit: nat, maxOffset: nat, offBytes: nat, minMatch: nat)
    requires |out| <= limit && minMatch > 0
    ensures var r := DecodeTokens(s, p, out, limit, maxOffset, offBytes, minMatch);
            var q := ParseTokens(s, p, offBytes, minMatch, true);
            && (r.BlockOk? <==> q.Parsed? && Valid(out, q.seqs, maxOffset) && |Denote(out, q.seqs, maxOffset)| <= limit)
            && (r.BlockOk? ==> r.out == Denote(out, q.seqs, maxOffset))
    decreases |s| - p
  {
    hide ReadToken, Copy, DecodeTokens, Valid, Denote;
    if p >= |s| {
      DenoteNone(out, maxOffset);
      assert DecodeTokens(s, p, out, limit, maxOffset, offBytes, minMatch) == BlockOk(out) by { DecodeEnd(s, p, out, limit, maxOffset, offBytes, minMatch); }
    } else {
      DecodeStep(s, p, out, limit, maxOffset, offBytes, minMatch);
      var t := ReadToken(s, p, offBytes, minMatch, true);
      match t {
        case BadToken =>
        case LastToken(lits) =>
          var one := Sequence(lits, 0, 0);
          assert [one] + [] == [one];
          DenoteOne(out, one, [], maxOffset);
          DenoteNone(out + lits, maxOffset);
        case FullToken(lits, offset, matchLen, next) =>
          var q := ParseTokens(s, next, offBytes, minMatch, true);
          var one := Sequence(lits, matchLen, offset);
          if q.Parsed? {
            DenoteOne(out, one, q.seqs, maxOffset);
          }
          if TokenInRange(out, limit, maxOffset, t) {
            DecodeTokensDenotes(s, next, Copy(out + lits, offset, matchLen), limit, maxOffset, offBytes, minMatch);
          }
      }
    }
  }

  lemma {:induction false} CopyBehind(pre: seq<Byte>, out: seq<Byte>, offset: nat, len: nat)
    requires 1 <= offset <= |out|
    ensures Copy(pre + out, offset, len) == pre + Copy(out, offset, len)
    decreases len
  {
    if len > 0 {
      var x := out[|out| - offset];
      assert (pre + out)[|pre + out| - offset] == x;
      assert pre + out + [x] == pre + (out + [x]);
      CopyBehind(pre, out + [x], offset, len - 1);
    }
  }

  /** A block that decodes after some history decodes the same after a longer one. */
  lemma {:induction false} LongerHistory(s: seq<Byte>, p: nat, pre: seq<Byte>, out: seq<Byte>, limit: nat, maxOffset: nat, offBytes: nat, minMatch: nat)
    requires |out| <= limit && DecodeTokens(s, p, out, limit, maxOffset, offBytes, minMatch).BlockOk?
    ensures DecodeTokens(s, p, pre + out, |pre| + limit, maxOffset, offBytes, minMatch) ==
            BlockOk(pre + DecodeTokens(s, p, out, limit, maxOffset, offBytes, minMatch).out)
    decreases |s| - p
  {
    hide ReadToken, Copy, DecodeTokens;
    if p >= |s| {
      DecodeEnd(s, p, out, limit, maxOffset, offBytes, minMatch);
      DecodeEnd(s, p, pre + out, |pre| + limit, maxOffset, offBytes, minMatch);
    } else {
      DecodeStep(s, p, out, limit, maxOffset, offBytes, minMatch);
      DecodeStep(s, p, pre + out, |pre| + limit, maxOffset, offBytes, minMatch);
      var t := ReadToken(s, p, offBytes, minMatch, true);
      if !t.BadToken? {
        assert pre + out + t.lits == pre + (out + t.lits);
      }
      if t.FullToken? {
        CopyBehind(pre, out + t.lits, t.offset, t.matchLen);
        LongerHistory(s, t.next, pre, Copy(out + t.lits, t.offset, t.matchLen), limit, maxOffset, offBytes, minMatch);
      }
    }
  }

  lemma DecodeEnd(s: seq<Byte>, p: nat, out: seq<Byte>, limit: nat, maxOffset: nat, offBytes: nat, minMatch: nat)
    requires |out| <= limit && p >= |s|
    ensures DecodeTokens(s, p, out, limit, maxOffset, offBytes, minMatch) == BlockOk(out)
  {
  }

  lemma DenoteNone(out: seq<Byte>, maxOffset: nat)
    ensures Valid(out, [], maxOffset) && Denote(out, [], maxOffset) == out
  {
  }

  lemma DenoteOne(out: seq<Byte>, one: Sequence, rest: seq<Sequence>, maxOffset: nat)
    ensures Valid(out, [one] + rest, maxOffset) <==>
              && (one.matchLen > 0 ==> 1 <= one.offset <= |out| + |one.lits| && one.offset <= maxOffset)
              && Valid(Emit(out, one), rest, maxOffset)
    ensures Valid(out, [one] + rest, maxOffset) ==>
              && Denote(out, [one] + rest, maxOffset) == Denote(Emit(out, one), rest, maxOffset)
              && |Denote(out, [one] + rest, maxOffset)| >= |Emit(out, one)|
  {
    assert ([one] + rest)[1..] == rest;
  }
}
