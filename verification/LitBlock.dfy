/** Blocks that code only their literals (`extract_literals`, `decode_stripped_tokens_impl`,
    src/vv_encoder.c:1705-1764, src/vv_decoder.c:460-680): the literals in one coded section, the
    tokens, stripped of them, behind it. */
module LitBlock {
  import AnsLanes
  import AnsSingle
  import opened BlockDecode
  import opened Bits
  import opened Bytes
  import opened Copies
  import CtxFrame
  import LitCoders
  import opened Lz
  import SeqParse
  import opened Tokens
  import opened Wire

  //////////////////////////////////////////////////////////////////////////////
  // Taking the literals out
  //////////////////////////////////////////////////////////////////////////////

  datatype Split = NoSplit | Split(lits: seq<Byte>, stripped: seq<Byte>)

  /** The literals of the tokens from position `p`, and the tokens without them. */
  function Extract(s: seq<Byte>, p: nat, offBytes: nat): (r: Split)
    decreases |s| - p
  {
    if p >= |s| then Split([], [])
    else
      match ReadLength(s, s[p] / 16, p + 1, false)
      case NoExtension => NoSplit
      case Extension(ll, p1) =>
        if ll > |s| - p1 then NoSplit
        else if p1 + ll == |s| then Split(s[p1..], s[p..p1])
        else if offBytes > |s| - (p1 + ll) then NoSplit
        else
          match ReadLength(s, s[p] % 16, p1 + ll + offBytes, false)
          case NoExtension => NoSplit
          case Extension(_, p3) => Joined(s[p1..p1 + ll], s[p..p1] + s[p1 + ll..p3], Extract(s, p3, offBytes))
  }

  function Joined(lits: seq<Byte>, stripped: seq<Byte>, rest: Split): Split {
    match rest
    case NoSplit => NoSplit
    case Split(l, t) => Split(lits + l, stripped + t)
  }

  lemma JoinedParts(lits: seq<Byte>, stripped: seq<Byte>, rest: Split)
    ensures rest.NoSplit? ==> Joined(lits, stripped, rest) == NoSplit
    ensures rest.Split? ==> Joined(lits, stripped, rest) == Split(lits + rest.lits, stripped + rest.stripped)
  {
  }

  /** The plain token loop, with the literals coming from a list of their own. */
  function DecodeStripped(w: seq<Byte>, q: nat, lits: seq<Byte>, out: seq<Byte>, limit: nat, maxOffset: nat, offBytes: nat): BlockResult
    requires |out| <= limit
    decreases |w| - q, 0
  {
    if q >= |w| then BlockOk(out)
    else
      match ReadLength(w, w[q] / 16, q + 1, true)
      case NoExtension => BlockError(Corrupt)
      case Extension(ll, q1) =>
        if ll > |lits| then BlockError(Corrupt)
        else if ll > limit - |out| then BlockError(Overflow)
        else AfterLits(w, w[q] % 16, q1, lits[ll..], out + lits[..ll], limit, maxOffset, offBytes)
  }

  function AfterLits(w: seq<Byte>, nibble: nat, q1: nat, lits: seq<Byte>, out1: seq<Byte>, limit: nat, maxOffset: nat, offBytes: nat): BlockResult
    requires |out1| <= limit && q1 <= |w|
    decreases |w| - q1, 1
  {
    if q1 >= |w| then BlockOk(out1)
    else if offBytes > |w| - q1 then BlockError(Corrupt)
    else
      match ReadLength(w, nibble, q1 + offBytes, true)
      case NoExtension => BlockError(Corrupt)
      case Extension(ml, q3) =>
        var offset, len := LittleEndian(w, q1, offBytes), ml + VV_MIN_MATCH;
        if offset == 0 || offset > maxOffset || offset > |out1| then BlockError(Corrupt)
        else if len > limit - |out1| then BlockError(Overflow)
        else DecodeStripped(w, q3, lits, Copy(out1, offset, len), limit, maxOffset, offBytes)
  }

  //////////////////////////////////////////////////////////////////////////////
  // Stripped tokens decode like the tokens
  //////////////////////////////////////////////////////////////////////////////

  /** Bytes that read as an extension read so wherever they stand. */
  lemma {:induction false} ExtensionMoves(s: seq<Byte>, p: nat, w: seq<Byte>, q: nat)
    requires ReadExtension(s, p, true).Extension?
    requires At(w, q, s[p..ReadExtension(s, p, true).next])
    ensures ReadExtension(w, q, true) ==
            Extension(ReadExtension(s, p, true).value, q + (ReadExtension(s, p, true).next - p))
    decreases |s| - p
  {
    hide At;
    var n := ReadExtension(s, p, true).next;
    assert s[p..n] == [s[p]] + s[p + 1..n];
    AtHead(w, q, s[p], s[p + 1..n]);
    if s[p] == 255 {
      ExtensionMoves(s, p + 1, w, q + 1);
    }
  }

  lemma LengthMoves(s: seq<Byte>, nibble: nat, p: nat, w: seq<Byte>, q: nat)
    requires p <= |s| && q <= |w| && ReadLength(s, nibble, p, true).Extension?
    requires At(w, q, s[p..ReadLength(s, nibble, p, true).next])
    ensures ReadLength(w, nibble, q, true) ==
            Extension(ReadLength(s, nibble, p, true).value, q + (ReadLength(s, nibble, p, true).next - p))
  {
    hide At, ReadExtension;
    if nibble == 15 {
      ExtensionMoves(s, p, w, q);
    }
  }

  lemma {:induction false} LeMoves(s: seq<Byte>, p: nat, w: seq<Byte>, q: nat, n: nat)
    requires p + n <= |s| && At(w, q, s[p..p + n])
    ensures q + n <= |w| && LittleEndian(w, q, n) == LittleEndian(s, p, n)
    decreases n
  {
    hide At;
    if n > 0 {
      assert s[p..p + n] == [s[p]] + s[p + 1..p + n];
      AtHead(w, q, s[p], s[p + 1..p + n]);
      LeMoves(s, p + 1, w, q + 1, n - 1);
    } else {
      AtMeans(w, q, s[p..p + n]);
    }
  }

  /** A strict length is also a lenient one. */
  lemma LengthLenient(s: seq<Byte>, nibble: nat, p: nat)
    requires p <= |s| && ReadLength(s, nibble, p, true).Extension?
    ensures ReadLength(s, nibble, p, false) == ReadLength(s, nibble, p, true)
  {
    if nibble == 15 {
      StrictExtension(s, p);
    }
  }

  /** One token that the plain loop accepts, and what the loop does next. */
  lemma TokenReads(s: seq<Byte>, p: nat, out: seq<Byte>, limit: nat, maxOffset: nat, offBytes: nat)
    requires |out| <= limit && p < |s|
    requires DecodeTokens(s, p, out, limit, maxOffset, offBytes, VV_MIN_MATCH).BlockOk?
    ensures var a := ReadLength(s, s[p] / 16, p + 1, true);
            && a.Extension? && a.value <= |s| - a.next && a.value <= limit - |out|
            && var p2, out1 := a.next + a.value, out + s[a.next..a.next + a.value];
               if p2 == |s| then DecodeTokens(s, p, out, limit, maxOffset, offBytes, VV_MIN_MATCH) == BlockOk(out1)
               else
                 && offBytes <= |s| - p2
                 && var b := ReadLength(s, s[p] % 16, p2 + offBytes, true);
                    && b.Extension?
                    && var offset, len := LittleEndian(s, p2, offBytes), b.value + VV_MIN_MATCH;
                       && 1 <= offset <= maxOffset && offset <= |out1| && len <= limit - |out1|
                       && DecodeTokens(s, p, out, limit, maxOffset, offBytes, VV_MIN_MATCH) ==
                          DecodeTokens(s, b.next, Copy(out1, offset, len), limit, maxOffset, offBytes, VV_MIN_MATCH)
  {
    hide LittleEndian, ReadLength;
  }

  /** What is taken out of it. */
  lemma TokenSplits(s: seq<Byte>, p: nat, offBytes: nat)
    requires p < |s| && ReadLength(s, s[p] / 16, p + 1, true).Extension?
    requires var a := ReadLength(s, s[p] / 16, p + 1, true);
             && a.value <= |s| - a.next
             && (a.next + a.value == |s| ||
                 (offBytes <= |s| - (a.next + a.value) &&
                  ReadLength(s, s[p] % 16, a.next + a.value + offBytes, true).Extension?))
    ensures var a := ReadLength(s, s[p] / 16, p + 1, true);
            var p2 := a.next + a.value;
            if p2 == |s| then Extract(s, p, offBytes) == Split(s[a.next..], s[p..a.next])
            else
              var b := ReadLength(s, s[p] % 16, p2 + offBytes, true);
              Extract(s, p, offBytes) == Joined(s[a.next..p2], s[p..a.next] + s[p2..b.next], Extract(s, b.next, offBytes))
  {
    hide ReadLength, Joined;
    var a := ReadLength(s, s[p] / 16, p + 1, true);
    LengthLenient(s, s[p] / 16, p + 1);
    var p2 := a.next + a.value;
    if p2 < |s| {
      LengthLenient(s, s[p] % 16, p2 + offBytes);
    }
  }

  lemma {:induction false} ExtractWorks(s: seq<Byte>, p: nat, out: seq<Byte>, limit: nat, maxOffset: nat, offBytes: nat)
    requires |out| <= limit && DecodeTokens(s, p, out, limit, maxOffset, offBytes, VV_MIN_MATCH).BlockOk?
    ensures Extract(s, p, offBytes).Split?
    decreases |s| - p
  {
    hide DecodeTokens, ReadLength, LittleEndian, Extract, Copy, Joined;
    if p >= |s| {
      ExtractEnd(s, p, offBytes);
    } else {
      TokenReads(s, p, out, limit, maxOffset, offBytes);
      TokenSplits(s, p, offBytes);
      var a := ReadLength(s, s[p] / 16, p + 1, true);
      var p2, out1 := a.next + a.value, out + s[a.next..a.next + a.value];
      if p2 < |s| {
        var b := ReadLength(s, s[p] % 16, p2 + offBytes, true);
        JoinedParts(s[a.next..p2], s[p..a.next] + s[p2..b.next], Extract(s, b.next, offBytes));
        ExtractWorks(s, b.next, Copy(out1, LittleEndian(s, p2, offBytes), b.value + VV_MIN_MATCH), limit, maxOffset, offBytes);
      }
    }
  }

  /** A block has no more literals than bytes. */
  lemma {:induction false} ExtractFew(s: seq<Byte>, p: nat, out: seq<Byte>, limit: nat, maxOffset: nat, offBytes: nat)
    requires |out| <= limit && DecodeTokens(s, p, out, limit, maxOffset, offBytes, VV_MIN_MATCH).BlockOk?
    ensures var r := DecodeTokens(s, p, out, limit, maxOffset, offBytes, VV_MIN_MATCH);
            Extract(s, p, offBytes).Split? ==> |out| + |Extract(s, p, offBytes).lits| <= |r.out|
    decreases |s| - p
  {
    hide DecodeTokens, ReadLength, LittleEndian, Extract, Copy, Joined;
    if p >= |s| {
      ExtractEnd(s, p, offBytes);
      DecodeEnd(s, p, out, limit, maxOffset, offBytes, VV_MIN_MATCH);
    } else {
      TokenReads(s, p, out, limit, maxOffset, offBytes);
      TokenSplits(s, p, offBytes);
      var a := ReadLength(s, s[p] / 16, p + 1, true);
      var p2, out1 := a.next + a.value, out + s[a.next..a.next + a.value];
      if p2 < |s| {
        var b := ReadLength(s, s[p] % 16, p2 + offBytes, true);
        JoinedParts(s[a.next..p2], s[p..a.next] + s[p2..b.next], Extract(s, b.next, offBytes));
        ExtractFew(s, b.next, Copy(out1, LittleEndian(s, p2, offBytes), b.value + VV_MIN_MATCH), limit, maxOffset, offBytes);
      }
    }
  }

  lemma SliceOfSlice(s: seq<Byte>, a: nat, b: nat, i: nat, j: nat)
    requires a <= b <= |s| && i <= j <= b - a
    ensures s[a..b][i..j] == s[a + i..a + j]
  {
    var x, y := s[a..b][i..j], s[a + i..a + j];
    assert |x| == |y|;
    forall k | 0 <= k < |x|
      ensures x[k] == y[k]
    {
      assert x[k] == s[a..b][i + k];
      assert s[a..b][i + k] == s[a + (i + k)];
      assert y[k] == s[(a + i) + k];
    }
  }

  /** Where `w` from `q` on is a slice of `s` and then `tail`, its parts are parts of the slice. */
  lemma Within(w: seq<Byte>, q: nat, s: seq<Byte>, p: nat, n: nat, i: nat, j: nat, tail: seq<Byte>)
    requires q <= |w| && p <= n <= |s| && w[q..] == s[p..n] + tail && i <= j <= n - p
    ensures q + j <= |w| && w[q + i..q + j] == s[p + i..p + j]
  {
    assert w[q..] == w[q..|w|] && |w[q..]| == n - p + |tail|;
    SliceOfSlice(w, q, |w|, i, j);
    SliceOfSlice(s, p, n, i, j);
    assert (s[p..n] + tail)[i..j] == s[p..n][i..j];
    assert w[q..|w|][i..j] == (s[p..n] + tail)[i..j];
  }

  /** The stripped lead and its literal length are read as they stood before. */
  lemma LeadMoves(s: seq<Byte>, p: nat, w: seq<Byte>, q: nat, tail: seq<Byte>)
    requires p < |s| && q <= |w| && ReadLength(s, s[p] / 16, p + 1, true).Extension?
    requires w[q..] == s[p..ReadLength(s, s[p] / 16, p + 1, true).next] + tail
    ensures var a := ReadLength(s, s[p] / 16, p + 1, true);
            && q < |w| && w[q] == s[p]
            && ReadLength(w, w[q] / 16, q + 1, true) == Extension(a.value, q + (a.next - p))
            && w[q + (a.next - p)..] == tail
  {
    hide ReadLength;
    var n := ReadLength(s, s[p] / 16, p + 1, true).next;
    assert w[q] == w[q..][0] == s[p];
    Within(w, q, s, p, n, 1, n - p, tail);
    assert At(w, q + 1, s[p + 1..n]);
    LengthMoves(s, s[p] / 16, p + 1, w, q + 1);
    assert w[q + (n - p)..] == w[q..][n - p..] == tail;
  }

  /** Likewise the offset and the match length. */
  lemma MatchMoves(s: seq<Byte>, nibble: nat, p2: nat, w: seq<Byte>, q1: nat, tail: seq<Byte>, offBytes: nat)
    requires p2 + offBytes <= |s| && q1 <= |w| && ReadLength(s, nibble, p2 + offBytes, true).Extension?
    requires w[q1..] == s[p2..ReadLength(s, nibble, p2 + offBytes, true).next] + tail
    ensures var b := ReadLength(s, nibble, p2 + offBytes, true);
            && offBytes <= |w| - q1 && LittleEndian(w, q1, offBytes) == LittleEndian(s, p2, offBytes)
            && ReadLength(w, nibble, q1 + offBytes, true) == Extension(b.value, q1 + (b.next - p2))
            && w[q1 + (b.next - p2)..] == tail
  {
    hide ReadLength, LittleEndian;
    var n := ReadLength(s, nibble, p2 + offBytes, true).next;
    Within(w, q1, s, p2, n, 0, offBytes, tail);
    assert At(w, q1, s[p2..p2 + offBytes]);
    LeMoves(s, p2, w, q1, offBytes);
    Within(w, q1, s, p2, n, offBytes, n - p2, tail);
    assert At(w, q1 + offBytes, s[p2 + offBytes..n]);
    LengthMoves(s, nibble, p2 + offBytes, w, q1 + offBytes);
    assert w[q1 + (n - p2)..] == w[q1..][n - p2..] == tail;
  }

  lemma SplitTail(s: seq<Byte>, p: nat, n: nat, p2: nat, m: nat, t: seq<Byte>)
    requires p <= n <= |s| && p2 <= m <= |s|
    ensures (s[p..n] + s[p2..m]) + t == s[p..n] + (s[p2..m] + t)
  {
  }

  /** The stripped loop's move, literals first. */
  lemma StrippedStep(w: seq<Byte>, q: nat, lits: seq<Byte>, out: seq<Byte>, limit: nat, maxOffset: nat, offBytes: nat)
    requires |out| <= limit && q < |w|
    ensures var a := ReadLength(w, w[q] / 16, q + 1, true);
            DecodeStripped(w, q, lits, out, limit, maxOffset, offBytes) ==
            if a.NoExtension? || a.value > |lits| then BlockError(Corrupt)
            else if a.value > limit - |out| then BlockError(Overflow)
            else AfterLits(w, w[q] % 16, a.next, lits[a.value..], out + lits[..a.value], limit, maxOffset, offBytes)
  {
    hide ReadLength, AfterLits;
  }

  lemma MatchAfter(w: seq<Byte>, nibble: nat, q1: nat, lits: seq<Byte>, out1: seq<Byte>, limit: nat, maxOffset: nat, offBytes: nat)
    requires |out1| <= limit && q1 < |w| && offBytes <= |w| - q1
    requires var b := ReadLength(w, nibble, q1 + offBytes, true);
             && b.Extension?
             && var offset, len := LittleEndian(w, q1, offBytes), b.value + VV_MIN_MATCH;
                1 <= offset <= maxOffset && offset <= |out1| && len <= limit - |out1|
    ensures var b := ReadLength(w, nibble, q1 + offBytes, true);
            AfterLits(w, nibble, q1, lits, out1, limit, maxOffset, offBytes) ==
            DecodeStripped(w, b.next, lits, Copy(out1, LittleEndian(w, q1, offBytes), b.value + VV_MIN_MATCH), limit, maxOffset, offBytes)
  {
    hide ReadLength, LittleEndian, DecodeStripped, Copy;
  }

  /** The stripped loop's move at its last token, and at a token with a match. */
  lemma StrippedLast(w: seq<Byte>, q: nat, given: seq<Byte>, out: seq<Byte>, limit: nat, maxOffset: nat, offBytes: nat)
    requires |out| <= limit && q < |w| && ReadLength(w, w[q] / 16, q + 1, true).Extension?
    requires ReadLength(w, w[q] / 16, q + 1, true).next == |w|
    ensures var ll := ReadLength(w, w[q] / 16, q + 1, true).value;
            && (ll <= |given| && ll <= limit - |out| ==>
                  DecodeStripped(w, q, given, out, limit, maxOffset, offBytes) == BlockOk(out + given[..ll]))
            && (ll > |given| ==> DecodeStripped(w, q, given, out, limit, maxOffset, offBytes).BlockError?)
  {
    hide ReadLength;
  }

  lemma StrippedMatch(w: seq<Byte>, q: nat, given: seq<Byte>, out: seq<Byte>, limit: nat, maxOffset: nat, offBytes: nat)
    requires |out| <= limit && q < |w| && ReadLength(w, w[q] / 16, q + 1, true).Extension?
    requires var a := ReadLength(w, w[q] / 16, q + 1, true);
             && a.next < |w| && a.value <= limit - |out| && offBytes <= |w| - a.next
             && var b := ReadLength(w, w[q] % 16, a.next + offBytes, true);
                && b.Extension?
                && var offset, len := LittleEndian(w, a.next, offBytes), b.value + VV_MIN_MATCH;
                   1 <= offset <= maxOffset && offset <= |out| + a.value && len <= limit - |out| - a.value
    ensures var a := ReadLength(w, w[q] / 16, q + 1, true);
            var b := ReadLength(w, w[q] % 16, a.next + offBytes, true);
            && (a.value > |given| ==> DecodeStripped(w, q, given, out, limit, maxOffset, offBytes).BlockError?)
            && (a.value <= |given| ==>
                  DecodeStripped(w, q, given, out, limit, maxOffset, offBytes) ==
                  DecodeStripped(w, b.next, given[a.value..],
                                 Copy(out + given[..a.value], LittleEndian(w, a.next, offBytes), b.value + VV_MIN_MATCH),
                                 limit, maxOffset, offBytes))
  {
    hide ReadLength, LittleEndian, DecodeStripped, AfterLits, Copy;
    StrippedStep(w, q, given, out, limit, maxOffset, offBytes);
    var a := ReadLength(w, w[q] / 16, q + 1, true);
    if a.value <= |given| {
      MatchAfter(w, w[q] % 16, a.next, given[a.value..], out + given[..a.value], limit, maxOffset, offBytes);
    }
  }

  /** The stripped loop at a token with a match taken from `s`: `other` is as long as what the plain
      loop has written, and `next` is where the rest of the stripped tokens starts. */
  lemma MatchStep(s: seq<Byte>, p: nat, w: seq<Byte>, q: nat, given: seq<Byte>, other: seq<Byte>, limit: nat, maxOffset: nat,
                  offBytes: nat, tail: seq<Byte>) returns (next: nat)
    requires |other| <= limit && p < |s| && q <= |w| && offBytes > 0
    requires ReadLength(s, s[p] / 16, p + 1, true).Extension?
    requires var a := ReadLength(s, s[p] / 16, p + 1, true);
             var p2 := a.next + a.value;
             && a.value <= limit - |other| && p2 + offBytes <= |s|
             && var b := ReadLength(s, s[p] % 16, p2 + offBytes, true);
                && b.Extension? && w[q..] == (s[p..a.next] + s[p2..b.next]) + tail
                && var offset, len := LittleEndian(s, p2, offBytes), b.value + VV_MIN_MATCH;
                   1 <= offset <= maxOffset && offset <= |other| + a.value && len <= limit - |other| - a.value
    ensures next <= |w| && w[next..] == tail
    ensures var a := ReadLength(s, s[p] / 16, p + 1, true);
            var p2 := a.next + a.value;
            var b := ReadLength(s, s[p] % 16, p2 + offBytes, true);
            && (a.value > |given| ==> DecodeStripped(w, q, given, other, limit, maxOffset, offBytes).BlockError?)
            && (a.value <= |given| ==>
                  DecodeStripped(w, q, given, other, limit, maxOffset, offBytes) ==
                  DecodeStripped(w, next, given[a.value..],
                                 Copy(other + given[..a.value], LittleEndian(s, p2, offBytes), b.value + VV_MIN_MATCH),
                                 limit, maxOffset, offBytes))
  {
    hide ReadLength, LittleEndian, DecodeStripped;
    var a := ReadLength(s, s[p] / 16, p + 1, true);
    var p2 := a.next + a.value;
    var b := ReadLength(s, s[p] % 16, p2 + offBytes, true);
    SplitTail(s, p, a.next, p2, b.next, tail);
    LeadMoves(s, p, w, q, s[p2..b.next] + tail);
    var q1 := q + (a.next - p);
    MatchMoves(s, s[p] % 16, p2, w, q1, tail, offBytes);
    next := q1 + (b.next - p2);
    StrippedMatch(w, q, given, other, limit, maxOffset, offBytes);
  }

  lemma GivenSplits(l0: seq<Byte>, l: seq<Byte>, more: seq<Byte>)
    ensures ((l0 + l) + more)[..|l0|] == l0 && ((l0 + l) + more)[|l0|..] == l + more
  {
  }

  /** Decoding the stripped tokens with the literals, and any more behind them, is decoding the tokens. */
  lemma {:induction false} StrippedDecodes(s: seq<Byte>, p: nat, w: seq<Byte>, q: nat, more: seq<Byte>, out: seq<Byte>, limit: nat,
                                           maxOffset: nat, offBytes: nat)
    requires |out| <= limit && offBytes > 0
    requires DecodeTokens(s, p, out, limit, maxOffset, offBytes, VV_MIN_MATCH).BlockOk?
    requires Extract(s, p, offBytes).Split? && q <= |w| && w[q..] == Extract(s, p, offBytes).stripped
    ensures DecodeStripped(w, q, Extract(s, p, offBytes).lits + more, out, limit, maxOffset, offBytes) ==
            DecodeTokens(s, p, out, limit, maxOffset, offBytes, VV_MIN_MATCH)
    decreases |s| - p
  {
    hide DecodeTokens, DecodeStripped, ReadLength, LittleEndian, Extract, Joined, Copy;
    if p >= |s| {
      NothingLeft(s, p, w, q, out, limit, maxOffset, offBytes);
    } else {
      TokenReads(s, p, out, limit, maxOffset, offBytes);
      TokenSplits(s, p, offBytes);
      var a := ReadLength(s, s[p] / 16, p + 1, true);
      var l0, p2 := s[a.next..a.next + a.value], a.next + a.value;
      if p2 == |s| {
        assert s[p..a.next] + [] == s[p..a.next] && s[a.next..] == l0;
        LeadMoves(s, p, w, q, []);
        StrippedLast(w, q, l0 + more, out, limit, maxOffset, offBytes);
        assert (l0 + more)[..a.value] == l0;
      } else {
        var b := ReadLength(s, s[p] % 16, p2 + offBytes, true);
        var rest := Extract(s, b.next, offBytes);
        JoinedParts(l0, s[p..a.next] + s[p2..b.next], rest);
        var next := MatchStep(s, p, w, q, (l0 + rest.lits) + more, out, limit, maxOffset, offBytes, rest.stripped);
        GivenSplits(l0, rest.lits, more);
        StrippedDecodes(s, b.next, w, next, more, Copy(out + l0, LittleEndian(s, p2, offBytes), b.value + VV_MIN_MATCH),
                        limit, maxOffset, offBytes);
      }
    }
  }

  lemma NothingLeft(s: seq<Byte>, p: nat, w: seq<Byte>, q: nat, out: seq<Byte>, limit: nat, maxOffset: nat, offBytes: nat)
    requires |out| <= limit && p >= |s| && q <= |w| && w[q..] == Extract(s, p, offBytes).stripped
    ensures Extract(s, p, offBytes) == Split([], [])
    ensures DecodeTokens(s, p, out, limit, maxOffset, offBytes, VV_MIN_MATCH) == BlockOk(out)
    ensures forall given: seq<Byte> :: DecodeStripped(w, q, given, out, limit, maxOffset, offBytes) == BlockOk(out)
  {
  }

  /** With fewer literals than were taken out, whatever they are, it fails. */
  lemma {:induction false} StrippedNeeds(s: seq<Byte>, p: nat, w: seq<Byte>, q: nat, given: seq<Byte>, out: seq<Byte>, other: seq<Byte>,
                                         limit: nat, maxOffset: nat, offBytes: nat)
    requires |out| == |other| <= limit && offBytes > 0
    requires DecodeTokens(s, p, out, limit, maxOffset, offBytes, VV_MIN_MATCH).BlockOk?
    requires Extract(s, p, offBytes).Split? && q <= |w| && w[q..] == Extract(s, p, offBytes).stripped
    requires |given| < |Extract(s, p, offBytes).lits|
    ensures DecodeStripped(w, q, given, other, limit, maxOffset, offBytes).BlockError?
    decreases |s| - p
  {
    hide DecodeTokens, DecodeStripped, ReadLength, LittleEndian, Extract, Joined, Copy;
    if p >= |s| {
      NothingLeft(s, p, w, q, out, limit, maxOffset, offBytes);
    } else {
      TokenReads(s, p, out, limit, maxOffset, offBytes);
      TokenSplits(s, p, offBytes);
      var a := ReadLength(s, s[p] / 16, p + 1, true);
      var l0, p2 := s[a.next..a.next + a.value], a.next + a.value;
      if p2 == |s| {
        assert s[p..a.next] + [] == s[p..a.next];
        LeadMoves(s, p, w, q, []);
        StrippedLast(w, q, given, other, limit, maxOffset, offBytes);
      } else {
        var b := ReadLength(s, s[p] % 16, p2 + offBytes, true);
        var rest := Extract(s, b.next, offBytes);
        JoinedParts(l0, s[p..a.next] + s[p2..b.next], rest);
        var next := MatchStep(s, p, w, q, given, other, limit, maxOffset, offBytes, rest.stripped);
        if a.value <= |given| {
          var offset, len := LittleEndian(s, p2, offBytes), b.value + VV_MIN_MATCH;
          StrippedNeeds(s, b.next, w, next, given[a.value..], Copy(out + l0, offset, len),
                        Copy(other + given[..a.value], offset, len), limit, maxOffset, offBytes);
        }
      }
    }
  }

  //////////////////////////////////////////////////////////////////////////////
  // The block
  //////////////////////////////////////////////////////////////////////////////

  /** How the literals are coded: the block's tag. */
  datatype Kind = Huffman | Ans | Ans4 | Ctx

  ghost function DecodeKind(k: Kind, enc: seq<Byte>, n: nat): LitCoders.Lits {
    match k
    case Huffman => LitCoders.DecodeLits(LitCoders.HUFFMAN, enc, n)
    case Ans => LitCoders.DecodeLits(LitCoders.ANS1, enc, n)
    case Ans4 => LitCoders.DecodeLits(LitCoders.ANS4, enc, n)
    case Ctx => LitCoders.FromAns(CtxFrame.DecodeBytes(enc, n, n))
  }

  /** Two counts of 16 bits, the coded literals, the stripped tokens. */
  ghost function DecodeBlock(k: Kind, data: seq<Byte>, hist: seq<Byte>, cap: nat, maxOffset: nat, offBytes: nat): BlockResult {
    if |data| < 4 then BlockError(Corrupt)
    else
      var n, size := LittleEndian(data, 0, 2), LittleEndian(data, 2, 2);
      if 4 + size > |data| then BlockError(Corrupt)
      else
        match DecodeKind(k, data[4..4 + size], n)
        case NoLits => BlockError(Corrupt)
        case Lits(lits) => DecodeStripped(data[4 + size..], 0, lits, hist, |hist| + cap, maxOffset, offBytes)
  }

  /** The counts are written in 16 bits each, whatever they are. */
  function Pack(n: nat, enc: seq<Byte>, stripped: seq<Byte>): seq<Byte> {
    LeBytes(n % 0x1_0000, 2) + (LeBytes(|enc| % 0x1_0000, 2) + (enc + stripped))
  }

  lemma PackParts(n: nat, enc: seq<Byte>, stripped: seq<Byte>)
    ensures var data := Pack(n, enc, stripped);
            && |data| == 4 + |enc| + |stripped|
            && LittleEndian(data, 0, 2) == n % 0x1_0000 && LittleEndian(data, 2, 2) == |enc| % 0x1_0000
            && data[4..4 + |enc|] == enc && data[4 + |enc|..] == stripped
  {
    hide LeBytes, LittleEndian, Pow2;
    Pow2Small();
    var tail := LeBytes(|enc| % 0x1_0000, 2) + (enc + stripped);
    FrontLe(n % 0x1_0000, 2, tail);
    FrontLe(|enc| % 0x1_0000, 2, enc + stripped);
    var data := Pack(n, enc, stripped);
    LittleEndianSuffix(data, 2, 0, 2);
    assert data[4..] == tail[2..] == enc + stripped;
    assert data[4..4 + |enc|] == data[4..][..|enc|] && data[4 + |enc|..] == data[4..][|enc|..];
  }

  /** The coded literals stand for the literals. */
  ghost predicate Codes(k: Kind, enc: seq<Byte>, lits: seq<Byte>) {
    DecodeKind(k, enc, |lits|) == LitCoders.Lits(lits) && |enc| <= |lits|
  }

  /** A block whose literal count fits its field decodes to what its tokens decode to. */
  lemma BlockDecodes(k: Kind, tokens: seq<Byte>, enc: seq<Byte>, hist: seq<Byte>, cap: nat, maxOffset: nat, offBytes: nat)
    requires offBytes > 0 && DecodeTokens(tokens, 0, hist, |hist| + cap, maxOffset, offBytes, VV_MIN_MATCH).BlockOk?
    requires var e := Extract(tokens, 0, offBytes); e.Split? && Codes(k, enc, e.lits) && |e.lits| <= 0xFFFF
    ensures var e := Extract(tokens, 0, offBytes);
            DecodeBlock(k, Pack(|e.lits|, enc, e.stripped), hist, cap, maxOffset, offBytes) ==
            DecodeTokens(tokens, 0, hist, |hist| + cap, maxOffset, offBytes, VV_MIN_MATCH)
  {
    hide DecodeKind, DecodeTokens, DecodeStripped, Extract, Pack, LittleEndian;
    var e := Extract(tokens, 0, offBytes);
    PackParts(|e.lits|, enc, e.stripped);
    assert e.stripped[0..] == e.stripped && e.lits + [] == e.lits;
    StrippedDecodes(tokens, 0, e.stripped, 0, [], hist, |hist| + cap, maxOffset, offBytes);
  }

  lemma DecodedSize(k: Kind, enc: seq<Byte>, n: nat)
    ensures DecodeKind(k, enc, n).Lits? ==> |DecodeKind(k, enc, n).bytes| == n
  {
    hide CtxFrame.ReadImage, LitCoders.DecodeLits;
    if k == Ctx && CtxFrame.DecodeBytes(enc, n, n).Decoded? {
      CtxFrame.DecodedSize(enc, n, n);
    }
  }

  /** With a literal count that does not fit, written modulo 2^16, the decoder runs out of literals. */
  lemma BlockBreaks(k: Kind, tokens: seq<Byte>, enc: seq<Byte>, hist: seq<Byte>, cap: nat, maxOffset: nat, offBytes: nat)
    requires offBytes > 0 && DecodeTokens(tokens, 0, hist, |hist| + cap, maxOffset, offBytes, VV_MIN_MATCH).BlockOk?
    requires var e := Extract(tokens, 0, offBytes); e.Split? && |e.lits| > 0xFFFF && |enc| <= 0xFFFF
    ensures var e := Extract(tokens, 0, offBytes);
            DecodeBlock(k, Pack(|e.lits|, enc, e.stripped), hist, cap, maxOffset, offBytes).BlockError?
  {
    hide DecodeKind, DecodeTokens, DecodeStripped, Extract, Pack, LittleEndian;
    var e := Extract(tokens, 0, offBytes);
    PackParts(|e.lits|, enc, e.stripped);
    var n := |e.lits| % 0x1_0000;
    DecodedSize(k, enc, n);
    if DecodeKind(k, enc, n).Lits? {
      assert e.stripped[0..] == e.stripped;
      StrippedNeeds(tokens, 0, e.stripped, 0, DecodeKind(k, enc, n).bytes, hist, hist, |hist| + cap, maxOffset, offBytes);
    }
  }

  /** Whether such a block decodes to what its tokens decode to is exactly whether its literal count
      fits 16 bits, as long as the size of the coded literals does. */
  lemma BlockExact(k: Kind, tokens: seq<Byte>, enc: seq<Byte>, hist: seq<Byte>, cap: nat, maxOffset: nat, offBytes: nat)
    requires offBytes > 0 && DecodeTokens(tokens, 0, hist, |hist| + cap, maxOffset, offBytes, VV_MIN_MATCH).BlockOk?
    requires var e := Extract(tokens, 0, offBytes); e.Split? && Codes(k, enc, e.lits) && |enc| <= 0xFFFF
    ensures var e := Extract(tokens, 0, offBytes);
            DecodeBlock(k, Pack(|e.lits|, enc, e.stripped), hist, cap, maxOffset, offBytes) ==
            DecodeTokens(tokens, 0, hist, |hist| + cap, maxOffset, offBytes, VV_MIN_MATCH)
            <==> |e.lits| <= 0xFFFF
  {
    hide DecodeBlock, DecodeTokens, Extract, Pack, Codes;
    if |Extract(tokens, 0, offBytes).lits| <= 0xFFFF {
      BlockDecodes(k, tokens, enc, hist, cap, maxOffset, offBytes);
    } else {
      BlockBreaks(k, tokens, enc, hist, cap, maxOffset, offBytes);
    }
  }

  /** Four lanes of more than 65535 bytes are cut off by their own size field, and then refused, unless their count
      is written as zero. */
  lemma LanesBreak(lits: seq<Byte>, enc: seq<Byte>, stripped: seq<Byte>, hist: seq<Byte>, cap: nat, maxOffset: nat, offBytes: nat)
    requires AnsLanes.EncodesLanes(lits, enc) && |lits| % 0x1_0000 != 0 && |enc| > 0xFFFF
    ensures DecodeBlock(Ans4, Pack(|lits|, enc, stripped), hist, cap, maxOffset, offBytes).BlockError?
  {
    hide DecodeStripped, Pack, LittleEndian, AnsLanes.DecodeLanes, AnsLanes.EncodesLanes;
    PackParts(|lits|, enc, stripped);
    var data, n, size := Pack(|lits|, enc, stripped), |lits| % 0x1_0000, |enc| % 0x1_0000;
    assert data[4..4 + size] == data[4..4 + |enc|][..size] == enc[..size];
    AnsLanes.LanesCutOff(lits, enc, size, n);
  }

  /** So for four lanes, whatever their size, the count alone decides, unless it is a multiple of 65536. */
  lemma LanesExact(tokens: seq<Byte>, enc: seq<Byte>, hist: seq<Byte>, cap: nat, maxOffset: nat, offBytes: nat)
    requires offBytes > 0 && DecodeTokens(tokens, 0, hist, |hist| + cap, maxOffset, offBytes, VV_MIN_MATCH).BlockOk?
    requires var e := Extract(tokens, 0, offBytes);
             && e.Split? && Codes(Ans4, enc, e.lits) && AnsLanes.EncodesLanes(e.lits, enc)
             && (|enc| <= 0xFFFF || |e.lits| % 0x1_0000 != 0)
    ensures var e := Extract(tokens, 0, offBytes);
            DecodeBlock(Ans4, Pack(|e.lits|, enc, e.stripped), hist, cap, maxOffset, offBytes) ==
            DecodeTokens(tokens, 0, hist, |hist| + cap, maxOffset, offBytes, VV_MIN_MATCH)
            <==> |e.lits| <= 0xFFFF
  {
    hide DecodeBlock, DecodeTokens, Extract, Pack, DecodeKind, AnsLanes.EncodesLanes;
    var e := Extract(tokens, 0, offBytes);
    if |enc| <= 0xFFFF {
      BlockExact(Ans4, tokens, enc, hist, cap, maxOffset, offBytes);
    } else {
      LanesBreak(e.lits, enc, e.stripped, hist, cap, maxOffset, offBytes);
    }
  }

  //////////////////////////////////////////////////////////////////////////////
  // Coding
  //////////////////////////////////////////////////////////////////////////////

  lemma JoinedTwice(a: seq<Byte>, b: seq<Byte>, c: seq<Byte>, d: seq<Byte>, rest: Split)
    ensures Joined(a, b, Joined(c, d, rest)) == Joined(a + c, b + d, rest)
  {
    if rest.Split? {
      assert a + (c + rest.lits) == (a + c) + rest.lits;
      assert b + (d + rest.stripped) == (b + d) + rest.stripped;
    }
  }

  lemma ExtractStep(s: seq<Byte>, p: nat, offBytes: nat)
    requires p < |s|
    ensures var a := ReadLength(s, s[p] / 16, p + 1, false);
            && (a.NoExtension? || (a.Extension? && a.value > |s| - a.next) ==> Extract(s, p, offBytes) == NoSplit)
            && (a.Extension? && a.value <= |s| - a.next ==>
                  var p2 := a.next + a.value;
                  && (p2 == |s| ==> Extract(s, p, offBytes) == Split(s[a.next..], s[p..a.next]))
                  && (p2 < |s| && offBytes > |s| - p2 ==> Extract(s, p, offBytes) == NoSplit)
                  && (p2 < |s| && offBytes <= |s| - p2 ==>
                        var b := ReadLength(s, s[p] % 16, p2 + offBytes, false);
                        Extract(s, p, offBytes) ==
                        if b.NoExtension? then NoSplit
                        else Joined(s[a.next..p2], s[p..a.next] + s[p2..b.next], Extract(s, b.next, offBytes))))
  {
    hide ReadLength, Joined;
  }

  lemma ReadTokenIs(s: seq<Byte>, p: nat, offBytes: nat, minMatch: nat)
    requires p < |s|
    ensures var t := ReadToken(s, p, offBytes, minMatch, false);
            var a := ReadLength(s, s[p] / 16, p + 1, false);
            && (!t.BadToken? ==> a.Extension? && a.value <= |s| - a.next && t.lits == s[a.next..a.next + a.value])
            && (t.LastToken? ==> a.next + a.value == |s|)
            && (t.FullToken? ==>
                  && a.next + a.value < |s| && offBytes <= |s| - (a.next + a.value)
                  && ReadLength(s, s[p] % 16, a.next + a.value + offBytes, false).Extension?
                  && t.next == ReadLength(s, s[p] % 16, a.next + a.value + offBytes, false).next)
  {
    hide ReadLength, LittleEndian;
  }

  /** What is taken out of tokens that parse are the literals of their sequences; nothing else is lost. */
  lemma {:induction false} ExtractParsed(s: seq<Byte>, p: nat, offBytes: nat, minMatch: nat)
    requires p <= |s| && ParseTokens(s, p, offBytes, minMatch, false).Parsed?
    ensures var e := Extract(s, p, offBytes);
            && e.Split? && e.lits == SeqParse.Literals(ParseTokens(s, p, offBytes, minMatch, false).seqs)
            && |e.lits| + |e.stripped| == |s| - p
    decreases |s| - p
  {
    hide ReadLength, Extract, ReadToken, SeqParse.Literals;
    if p == |s| {
      ExtractEnd(s, p, offBytes);
      NoLiterals();
    } else {
      ExtractStep(s, p, offBytes);
      ReadTokenIs(s, p, offBytes, minMatch);
      match ReadToken(s, p, offBytes, minMatch, false) {
        case BadToken =>
        case LastToken(lits) =>
          FirstLiterals(Sequence(lits, 0, 0), []);
          NoLiterals();
          assert [Sequence(lits, 0, 0)] + [] == [Sequence(lits, 0, 0)];
        case FullToken(lits, offset, matchLen, next) =>
          ExtractParsed(s, next, offBytes, minMatch);
          FirstLiterals(Sequence(lits, matchLen, offset), ParseTokens(s, next, offBytes, minMatch, false).seqs);
      }
    }
  }

  lemma NoLiterals()
    ensures SeqParse.Literals([]) == []
  {
  }

  lemma FirstLiterals(one: Sequence, rest: seq<Sequence>)
    ensures SeqParse.Literals([one] + rest) == one.lits + SeqParse.Literals(rest)
  {
    SeqParse.LiteralsFront([one] + rest);
    assert ([one] + rest)[1..] == rest;
  }

  /** `extract_literals`, up to `litCap` literals. */
  method ExtractLiterals(s: seq<Byte>, offBytes: nat, litCap: nat) returns (r: Split)
    ensures r.Split? ==> r == Extract(s, 0, offBytes) && |r.lits| <= litCap
    ensures r.NoSplit? ==> Extract(s, 0, offBytes).NoSplit? || |Extract(s, 0, offBytes).lits| > litCap
  {
    hide Extract, ReadLength, Joined;
    var lits, stripped, p: nat := [], [], 0;
    ghost var goal := Extract(s, 0, offBytes);
    JoinedNone(goal);
    while p < |s|
      invariant goal == Joined(lits, stripped, Extract(s, p, offBytes)) && |lits| <= litCap
      decreases |s| - p
    {
      ExtractStep(s, p, offBytes);
      JoinedParts(lits, stripped, Extract(s, p, offBytes));
      var a := SeqParse.ReadLen(s, s[p] / 16, p + 1);
      if a.NoExtension? || a.value > |s| - a.next {
        return NoSplit;
      }
      var p2 := a.next + a.value;
      if |lits| + a.value > litCap {
        ManyLiterals(s, p, offBytes, a, p2);
        return NoSplit;
      }
      if p2 == |s| {
        return Split(lits + s[a.next..p2], stripped + s[p..a.next]);
      }
      if offBytes > |s| - p2 {
        return NoSplit;
      }
      var b := SeqParse.ReadLen(s, s[p] % 16, p2 + offBytes);
      if b.NoExtension? {
        return NoSplit;
      }
      JoinedTwice(lits, stripped, s[a.next..p2], s[p..a.next] + s[p2..b.next], Extract(s, b.next, offBytes));
      lits, stripped := lits + s[a.next..p2], stripped + (s[p..a.next] + s[p2..b.next]);
      p := b.next;
    }
    ExtractEnd(s, p, offBytes);
    r := Split(lits, stripped);
  }

  lemma ManyLiterals(s: seq<Byte>, p: nat, offBytes: nat, a: Extension, p2: nat)
    requires p < |s| && a == ReadLength(s, s[p] / 16, p + 1, false) && a.Extension?
    requires a.value <= |s| - a.next && p2 == a.next + a.value
    ensures Extract(s, p, offBytes).Split? ==> |Extract(s, p, offBytes).lits| >= a.value
  {
    hide ReadLength, Extract, Joined;
    ExtractStep(s, p, offBytes);
    if p2 < |s| && offBytes <= |s| - p2 && ReadLength(s, s[p] % 16, p2 + offBytes, false).Extension? {
      var b := ReadLength(s, s[p] % 16, p2 + offBytes, false);
      JoinedParts(s[a.next..p2], s[p..a.next] + s[p2..b.next], Extract(s, b.next, offBytes));
    }
  }

  lemma JoinedNone(r: Split)
    ensures Joined([], [], r) == r
  {
  }

  lemma ExtractEnd(s: seq<Byte>, p: nat, offBytes: nat)
    requires p >= |s|
    ensures Extract(s, p, offBytes) == Split([], [])
    ensures forall lits: seq<Byte>, stripped: seq<Byte> :: Joined(lits, stripped, Split([], [])) == Split(lits, stripped)
  {
    assert forall x: seq<Byte> :: x + [] == x;
  }

  datatype Coded = NotCoded | Coded(kind: Kind, count: nat, enc: seq<Byte>, stripped: seq<Byte>)

  /** Four lanes exactly when they are accepted, else one state exactly when that is, else nothing. */
  ghost predicate Picks(lits: seq<Byte>, cap: nat, r: Coded) {
    if r.Coded? && r.kind.Ans4? then AnsLanes.LanesAccounts(lits, cap, true, |r.enc|)
    else
      && (exists size :: AnsLanes.LanesAccounts(lits, cap, false, size))
      && if r.Coded? then r.kind.Ans? && AnsSingle.Accounts(lits, cap, true, |r.enc|)
         else exists size :: AnsSingle.Accounts(lits, cap, false, size)
  }

  /** The literal path of a block: four lanes if that is shorter than the literals, else one state. */
  method EncodeLiterals(tokens: seq<Byte>, offBytes: nat, litCap: nat, cap: nat) returns (r: Coded)
    requires litCap <= LitCoders.MAX_LITERALS
    ensures r.Coded? ==>
              var e := Extract(tokens, 0, offBytes);
              && e.Split? && r.stripped == e.stripped && r.count == |e.lits| <= litCap && |r.enc| < r.count
              && Codes(r.kind, r.enc, e.lits) && (r.kind.Ans4? ==> AnsLanes.EncodesLanes(e.lits, r.enc))
    ensures var e := Extract(tokens, 0, offBytes);
            e.Split? && 0 < |e.lits| <= litCap ==> Picks(e.lits, cap, r)
  {
    hide Extract, LitCoders.DecodeLits, AnsLanes.LanesAccounts, AnsSingle.Accounts, AnsLanes.EncodesLanes;
    var e := ExtractLiterals(tokens, offBytes, litCap);
    if e.NoSplit? || |e.lits| == 0 {
      return NotCoded;
    }
    var t := LitCoders.Try(LitCoders.ANS4, e.lits, cap);
    if t.Coded? {
      return Coded(Ans4, |e.lits|, t.enc, e.stripped);
    }
    t := LitCoders.Try(LitCoders.ANS1, e.lits, cap);
    if t.Coded? {
      return Coded(Ans, |e.lits|, t.enc, e.stripped);
    }
    r := NotCoded;
  }

  //////////////////////////////////////////////////////////////////////////////
  // Decoding
  //////////////////////////////////////////////////////////////////////////////

  method ReadKind(k: Kind, enc: seq<Byte>, n: nat) returns (r: LitCoders.Lits)
    ensures r == DecodeKind(k, enc, n)
  {
    hide LitCoders.DecodeLits, CtxFrame.DecodeBytes;
    match k {
      case Huffman => r := LitCoders.ReadLits(LitCoders.HUFFMAN, enc, n);
      case Ans => r := LitCoders.ReadLits(LitCoders.ANS1, enc, n);
      case Ans4 => r := LitCoders.ReadLits(LitCoders.ANS4, enc, n);
      case Ctx =>
        var dst := new Byte[n](_ => 0);
        var status, _ := CtxFrame.VvaDecodeContexts(enc, dst, n);
        r := if status.Ok? then LitCoders.Lits(dst[..n]) else LitCoders.NoLits;
    }
  }

  /** The match of one token, behind its literals. */
  method TakeStripped(w: seq<Byte>, nibble: nat, q1: nat, ghost lits: seq<Byte>, buf: array<Byte>, op: nat, limit: nat,
                      maxOffset: nat, offBytes: nat, tier: Tier) returns (o: Outcome, next: nat, end: nat)
    requires q1 < |w| && op <= limit <= buf.Length && 2 <= offBytes <= 3
    modifies buf
    ensures !o.BadRun? && op <= end <= limit && buf[limit..] == old(buf[limit..]) && buf[..op] == old(buf[..op])
    ensures o.Bad? ==> AfterLits(w, nibble, q1, lits, old(buf[..op]), limit, maxOffset, offBytes) == BlockError(o.error)
    ensures o.Fine? ==>
              && q1 < next <= |w|
              && AfterLits(w, nibble, q1, lits, old(buf[..op]), limit, maxOffset, offBytes) ==
                 DecodeStripped(w, next, lits, buf[..end], limit, maxOffset, offBytes)
  {
    hide ReadLength, DecodeStripped, Copied, LittleEndian, Copy;
    next, end := q1, op;
    if offBytes > |w| - q1 {
      return Bad(Corrupt), next, end;
    }
    var offset := SeqParse.ReadOffset(w, q1, offBytes);
    var b := ReadStrictLen(w, nibble, q1 + offBytes);
    if b.NoExtension? {
      return Bad(Corrupt), next, end;
    }
    var len := b.value + VV_MIN_MATCH;
    if offset == 0 || offset > maxOffset || offset > op {
      return Bad(Corrupt), next, end;
    }
    if len > limit - op {
      return Bad(Overflow), next, end;
    }
    ghost var before := buf[..];
    CopyMatch(tier, buf, op, offset, len);
    CopiedWider(before, buf[..], op, offset, len, op + len, limit);
    CopiedMeans(before, buf[..], op, offset, len, limit);
    next, end := b.next, op + len;
    assert buf[..end] == buf[..][..end] && buf[..op] == buf[..][..op] && before[..op] == old(buf[..op]);
    assert buf[limit..] == buf[..][limit..] && before[limit..] == old(buf[limit..]);
    o := Fine;
  }

  /** `decode_stripped_tokens_impl`. */
  method DecodeStrippedTokens(w: seq<Byte>, lits: seq<Byte>, buf: array<Byte>, start: nat, cap: nat, maxOffset: nat, offBytes: nat,
                              tier: Tier) returns (o: Outcome, end: nat)
    requires start + cap <= buf.Length && 2 <= offBytes <= 3
    modifies buf
    ensures !o.BadRun? && start <= end <= start + cap
    ensures buf[start + cap..] == old(buf[start + cap..]) && buf[..start] == old(buf[..start])
    ensures DecodeStripped(w, 0, lits, old(buf[..start]), start + cap, maxOffset, offBytes) ==
            if o.Fine? then BlockOk(buf[..end]) else BlockError(o.error)
  {
    hide ReadLength, DecodeStripped, AfterLits;
    ghost var goal := DecodeStripped(w, 0, lits, buf[..start], start + cap, maxOffset, offBytes);
    var q: nat, pos, limit := 0, 0, start + cap;
    end := start;
    assert lits[0..] == lits;
    while q < |w|
      invariant q <= |w| && pos <= |lits| && start <= end <= limit
      invariant buf[limit..] == old(buf[limit..]) && buf[..start] == old(buf[..start])
      invariant goal == DecodeStripped(w, q, lits[pos..], buf[..end], limit, maxOffset, offBytes)
      decreases |w| - q
    {
      StrippedStep(w, q, lits[pos..], buf[..end], limit, maxOffset, offBytes);
      var a := ReadStrictLen(w, w[q] / 16, q + 1);
      if a.NoExtension? || a.value > |lits| - pos {
        return Bad(Corrupt), end;
      }
      if a.value > limit - end {
        return Bad(Overflow), end;
      }
      ghost var was := end;
      PutLits(buf, end, lits, pos, a.value, start, limit);
      assert lits[pos..][a.value..] == lits[pos + a.value..] && lits[pos..][..a.value] == lits[pos..pos + a.value];
      pos, end := pos + a.value, end + a.value;
      if a.next >= |w| {
        RunEnds(w, w[q] % 16, a.next, lits[pos..], buf[..end], limit, maxOffset, offBytes);
        return Fine, end;
      }
      was := end;
      o, q, end := TakeStripped(w, w[q] % 16, a.next, lits[pos..], buf, end, limit, maxOffset, offBytes, tier);
      assert buf[..start] == buf[..was][..start];
      if !o.Fine? {
        return;
      }
    }
    StrippedEnds(w, q, lits[pos..], buf[..end], limit, maxOffset, offBytes);
    o := Fine;
  }

  lemma RunEnds(w: seq<Byte>, nibble: nat, q1: nat, lits: seq<Byte>, out: seq<Byte>, limit: nat, maxOffset: nat, offBytes: nat)
    requires |out| <= limit && q1 == |w|
    ensures AfterLits(w, nibble, q1, lits, out, limit, maxOffset, offBytes) == BlockOk(out)
  {
  }

  lemma StrippedEnds(w: seq<Byte>, q: nat, lits: seq<Byte>, out: seq<Byte>, limit: nat, maxOffset: nat, offBytes: nat)
    requires |out| <= limit && q >= |w|
    ensures DecodeStripped(w, q, lits, out, limit, maxOffset, offBytes) == BlockOk(out)
  {
  }

  method PutLits(buf: array<Byte>, op: nat, lits: seq<Byte>, pos: nat, n: nat, start: nat, limit: nat)
    requires pos + n <= |lits| && start <= op && op + n <= limit <= buf.Length
    modifies buf
    ensures buf[..op + n] == old(buf[..op]) + lits[pos..pos + n]
    ensures buf[..start] == old(buf[..start]) && buf[limit..] == old(buf[limit..])
  {
    ghost var before := buf[..];
    StoreBytes(buf, op, lits[pos..pos + n]);
    assert buf[..op + n] == buf[..][..op + n] && buf[..start] == buf[..][..start] == before[..start];
    TailFrom(buf[..], before, op + n, limit);
    assert buf[limit..] == buf[..][limit..] && before[limit..] == old(buf[limit..]);
  }

  /** A literal block, into `buf` from `start` on. */
  method DecodeLitBlock(k: Kind, data: seq<Byte>, buf: array<Byte>, start: nat, cap: nat, maxOffset: nat, offBytes: nat, tier: Tier)
    returns (o: Outcome, end: nat)
    requires start + cap <= buf.Length && 2 <= offBytes <= 3
    modifies buf
    ensures !o.BadRun? && start <= end <= start + cap
    ensures buf[start + cap..] == old(buf[start + cap..]) && buf[..start] == old(buf[..start])
    ensures DecodeBlock(k, data, old(buf[..start]), cap, maxOffset, offBytes) ==
            if o.Fine? then BlockOk(buf[..end]) else BlockError(o.error)
  {
    hide LittleEndian, DecodeKind, DecodeStripped;
    end := start;
    if |data| < 4 {
      return Bad(Corrupt), end;
    }
    var n, size := LittleEndian(data, 0, 2), LittleEndian(data, 2, 2);
    if 4 + size > |data| {
      return Bad(Corrupt), end;
    }
    var lits := ReadKind(k, data[4..4 + size], n);
    if lits.NoLits? {
      return Bad(Corrupt), end;
    }
    o, end := DecodeStrippedTokens(data[4 + size..], lits.bytes, buf, start, cap, maxOffset, offBytes, tier);
  }
}
