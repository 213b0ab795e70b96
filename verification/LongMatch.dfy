/** Token streams the sequence coder accepts (`SeqFrame.EncodePayload`) but does not carry: one literal, then a match of offset 1 that is
    longer than the match-length code reaches. */
module LongMatch {
  import opened Bits
  import opened Bytes
  import opened Lz
  import opened SeqCodec
  import opened SeqCodes
  import SeqFrame
  import opened SeqParse
  import opened Tokens

  function Long(b: Byte, n: nat): seq<Sequence> {
    [Sequence([b], n, 1), Sequence([], 0, 0)]
  }

  function LongTokens(b: Byte, n: nat, offBytes: nat, minMatch: nat): seq<Byte> {
    TokenStream(Long(b, n), offBytes, minMatch)
  }

  /** The stream is well formed, and the parser accepts it. */
  lemma LongParses(b: Byte, n: nat, offBytes: nat, minMatch: nat)
    requires 2 <= offBytes <= 3 && 0 < minMatch <= n
    ensures ParseTokens(LongTokens(b, n, offBytes, minMatch), 0, offBytes, minMatch, false) == Parsed(Long(b, n))
    ensures Emittable(Long(b, n), offBytes, minMatch) && Acceptable(Parsed(Long(b, n)))
  {
    hide TokenStream, ParseTokens, Pow2;
    assert Pow2(8 * offBytes) > 1 by { OneFits(offBytes); }
    var s := LongTokens(b, n, offBytes, minMatch);
    assert s[0..|s|] == s;
    ParseEmitted(s, 0, Long(b, n), offBytes, minMatch, false);
  }

  lemma OneFits(offBytes: nat)
    requires 2 <= offBytes
    ensures Pow2(8 * offBytes) > 1
  {
    Pow2Monotone(1, 8 * offBytes);
    assert Pow2(1) == 2;
  }

  /** As plain tokens it decodes, to `n + 1` equal bytes. */
  lemma LongDecodes(b: Byte, n: nat, offBytes: nat, minMatch: nat, hist: seq<Byte>, cap: nat, maxOffset: nat)
    requires 2 <= offBytes <= 3 && 0 < minMatch <= n < cap && maxOffset > 0
    ensures DecodeTokens(LongTokens(b, n, offBytes, minMatch), 0, hist, |hist| + cap, maxOffset, offBytes, minMatch) ==
            BlockOk(Copy(hist + [b], 1, n))
  {
    hide TokenStream, DecodeTokens, Copy, Emittable;
    LongParses(b, n, offBytes, minMatch);
    var last := [Sequence([], 0, 0)];
    DenoteNone(Copy(hist + [b], 1, n) + [], maxOffset);
    assert Copy(hist + [b], 1, n) + [] == Copy(hist + [b], 1, n);
    DenoteOne(Copy(hist + [b], 1, n), last[0], [], maxOffset);
    assert last + [] == last && [last[0]] + [] == last;
    DenoteOne(hist, Sequence([b], n, 1), last, maxOffset);
    assert [Sequence([b], n, 1)] + last == Long(b, n);
    DecodeEmitted(Long(b, n), hist, |hist| + cap, maxOffset, offBytes, minMatch);
  }

  /** No payload that carries it decodes to the same bytes once the match is too long for the wire, and up to there
      every one does. */
  lemma LongMatchLost(b: Byte, n: nat, offBytes: nat, base: seq<nat>, bytes: seq<Byte>, rest: seq<Byte>, hist: seq<Byte>, cap: nat,
                      maxOffset: nat, junk: nat -> Byte)
    requires IsMlBase(base) && |base| == 36 && base[0] > 0
    requires 2 <= offBytes <= 3 && base[0] <= n < cap && 0 < maxOffset <= 0x100_0000
    requires SeqFrame.Carries(bytes, base, Entries(Long(b, n)))
    ensures SeqFrame.DecodeBlock(bytes + rest, base, hist, cap, maxOffset, junk) == BlockOk(Copy(hist + [b], 1, n))
            <==> n < base[0] + 65532
  {
    hide ParseTokens, DecodeTokens, Copy, TokenStream, MlBase, MlBaseV2, Entries, SeqFrame.Carries, SeqFrame.DecodeBlock;
    LongParses(b, n, offBytes, base[0]);
    LongDecodes(b, n, offBytes, base[0], hist, cap, maxOffset);
    SeqFrame.PayloadDecodes(LongTokens(b, n, offBytes, base[0]), offBytes, base, bytes, rest, hist, cap, maxOffset, junk);
    assert CarriableLengths(base, Long(b, n)) <==> n < base[0] + 65532 by { OneLength(b, n, base); }
  }

  lemma OneLength(b: Byte, n: nat, base: seq<nat>)
    requires |base| == 36 && base[0] <= n && n > 0
    ensures CarriableLengths(base, Long(b, n)) <==> n < base[0] + 65532
  {
    assert Long(b, n)[0].matchLen == n;
  }
}
