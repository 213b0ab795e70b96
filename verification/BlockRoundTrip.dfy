/** A block through the whole chain: parser, token stream, sequence coder, decoder. */
module BlockRoundTrip {
  import opened Bytes
  import opened GreedyParse
  import opened Lz
  import opened MatchFinder
  import opened OptimalParse
  import opened SeqCodec
  import opened SeqCodes
  import opened SeqEncode
  import opened SeqParse

  /** A token block from either parser, sequence-coded, decodes to the block. The matcher's length
      cap (65535 with minimum 4, 65534 with minimum 3) is just what the wire carries. */
  lemma ParsedBlockThroughSequences(block: seq<Byte>, data: seq<Byte>, start: nat, end: nat, seqs: seq<Sequence>, wlog: nat,
                                    base: seq<nat>, img: SeqImage, maxOffset: nat)
    requires IsMlBase(base) && Encodes(block, data, start, end, seqs, wlog, base[0] + 65531, base[0])
    requires Window(wlog) <= maxOffset && 0 < maxOffset <= 0x100_0000
    requires Acceptable(Parsed(seqs)) && EncodesSequences(img, base, Entries(seqs))
    ensures DecodeSequences(img, base, data[..start], end - start, maxOffset) == SeqOk(data[..end])
  {
    hide Window, EncodesSequences, DecodeSequences, DecodeTokens, ParseTokens, Entries, Acceptable, MlBase, MlBaseV2;
    var offBytes := OffBytes(wlog);
    LadderMl(base);
    EncodedBlockDecodes(block, data, start, end, seqs, wlog, base[0] + 65531, base[0], end, maxOffset);
    StrictParse(block, 0, offBytes, base[0]);
    assert CarriableLengths(base, seqs);
    TokensThroughSequences(block, offBytes, base, img, data[..start], end - start, maxOffset);
  }

  lemma {:induction false} OpsFrom(base: seq<nat>, rep: Rep, a: seq<Sequence>, b: seq<Sequence>)
    requires |base| == 36
    ensures SeqOps(base, rep, a + b) == SeqOps(base, rep, a) + SeqOps(base, HistoryFrom(rep, a), b)
    decreases |a|
  {
    hide SequenceOps;
    if a == [] {
      assert a + b == b;
    } else {
      assert (a + b)[1..] == a[1..] + b;
      OpsFrom(base, NextRep(rep, a[0]), a[1..], b);
    }
  }

  /** The offset history after some sequences, from the front. */
  function HistoryFrom(rep: Rep, seqs: seq<Sequence>): Rep
    decreases |seqs|
  {
    if seqs == [] then rep else HistoryFrom(NextRep(rep, seqs[0]), seqs[1..])
  }

  lemma {:induction false} HistoryLast(rep: Rep, seqs: seq<Sequence>, one: Sequence)
    ensures HistoryFrom(rep, seqs + [one]) == NextRep(HistoryFrom(rep, seqs), one)
    decreases |seqs|
  {
    if seqs == [] {
      assert seqs + [one] == [one];
    } else {
      assert (seqs + [one])[1..] == seqs[1..] + [one];
      HistoryLast(NextRep(rep, seqs[0]), seqs[1..], one);
    }
  }

  /** The offsets of the matches, each run of equal ones once. */
  function OffsetRuns(seqs: seq<Sequence>): seq<nat> {
    if seqs == [] then []
    else
      var runs, s := OffsetRuns(seqs[..|seqs| - 1]), seqs[|seqs| - 1];
      if s.matchLen == 0 || (runs != [] && runs[|runs| - 1] == s.offset) then runs else runs + [s.offset]
  }

  function FromEnd(runs: seq<nat>, k: nat): nat {
    if 1 <= k <= |runs| then runs[|runs| - k] else 0
  }

  /** The history holds the offsets of the last three runs, the latest first. */
  lemma {:induction false} HistoryIsLastRuns(seqs: seq<Sequence>)
    requires forall i :: 0 <= i < |seqs| && seqs[i].matchLen > 0 ==> seqs[i].offset > 0
    ensures var runs := OffsetRuns(seqs);
            RepAfter(seqs) == Rep(FromEnd(runs, 1), FromEnd(runs, 2), FromEnd(runs, 3)) && forall i :: 0 <= i < |runs| ==> runs[i] > 0
    decreases |seqs|
  {
    if seqs != [] {
      HistoryIsLastRuns(seqs[..|seqs| - 1]);
    }
  }

  lemma {:induction false} SameHistory(seqs: seq<Sequence>)
    ensures RepAfter(seqs) == HistoryFrom(NO_REP, seqs)
    decreases |seqs|
  {
    if seqs != [] {
      var n := |seqs| - 1;
      SameHistory(seqs[..n]);
      HistoryLast(NO_REP, seqs[..n], seqs[n]);
      assert seqs[..n] + [seqs[n]] == seqs;
    }
  }

  /** The history the optimal parser prices a match against is the one under which the sequence
      coder writes it. */
  lemma PricedHistoryIsWireHistory(base: seq<nat>, seqs: seq<Sequence>, k: nat)
    requires |base| == 36 && k <= |seqs|
    ensures SeqOps(base, NO_REP, seqs) == SeqOps(base, NO_REP, seqs[..k]) + SeqOps(base, RepAfter(seqs[..k]), seqs[k..])
  {
    SameHistory(seqs[..k]);
    OpsFrom(base, NO_REP, seqs[..k], seqs[k..]);
    assert seqs[..k] + seqs[k..] == seqs;
  }
}
