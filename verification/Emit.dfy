/** One block of a frame, in any mode (`emit_block`, src/vv_encoder.c:1803-1985): the shortest of raw
    bytes, plain tokens, coded sequences and coded literals. */
module Emit {
  import AnsLanes
  import AnsSingle
  import opened BlockDecode
  import opened Blocks
  import opened Bytes
  import opened Choices
  import Codecs
  import EvenCounts
  import opened Frame
  import opened GreedyParse
  import LateLiterals
  import LateMatch
  import LitBlock
  import LitCoders
  import opened Lz
  import opened MatchFinder
  import OptimalParse
  import ParseLog
  import opened SeqCodec
  import opened SeqCodes
  import opened SeqEncode
  import SeqFrame
  import opened SeqParse
  import opened Tokens

  /** Does the block decode? Coded literals are counted in 16 bits: with more of them the block breaks
      the decoder, unless the size of their coding does not fit either and what it is cut to may still be read; then
      nothing is known. */
  datatype Fate = Sound | Broken16 | Unknown16

  /** The guard of the literal path, for a block of `size` bytes: the sequence coder refuses the parse, or what it
      makes is at least seven eighths of the content and not what is emitted, and the block is shorter than a
      plain one. */
  ghost predicate Open(s: Settings, j: Job, wlog: nat, tokens: seq<Byte>, size: nat)
    requires JobOkay(j)
  {
    && size < PlainSize(j, tokens)
    && var q := ParseTokens(tokens, 0, OffBytes(wlog), MinMatch(s), false);
       Acceptable(q) ==>
         |Codecs.BaseOf(s.v2)| == 36 && exists p :: Loses(s, j, tokens, Codecs.BaseOf(s.v2), Entries(q.seqs), p, size)
  }

  ghost predicate Loses(s: Settings, j: Job, tokens: seq<Byte>, base: seq<nat>, entries: seq<Sequence>, p: seq<Byte>, size: nat)
    requires JobOkay(j) && |base| == 36
  {
    && SeqFrame.Makes(p, base, entries, s.ans4Est(tokens))
    && 8 + |p| >= (|j.data| - j.start) * 7 / 8
    && (8 + |p| >= PlainSize(j, tokens) || 8 + |p| > size)
  }

  /** With this many literals in a coding of this size, the cut-off coding may still be read: it is not in four lanes,
      or the count is written as zero. */
  predicate Slips(k: LitBlock.Kind, count: nat, size: nat) {
    size > 0xFFFF && (!k.Ans4? || count % 0x1_0000 == 0)
  }

  /** The block is one of coded literals, for a parse of the job with more than 65535 of them. */
  ghost predicate LongLiterals(f: Info, s: Settings, j: Job, bytes: seq<Byte>, k: LitBlock.Kind, tokens: seq<Byte>, enc: seq<Byte>)
    requires JobOkay(j)
  {
    && s.mode != UltraFast && !s.v2 && ParseOf(j, s, f.wlog, tokens)
    && var e := LitBlock.Extract(tokens, 0, OffBytes(f.wlog));
       && e.Split? && CodedAs(k, enc, e.lits) && 0xFFFF < |e.lits| <= |j.data| - j.start
       && Open(s, j, f.wlog, tokens, 12 + |enc| + |e.stripped|)
       && bytes == LongBlock(Entropy, j.last, |j.data| - j.start, [LitTag(k)] + LitBlock.Pack(|e.lits|, enc, e.stripped))
  }

  /** Such a block, whose cut-off coding may still be read or not. */
  ghost predicate Overlong(f: Info, s: Settings, j: Job, bytes: seq<Byte>, slips: bool)
    requires JobOkay(j)
  {
    exists k, tokens, enc ::
      LongLiterals(f, s, j, bytes, k, tokens, enc)
      && (slips <==> Slips(k, |LitBlock.Extract(tokens, 0, OffBytes(f.wlog)).lits|, |enc|))
  }

  /** A sound block adds the job's bytes after any output that ends in what came before them. Only a block
      of too many coded literals is not sound, and only where the guard of the literal path is met. */
  ghost predicate Fulfils(c: Codec, f: Info, s: Settings, j: Job, bytes: seq<Byte>, fate: Fate)
    requires JobOkay(j)
  {
    match fate
    case Sound => Adds(c, f, bytes, j.last, j.data[..j.start], j.data[j.start..])
    case Broken16 => Breaks(c, f, bytes, j.data[..j.start], |j.data| - j.start) && Overlong(f, s, j, bytes, false)
    case Unknown16 => Overlong(f, s, j, bytes, true)
  }

  //////////////////////////////////////////////////////////////////////////////
  // Blocks emitted
  //////////////////////////////////////////////////////////////////////////////

  /** A block as it was emitted. */
  datatype Emission = Emission(job: Job, bytes: seq<Byte>, fate: Fate, choice: Choice)

  /** It does what its fate says, and is the winner of what was tried, unless it is the empty block at the end. */
  ghost predicate EmissionOkay(c: Codec, f: Info, s: Settings, e: Emission) {
    && JobOkay(e.job) && Fulfils(c, f, s, e.job, e.bytes, e.fate)
    && (e.job.start < |e.job.data| ==> Chosen(f.wlog, s, e.job, e.choice, e.bytes))
  }

  ghost predicate AllOkay(c: Codec, f: Info, s: Settings, es: seq<Emission>) {
    forall i :: 0 <= i < |es| ==> EmissionOkay(c, f, s, es[i])
  }

  function Content(e: Emission): seq<Byte> {
    if e.job.start <= |e.job.data| then e.job.data[e.job.start..] else []
  }

  /** What the blocks are for, and their bytes. */
  function Contents(es: seq<Emission>): seq<Byte> {
    if es == [] then [] else Contents(es[..|es| - 1]) + Content(es[|es| - 1])
  }

  function Image(es: seq<Emission>): seq<Byte> {
    if es == [] then [] else Image(es[..|es| - 1]) + es[|es| - 1].bytes
  }

  /** The fate of the first block that is not sound. */
  function Verdict(es: seq<Emission>): Fate {
    if es == [] then Sound
    else if Verdict(es[..|es| - 1]).Sound? then es[|es| - 1].fate
    else Verdict(es[..|es| - 1])
  }

  lemma EmissionNext(es: seq<Emission>, e: Emission)
    ensures Contents(es + [e]) == Contents(es) + Content(e) && Image(es + [e]) == Image(es) + e.bytes
    ensures Verdict(es + [e]) == if Verdict(es).Sound? then e.fate else Verdict(es)
  {
    assert (es + [e])[..|es|] == es;
  }

  /** The verdict is what happened to the first block that is not sound. */
  lemma {:induction false} VerdictFirst(es: seq<Emission>)
    ensures Verdict(es).Sound? <==> forall i :: 0 <= i < |es| ==> es[i].fate.Sound?
    ensures !Verdict(es).Sound? ==>
              exists i :: 0 <= i < |es| && es[i].fate == Verdict(es) && forall k :: 0 <= k < i ==> es[k].fate.Sound?
    decreases |es|
  {
    if es != [] {
      var n := |es| - 1;
      VerdictFirst(es[..n]);
      if Verdict(es[..n]).Sound? {
        assert forall k :: 0 <= k < n ==> es[k] == es[..n][k];
      } else {
        var i :| 0 <= i < n && es[..n][i].fate == Verdict(es[..n]) && forall k :: 0 <= k < i ==> es[..n][k].fate.Sound?;
        assert es[i] == es[..n][i];
        assert forall k :: 0 <= k < i ==> es[k] == es[..n][k];
      }
    }
  }

  /** Every block is sound in fast mode, in format v2, and when no block has more than 65535 bytes. */
  lemma CarefulSound(c: Codec, f: Info, s: Settings, es: seq<Emission>)
    requires AllOkay(c, f, s, es)
    requires s.mode == UltraFast || s.v2 || Small(es)
    ensures Verdict(es).Sound?
  {
    hide Adds, Breaks, ParseOf, LitBlock.Extract, LitBlock.Codes, Verdict, Chosen;
    forall i | 0 <= i < |es|
      ensures es[i].fate.Sound?
    {
      assert EmissionOkay(c, f, s, es[i]);
    }
    VerdictFirst(es);
  }

  //////////////////////////////////////////////////////////////////////////////
  // The decoder keeps up, or breaks
  //////////////////////////////////////////////////////////////////////////////

  /** After blocks of verdict `v`: a decoder is at rest with exactly `input`, or has broken. */
  ghost predicate Follows(c: Codec, room: nat, f: Info, frame: seq<Byte>, input: seq<Byte>, v: Fate) {
    && 10 <= f.wlog <= 24 && |input| <= room
    && (v.Sound? ==> Run(c, room, AtHeader, frame) == Rest(AtBlock(f, input), []))
    && (v.Broken16? ==> Run(c, room, AtHeader, frame).st.Broken?)
  }

  /** The same behind a block that may be the last. */
  ghost predicate FollowsBlock(c: Codec, room: nat, f: Info, frame: seq<Byte>, input: seq<Byte>, v: Fate, last: bool) {
    && 10 <= f.wlog <= 24 && |input| <= room
    && (v.Sound? ==> Run(c, room, AtHeader, frame) == Run(c, room, AfterBlock(c, f, last, input), []))
    && (v.Broken16? ==> Run(c, room, AtHeader, frame).st.Broken?)
  }

  lemma FollowsOn(c: Codec, room: nat, f: Info, frame: seq<Byte>, input: seq<Byte>, v: Fate)
    requires FollowsBlock(c, room, f, frame, input, v, false)
    ensures Follows(c, room, f, frame, input, v)
  {
    hide Run, AfterBlock;
    RestAtBlock(c, room, f, input);
  }

  /** One more block. */
  lemma TrackBlock(c: Codec, room: nat, f: Info, s: Settings, frame: seq<Byte>, input: seq<Byte>, es: seq<Emission>, e: Emission)
    requires Follows(c, room, f, frame, input, Verdict(es)) && EmissionOkay(c, f, s, e)
    requires EndsWith(input, e.job.data[..e.job.start]) && |input| + |Content(e)| <= room
    ensures FollowsBlock(c, room, f, frame + e.bytes, input + Content(e), Verdict(es + [e]), e.job.last)
  {
    hide Run, AfterBlock, Adds, Breaks, EndsWith, Overlong, Verdict, Chosen;
    var hist := e.job.data[..e.job.start];
    EmissionNext(es, e);
    if Verdict(es).Sound? {
      match e.fate {
        case Sound => BlockRun(c, room, f, frame, e.bytes, e.job.last, input, hist, Content(e));
        case Broken16 => BreakRun(c, room, f, frame, e.bytes, input, hist, |Content(e)|);
        case Unknown16 =>
      }
    } else if Verdict(es).Broken16? {
      BrokenStays(c, room, frame, e.bytes);
    }
  }

  /** `frame` is a header and blocks, which are for `input`. */
  ghost predicate Framing(c: Codec, f: Info, s: Settings, header: seq<Byte>, frame: seq<Byte>, input: seq<Byte>, es: seq<Emission>) {
    frame == header + Image(es) && Contents(es) == input && AllOkay(c, f, s, es)
  }

  lemma NoEmissions(c: Codec, f: Info, s: Settings, header: seq<Byte>)
    ensures Framing(c, f, s, header, header, [], []) && Verdict([]) == Sound
  {
    assert header + [] == header;
  }

  lemma RestFollows(c: Codec, room: nat, f: Info, frame: seq<Byte>, input: seq<Byte>, v: Fate)
    requires Follows(c, room, f, frame, input, v)
    ensures FollowsBlock(c, room, f, frame, input, v, false)
  {
    hide Run, AfterBlock;
    RestAtBlock(c, room, f, input);
  }

  lemma ContentIs(e: Emission, start: nat, chunk: seq<Byte>)
    requires e.job.start == start <= |e.job.data| && e.job.data[start..] == chunk
    ensures Content(e) == chunk
  {
  }

  /** One more block in a frame. */
  lemma AddBlock(c: Codec, room: nat, f: Info, s: Settings, header: seq<Byte>, frame: seq<Byte>, input: seq<Byte>, es: seq<Emission>,
                 e: Emission)
    requires Framing(c, f, s, header, frame, input, es) && EmissionOkay(c, f, s, e)
    requires Follows(c, room, f, frame, input, Verdict(es))
    requires EndsWith(input, e.job.data[..e.job.start]) && |input| + |Content(e)| <= room
    ensures Framing(c, f, s, header, frame + e.bytes, input + Content(e), es + [e])
    ensures FollowsBlock(c, room, f, frame + e.bytes, input + Content(e), Verdict(es + [e]), e.job.last)
  {
    hide Follows, FollowsBlock, EmissionOkay, EndsWith, Verdict, Content;
    TrackBlock(c, room, f, s, frame, input, es, e);
    EmissionNext(es, e);
    assert header + Image(es + [e]) == frame + e.bytes;
  }

  /** The empty block that ends a frame. */
  lemma EmptyEmission(c: Codec, f: Info, s: Settings, input: seq<Byte>) returns (e: Emission)
    requires 10 <= f.wlog <= 24
    ensures EmissionOkay(c, f, s, e) && Content(e) == [] && e.bytes == RawBlock(true, []) && e.job == Job([], 0, true)
    ensures e.job.start <= |e.job.data| && EndsWith(input, e.job.data[..e.job.start]) && e.fate.Sound?
  {
    hide Adds, RawBlock;
    e := Emission(Job([], 0, true), RawBlock(true, []), Sound, Choice([], SeqFrame.NoPayload, LitBlock.NotCoded, 0, 0, 0));
    RawAdds(c, f, true, [], []);
  }

  /** No block has more than 65535 bytes. */
  ghost predicate Small(es: seq<Emission>) {
    forall i :: 0 <= i < |es| ==> |Content(es[i])| <= 0xFFFF
  }

  lemma NoneBig()
    ensures Small([])
  {
  }

  lemma SmallSound(c: Codec, f: Info, s: Settings, header: seq<Byte>, frame: seq<Byte>, input: seq<Byte>, es: seq<Emission>)
    requires Framing(c, f, s, header, frame, input, es)
    requires s.mode == UltraFast || s.v2 || Small(es)
    ensures Verdict(es).Sound?
  {
    hide AllOkay, Verdict, Content;
    CarefulSound(c, f, s, es);
  }

  /** Nothing, or the hash of what the blocks are for. */
  function Footer(c: Codec, f: Info, input: seq<Byte>): seq<Byte> {
    if f.checksum then FooterBytes(Hash64(c, input)) else []
  }

  /** A complete frame: a header, blocks for `input`, and the footer. A decoder is done, with exactly the
      input unfiltered, if every block is sound; it has broken if the first that is not is a broken one. */
  ghost predicate Complete(c: Codec, room: nat, f: Info, s: Settings, header: seq<Byte>, frame: seq<Byte>, input: seq<Byte>,
                           es: seq<Emission>)
  {
    var n := |Footer(c, f, input)|;
    && 10 <= f.wlog <= 24 && n <= |frame| && frame[|frame| - n..] == Footer(c, f, input)
    && Framing(c, f, s, header, frame[..|frame| - n], input, es)
    && (Verdict(es).Sound? ==> Run(c, room, AtHeader, frame) == Rest(Done(Unfilter(f, input)), []))
    && (Verdict(es).Broken16? ==> Run(c, room, AtHeader, frame).st.Broken?)
  }

  /** The end of a frame. */
  lemma EndFrame(c: Codec, room: nat, f: Info, s: Settings, header: seq<Byte>, body: seq<Byte>, input: seq<Byte>, es: seq<Emission>)
    requires Framing(c, f, s, header, body, input, es) && FollowsBlock(c, room, f, body, input, Verdict(es), true)
    ensures Complete(c, room, f, s, header, body + Footer(c, f, input), input, es)
  {
    hide Run, AfterBlock, FooterBytes, Hash64, Unfilter, Framing, Verdict;
    var frame := body + Footer(c, f, input);
    assert frame[..|body|] == body;
    if Verdict(es).Sound? {
      if f.checksum {
        FooterRun(c, room, f, body, input);
      } else {
        UncheckedEnd(c, room, f, input);
        assert body + [] == body;
      }
    } else if Verdict(es).Broken16? {
      BrokenStays(c, room, body, Footer(c, f, input));
    }
  }

  /** What both decoders make of a complete frame. */
  lemma AtOnce(c: Codec, room: nat, frame: seq<Byte>, out: seq<Byte>, v: Fate)
    requires v.Sound? ==> Run(c, room, AtHeader, frame) == Rest(Done(out), [])
    requires v.Broken16? ==> Run(c, room, AtHeader, frame).st.Broken?
    ensures v.Sound? ==> Decompress(c, room, frame) == Success(out)
    ensures v.Sound? ==> forall pieces: seq<seq<Byte>> :: Joined(pieces) == frame ==>
              FeedAll(c, room, Rest(AtHeader, []), pieces).st == Done(out)
    ensures v.Broken16? ==> Decompress(c, room, frame).Failure?
    ensures v.Broken16? ==> forall pieces: seq<seq<Byte>> :: Joined(pieces) == frame ==>
              FeedAll(c, room, Rest(AtHeader, []), pieces).st.Broken?
  {
    hide Run, Decompress, FeedAll, Joined;
    if v.Sound? {
      FinishedFrame(c, room, frame, out);
      forall pieces: seq<seq<Byte>> | Joined(pieces) == frame
        ensures FeedAll(c, room, Rest(AtHeader, []), pieces).st == Done(out)
      {
        ChunkedFrame(c, room, pieces);
      }
    } else if v.Broken16? {
      BrokenFrame(c, room, frame, []);
      forall pieces: seq<seq<Byte>> | Joined(pieces) == frame
        ensures FeedAll(c, room, Rest(AtHeader, []), pieces).st.Broken?
      {
        BrokenFrame(c, room, frame, pieces);
      }
    }
  }

  /** Decoding a complete frame, at once or in any pieces: it gives the input unfiltered if every block is
      sound, as every block is in fast mode, in format v2, and when none has more than 65535 bytes; it fails if
      the first block that is not sound is a broken one. */
  lemma CompleteMeans(c: Codec, room: nat, f: Info, s: Settings, header: seq<Byte>, frame: seq<Byte>, input: seq<Byte>,
                      es: seq<Emission>)
    requires Complete(c, room, f, s, header, frame, input, es)
    ensures var out := Unfilter(f, input);
            Verdict(es).Sound? ==>
              && Decompress(c, room, frame) == Success(out)
              && forall pieces: seq<seq<Byte>> :: Joined(pieces) == frame ==>
                   FeedAll(c, room, Rest(AtHeader, []), pieces).st == Done(out)
    ensures Verdict(es).Broken16? ==>
              && Decompress(c, room, frame).Failure?
              && forall pieces: seq<seq<Byte>> :: Joined(pieces) == frame ==>
                   FeedAll(c, room, Rest(AtHeader, []), pieces).st.Broken?
    ensures s.mode == UltraFast || s.v2 || Small(es) ==> Verdict(es).Sound?
  {
    hide Run, Decompress, FeedAll, Joined, Unfilter, Framing, Verdict, Small, Footer;
    AtOnce(c, room, frame, Unfilter(f, input), Verdict(es));
    if s.mode == UltraFast || s.v2 || Small(es) {
      SmallSound(c, f, s, header, frame[..|frame| - |Footer(c, f, input)|], input, es);
    }
  }

  //////////////////////////////////////////////////////////////////////////////
  // Tokens
  //////////////////////////////////////////////////////////////////////////////

  /** In balanced mode, without format v2: a block whose literal path will be taken, and break. */
  ghost predicate Spoils(s: Settings, j: Job) {
    s.mode == Balanced && !s.v2 && LateLiterals.Spoiling(j.data, j.start, |j.data|)
  }

  /** The parse has its first match late. */
  ghost predicate Trapped(s: Settings, j: Job, wlog: nat, tokens: seq<Byte>)
    requires JobOkay(j)
  {
    && Spoils(s, j) && |tokens| <= LateMatch.Room(|j.data| - j.start, 0) + 200
    && exists seqs, maxMatch: nat ::
         ParsedAs(j, s, wlog, tokens, seqs, maxMatch) && LateMatch.CaughtLate(j.data, j.start, |j.data|, seqs)
  }

  /** Then the sequence coder refuses it, and its literals are many, but none of them is rare. */
  lemma TrappedMeans(s: Settings, j: Job, wlog: nat, tokens: seq<Byte>)
    requires JobOkay(j) && 10 <= wlog <= 24 && Trapped(s, j, wlog, tokens)
    ensures !Acceptable(ParseTokens(tokens, 0, OffBytes(wlog), MinMatch(s), false))
    ensures var e := LitBlock.Extract(tokens, 0, OffBytes(wlog));
            && e.Split? && |e.lits| + |e.stripped| == |tokens| && EvenCounts.Even(e.lits)
            && 0xFFFF < |e.lits| <= |j.data| - j.start < LateLiterals.SPOIL_SIZE
  {
    hide ParseTokens, DecodeTokens, Encodes, MaxOffset, LateMatch.Ends, LateMatch.CaughtLate, LateLiterals.Lasting, LitBlock.Extract,
      EvenCounts.Even, Literals;
    var seqs, maxMatch: nat :| ParsedAs(j, s, wlog, tokens, seqs, maxMatch) && LateMatch.CaughtLate(j.data, j.start, |j.data|, seqs);
    var hist, w := j.data[..j.start], MaxOffset(wlog);
    EncodedAs(tokens, j.data, j.start, |j.data|, seqs, wlog, maxMatch, MinMatch(s));
    EncodedBlockDecodes(tokens, j.data, j.start, |j.data|, seqs, wlog, maxMatch, MinMatch(s), |j.data|, w);
    DecodeTokensDenotes(tokens, 0, hist, |j.data|, w, OffBytes(wlog), MinMatch(s));
    StrictParse(tokens, 0, OffBytes(wlog), MinMatch(s));
    LateLiterals.LateParse(j.data, j.start, |j.data|, seqs, w);
    LitBlock.ExtractParsed(tokens, 0, OffBytes(wlog), MinMatch(s));
  }

  lemma EncodedAs(tokens: seq<Byte>, data: seq<Byte>, start: nat, end: nat, seqs: seq<Sequence>, wlog: nat, maxMatch: nat, minMatch: nat)
    requires Encodes(tokens, data, start, end, seqs, wlog, maxMatch, minMatch)
    ensures ParseTokens(tokens, 0, OffBytes(wlog), minMatch, true) == Lz.Parsed(seqs)
  {
    hide ParseTokens, DecodeTokens;
  }

  /** Four lanes are then accepted, and take fewer bytes than plain tokens; cut off, they are refused. */
  lemma TrappedCoded(lits: seq<Byte>, cap: nat, r: LitBlock.Coded)
    requires LitBlock.Picks(lits, cap, r) && EvenCounts.Even(lits)
    requires 0xFFFF < |lits| < LateLiterals.SPOIL_SIZE && |lits| <= cap
    ensures r.Coded? && 8 * |r.enc| <= 7 * |lits| + 4400 && !Slips(r.kind, |lits|, |r.enc|)
  {
    hide EvenCounts.Even, AnsLanes.LanesAccounts, AnsSingle.Accounts;
    if r.Coded? && r.kind.Ans4? {
      EvenCounts.EvenAccepted(lits, cap, true, |r.enc|);
    } else {
      var size :| AnsLanes.LanesAccounts(lits, cap, false, size);
      EvenCounts.EvenAccepted(lits, cap, false, size);
      assert false;
    }
  }

  /** The parser the mode calls for. */
  method ParseBlock(m: Matcher, s: Settings, j: Job, tmp: array<Byte>) returns (n: nat)
    requires Suits(m, s) && SettingsOkay(s) && JobOkay(j) && tmp !in m.Tables()
    modifies m, m.Tables(), tmp
    ensures Suits(m, s) && n <= tmp.Length
    ensures n > 0 ==> ParseOf(j, s, m.wlog, tmp[..n])
    ensures ParserMade(s, j, m.wlog, tmp.Length, tmp[..n])
    ensures Spoils(s, j) && m.Chains() && LateMatch.Room(|j.data| - j.start, 0) + 512 <= tmp.Length ==>
              0 < n && Trapped(s, j, m.wlog, tmp[..n])
  {
    hide Encodes, OptimalParse.Solved, OptimalParse.ParseCost, OptimalParse.NoRoom, LateMatch.Ends, LateMatch.CaughtLate,
      LateLiterals.Lasting, ParseLog.Log, GreedyParse.Whole, GreedyParse.GaveUp, TokenStream;
    ghost var seqs;
    if s.mode == Extreme && !s.v2 {
      var t := TaskOf(s, j, m.wlog);
      ghost var solution;
      n, seqs, solution := OptimalParse.CompressBlockOptimal(m, t, tmp);
      assert Optimal(s, j, m.wlog, tmp.Length, tmp[..n], seqs, solution);
    } else {
      ghost var rep := m.rep;
      ghost var turns;
      n, seqs, turns := CompressBlock(m, j.data, j.start, |j.data|, tmp, s.mode, MinMatch(s));
      assert Keeps(m, j.data, j.start, |j.data|, s.mode, MinMatch(s), tmp.Length, n, seqs);
      assert LimitsOf(m, s.mode, MinMatch(s), |j.data|) == LimitsFor(s, j, m.wlog);
      assert Greedy(s, j, m.wlog, tmp.Length, tmp[..n], seqs, rep, turns);
    }
    if n > 0 {
      assert ParsedAs(j, s, m.wlog, tmp[..n], seqs, m.maxMatch);
    }
  }

  /** After any output that ends in what came before the block, the tokens decode to the block. */
  lemma TokensMean(j: Job, s: Settings, wlog: nat, tokens: seq<Byte>, out: seq<Byte>)
    requires JobOkay(j) && 10 <= wlog <= 24 && ParseOf(j, s, wlog, tokens) && EndsWith(out, j.data[..j.start])
    ensures var block := j.data[j.start..];
            DecodeTokens(tokens, 0, out, |out| + |block|, MaxOffset(wlog), OffBytes(wlog), MinMatch(s)) == BlockOk(out + block)
  {
    hide Encodes, DecodeTokens, EndsWith, MaxOffset;
    var seqs, maxMatch: nat :| ParsedAs(j, s, wlog, tokens, seqs, maxMatch);
    EncodedBlockDecodes(tokens, j.data, j.start, |j.data|, seqs, wlog, maxMatch, MinMatch(s), |j.data|, MaxOffset(wlog));
    assert j.data[..|j.data|] == j.data[..j.start] + j.data[j.start..];
    TokensAfter(tokens, j.data[..j.start], j.data[j.start..], out, MaxOffset(wlog), OffBytes(wlog), MinMatch(s));
  }

  /** Every match length is one the wire carries. */
  lemma LengthsFit(j: Job, s: Settings, wlog: nat, tokens: seq<Byte>)
    requires JobOkay(j) && ParseOf(j, s, wlog, tokens)
    ensures var base := Codecs.BaseOf(s.v2);
            var q := ParseTokens(tokens, 0, OffBytes(wlog), MinMatch(s), false);
            IsMlBase(base) && base[0] == MinMatch(s) && q.Parsed? && CarriableLengths(base, q.seqs)
  {
    hide ParseTokens, DecodeTokens, MlBase, MlBaseV2;
    var seqs, maxMatch: nat :| ParsedAs(j, s, wlog, tokens, seqs, maxMatch);
    StrictParse(tokens, 0, OffBytes(wlog), MinMatch(s));
    BaseStarts(s);
  }

  lemma BaseStarts(s: Settings)
    ensures IsMlBase(Codecs.BaseOf(s.v2)) && |Codecs.BaseOf(s.v2)| == 36 && Codecs.BaseOf(s.v2)[0] == MinMatch(s)
  {
    assert MlBaseAt(0) == 4;
  }

  /** A block has no more literals than bytes. */
  lemma FewLiterals(j: Job, s: Settings, wlog: nat, tokens: seq<Byte>)
    requires JobOkay(j) && 10 <= wlog <= 24 && ParseOf(j, s, wlog, tokens)
    ensures var q := ParseTokens(tokens, 0, OffBytes(wlog), MinMatch(s), false);
            q.Parsed? && |Literals(Entries(q.seqs))| <= |j.data| - j.start
  {
    hide ParseTokens, DecodeTokens, MaxOffset, EndsWith, Entries, Denote, Valid, Literals, SeqCodec.Matches, ParseOf;
    var hist, cap := j.data[..j.start], |j.data| - j.start;
    HistoryEnds(hist);
    TokensMean(j, s, wlog, tokens, hist);
    DecodeTokensDenotes(tokens, 0, hist, |hist| + cap, MaxOffset(wlog), OffBytes(wlog), MinMatch(s));
    StrictParse(tokens, 0, OffBytes(wlog), MinMatch(s));
    var q := ParseTokens(tokens, 0, OffBytes(wlog), MinMatch(s), false);
    EntriesDenote(hist, q.seqs, MaxOffset(wlog));
    DenoteLength(hist, Entries(q.seqs), MaxOffset(wlog));
    LiteralsAtMost(Entries(q.seqs));
  }

  lemma HistoryEnds(hist: seq<Byte>)
    ensures EndsWith(hist, hist)
  {
    assert hist[0..] == hist;
  }

  //////////////////////////////////////////////////////////////////////////////
  // The kinds of block
  //////////////////////////////////////////////////////////////////////////////

  ghost predicate Genuine(c: Codec, junk: Codecs.Memory) {
    c == Codecs.Real(junk)
  }

  lemma PlainTokens(c: Codec, f: Info, s: Settings, j: Job, tokens: seq<Byte>)
    requires JobOkay(j) && 10 <= f.wlog <= 24 && ParseOf(j, s, f.wlog, tokens) && !s.v2 && |tokens| < 0x100_0000
    ensures Fulfils(c, f, s, j, LongBlock(Compressed, j.last, |j.data| - j.start, tokens), Sound)
  {
    hide ParseOf, DecodeTokens, MaxOffset, EndsWith, LongBlock, Adds;
    var hist, block := j.data[..j.start], j.data[j.start..];
    forall out: seq<Byte> | EndsWith(out, hist)
      ensures DecodePayload(c, f, BlockHeader(Compressed, j.last, |block|), tokens, out) == GoodPayload(block)
    {
      TokensMean(j, s, f.wlog, tokens, out);
      assert (out + block)[|out|..] == block;
    }
    LongAdds(c, f, Compressed, j.last, tokens, hist, block);
  }

  /** The entropy payload behind a tag, as the machine sees it. */
  lemma TaggedPayload(c: Codec, junk: Codecs.Memory, f: Info, last: bool, tag: Byte, data: seq<Byte>, out: seq<Byte>, block: seq<Byte>,
                      r: BlockResult)
    requires Genuine(c, junk) && 10 <= f.wlog <= 24
    requires r == Codecs.DecodeEntropy(junk, f, [tag] + data, out, |block|)
    ensures r == BlockOk(out + block) ==>
              DecodePayload(c, f, BlockHeader(Entropy, last, |block|), [tag] + data, out) == GoodPayload(block)
    ensures r.BlockError? ==> DecodePayload(c, f, BlockHeader(Entropy, last, |block|), [tag] + data, out).BadPayload?
  {
    hide Codecs.DecodeEntropy, Codecs.Real;
    Codecs.RealMeans(junk, f, [tag] + data, out, |block|);
    assert (out + block)[|out|..] == block;
  }

  lemma SequencesMean(junk: Codecs.Memory, f: Info, v2: bool, data: seq<Byte>, out: seq<Byte>, size: nat)
    requires 10 <= f.wlog <= 24
    ensures Codecs.DecodeEntropy(junk, f, [SeqTag(v2)] + data, out, size) ==
            SeqFrame.DecodeBlock(data, Codecs.BaseOf(v2), out, size, MaxOffset(f.wlog), junk([SeqTag(v2)] + data, out))
  {
    hide SeqFrame.DecodeBlock, LitBlock.DecodeBlock, MaxOffset, MlBase, MlBaseV2;
    assert ([SeqTag(v2)] + data)[1..] == data;
  }

  lemma LiteralsMean(junk: Codecs.Memory, f: Info, k: LitBlock.Kind, data: seq<Byte>, out: seq<Byte>, size: nat)
    requires 10 <= f.wlog <= 24
    ensures Codecs.DecodeEntropy(junk, f, [LitTag(k)] + data, out, size) ==
            LitBlock.DecodeBlock(k, data, out, size, MaxOffset(f.wlog), OffBytes(f.wlog))
  {
    hide SeqFrame.DecodeBlock, LitBlock.DecodeBlock, MaxOffset, MlBase, MlBaseV2;
    assert ([LitTag(k)] + data)[1..] == data;
  }

  /** The sequence path. */
  lemma CodedSequences(c: Codec, junk: Codecs.Memory, f: Info, s: Settings, j: Job, tokens: seq<Byte>, payload: seq<Byte>)
    requires Genuine(c, junk) && JobOkay(j) && 10 <= f.wlog <= 24 && ParseOf(j, s, f.wlog, tokens) && |payload| < 0xFF_FFFF
    requires |Codecs.BaseOf(s.v2)| == 36
    requires var q := ParseTokens(tokens, 0, OffBytes(f.wlog), MinMatch(s), false);
             Acceptable(q) && SeqFrame.Carries(payload, Codecs.BaseOf(s.v2), Entries(q.seqs))
    ensures Fulfils(c, f, s, j, LongBlock(Entropy, j.last, |j.data| - j.start, [SeqTag(s.v2)] + payload), Sound)
  {
    hide ParseOf, DecodeTokens, ParseTokens, MaxOffset, EndsWith, LongBlock, Adds, SeqFrame.Carries, SeqFrame.DecodeBlock, Entries,
      CarriableLengths, MlBase, MlBaseV2, DecodePayload, Codecs.DecodeEntropy, Genuine, Acceptable;
    var hist, block, base := j.data[..j.start], j.data[j.start..], Codecs.BaseOf(s.v2);
    LengthsFit(j, s, f.wlog, tokens);
    var body := [SeqTag(s.v2)] + payload;
    forall out: seq<Byte> | EndsWith(out, hist)
      ensures DecodePayload(c, f, BlockHeader(Entropy, j.last, |block|), body, out) == GoodPayload(block)
    {
      TokensMean(j, s, f.wlog, tokens, out);
      SeqFrame.PayloadDecodes(tokens, OffBytes(f.wlog), base, payload, [], out, |block|, MaxOffset(f.wlog), junk(body, out));
      assert payload + [] == payload;
      SequencesMean(junk, f, s.v2, payload, out, |block|);
      TaggedPayload(c, junk, f, j.last, SeqTag(s.v2), payload, out, block,
                    Codecs.DecodeEntropy(junk, f, body, out, |block|));
    }
    LongAdds(c, f, Entropy, j.last, body, hist, block);
  }

  function FateOf(k: LitBlock.Kind, count: nat, size: nat): Fate {
    if count <= 0xFFFF then Sound else if Slips(k, count, size) then Unknown16 else Broken16
  }

  /** The literal path: sound exactly when the count fits, as long as the size does or the cut-off coding is refused. */
  lemma CodedLiterals(c: Codec, junk: Codecs.Memory, f: Info, s: Settings, j: Job, tokens: seq<Byte>, k: LitBlock.Kind, enc: seq<Byte>)
    requires Genuine(c, junk) && JobOkay(j) && 10 <= f.wlog <= 24 && ParseOf(j, s, f.wlog, tokens)
    requires !s.v2 && s.mode != UltraFast
    requires var e := LitBlock.Extract(tokens, 0, OffBytes(f.wlog));
             && e.Split? && CodedAs(k, enc, e.lits) && |enc| + |e.stripped| < 0xFF_0000
             && |e.lits| <= |j.data| - j.start && Open(s, j, f.wlog, tokens, 12 + |enc| + |e.stripped|)
    ensures var e := LitBlock.Extract(tokens, 0, OffBytes(f.wlog));
            Fulfils(c, f, s, j, LongBlock(Entropy, j.last, |j.data| - j.start,
                                          [LitTag(k)] + LitBlock.Pack(|e.lits|, enc, e.stripped)),
                    FateOf(k, |e.lits|, |enc|))
  {
    hide ParseOf, DecodeTokens, MaxOffset, EndsWith, LongBlock, Adds, Breaks, LitBlock.Pack, LitBlock.DecodeBlock, LitBlock.Extract,
      LitBlock.Codes, AnsLanes.EncodesLanes, DecodePayload, Codecs.DecodeEntropy, Genuine, Open;
    var hist, block := j.data[..j.start], j.data[j.start..];
    var e := LitBlock.Extract(tokens, 0, OffBytes(f.wlog));
    var data := LitBlock.Pack(|e.lits|, enc, e.stripped);
    LitBlock.PackParts(|e.lits|, enc, e.stripped);
    var body := [LitTag(k)] + data;
    assert |e.lits| > 0xFFFF ==> LongLiterals(f, s, j, LongBlock(Entropy, j.last, |block|, body), k, tokens, enc);
    if |e.lits| <= 0xFFFF {
      forall out: seq<Byte> | EndsWith(out, hist)
        ensures DecodePayload(c, f, BlockHeader(Entropy, j.last, |block|), body, out) == GoodPayload(block)
      {
        TokensMean(j, s, f.wlog, tokens, out);
        LitBlock.BlockDecodes(k, tokens, enc, out, |block|, MaxOffset(f.wlog), OffBytes(f.wlog));
        LiteralsMean(junk, f, k, data, out, |block|);
        TaggedPayload(c, junk, f, j.last, LitTag(k), data, out, block, Codecs.DecodeEntropy(junk, f, body, out, |block|));
      }
      LongAdds(c, f, Entropy, j.last, body, hist, block);
    } else if !Slips(k, |e.lits|, |enc|) {
      forall out: seq<Byte> | EndsWith(out, hist)
        ensures DecodePayload(c, f, BlockHeader(Entropy, j.last, |block|), body, out).BadPayload?
      {
        TokensMean(j, s, f.wlog, tokens, out);
        if |enc| <= 0xFFFF {
          LitBlock.BlockBreaks(k, tokens, enc, out, |block|, MaxOffset(f.wlog), OffBytes(f.wlog));
        } else {
          LitBlock.LanesBreak(e.lits, enc, e.stripped, out, |block|, MaxOffset(f.wlog), OffBytes(f.wlog));
        }
        LiteralsMean(junk, f, k, data, out, |block|);
        TaggedPayload(c, junk, f, j.last, LitTag(k), data, out, block, Codecs.DecodeEntropy(junk, f, body, out, |block|));
      }
      LongBreaks(c, f, Entropy, j.last, body, hist, |block|);
    }
  }

  lemma FewExtracted(j: Job, s: Settings, wlog: nat, tokens: seq<Byte>)
    requires JobOkay(j) && 10 <= wlog <= 24 && ParseOf(j, s, wlog, tokens) && !s.v2
    ensures var e := LitBlock.Extract(tokens, 0, OffBytes(wlog)); e.Split? ==> |e.lits| <= |j.data| - j.start
  {
    hide DecodeTokens, MaxOffset, EndsWith, ParseOf, LitBlock.Extract;
    var hist := j.data[..j.start];
    HistoryEnds(hist);
    TokensMean(j, s, wlog, tokens, hist);
    LitBlock.ExtractFew(tokens, 0, hist, |j.data|, MaxOffset(wlog), OffBytes(wlog));
  }

  //////////////////////////////////////////////////////////////////////////////
  // The choice
  //////////////////////////////////////////////////////////////////////////////

  method StoreRaw(s: Settings, j: Job, cap: nat, ghost c: Codec, ghost f: Info) returns (r: Written)
    requires JobOkay(j) && 10 <= f.wlog <= 24
    ensures r.Bytes? ==> |r.bytes| <= cap && Fulfils(c, f, s, j, r.bytes, Sound)
    ensures if r.Bytes? then |r.bytes| == 4 + (|j.data| - j.start) else cap < 4 + (|j.data| - j.start)
    ensures r.Bytes? ==> r.bytes == RawBlock(j.last, j.data[j.start..])
  {
    hide Adds, LeBytes;
    var block := j.data[j.start..];
    if 4 + |block| > cap {
      return NoRoom;
    }
    RawAdds(c, f, j.last, j.data[..j.start], block);
    r := Bytes(RawBlock(j.last, block));
  }

  method StoreTokens(s: Settings, j: Job, tokens: seq<Byte>, cap: nat, ghost c: Codec, ghost f: Info) returns (r: Written)
    requires JobOkay(j) && 10 <= f.wlog <= 24 && ParseOf(j, s, f.wlog, tokens) && !s.v2 && |tokens| < 0x100_0000
    ensures r.Bytes? ==> |r.bytes| <= cap && Fulfils(c, f, s, j, r.bytes, Sound)
    ensures if r.Bytes? then |r.bytes| == 7 + |tokens| else cap < 7 + |tokens|
    ensures r.Bytes? ==> r.bytes == LongBlock(Compressed, j.last, |j.data| - j.start, tokens)
  {
    hide ParseOf, Fulfils, LeBytes;
    if 7 + |tokens| > cap {
      return NoRoom;
    }
    PlainTokens(c, f, s, j, tokens);
    r := Bytes(LongBlock(Compressed, j.last, |j.data| - j.start, tokens));
  }

  /** The sequence path's payload; there is none exactly when the parse is refused or the payload does not fit. */
  method TrySequences(s: Settings, j: Job, tokens: seq<Byte>, wlog: nat, entCap: nat) returns (r: SeqFrame.Payload)
    requires JobOkay(j) && 10 <= wlog <= 24 && ParseOf(j, s, wlog, tokens) && 0 < |tokens| <= 0x4000_0000
    ensures SequencesTried(s, wlog, tokens, entCap, r)
  {
    hide ParseOf, ParseTokens, MlBase, MlBaseV2, Entries, Literals, SeqFrame.Carries, SeqFrame.Makes, Acceptable;
    BaseStarts(s);
    FewLiterals(j, s, wlog, tokens);
    r := SeqFrame.EncodePayload(tokens, OffBytes(wlog), Codecs.BaseOf(s.v2), entCap, s.noHuffman4, s.ans4Est(tokens), s.hufEst(tokens));
    if r.Payload? {
      SeqFrame.MakesCarries(r.bytes, Codecs.BaseOf(s.v2), Entries(ParseTokens(tokens, 0, OffBytes(wlog), MinMatch(s), false).seqs), s.ans4Est(tokens));
    }
  }

  /** The guard is met where the literal path is taken. */
  lemma OpenHere(s: Settings, j: Job, wlog: nat, tokens: seq<Byte>, entCap: nat, r: SeqFrame.Payload, size: nat)
    requires JobOkay(j) && 2 * (|j.data| - j.start) <= entCap && SequencesTried(s, wlog, tokens, entCap, r)
    requires size < PlainSize(j, tokens)
    requires r.Payload? ==>
               SeqSize(r) >= (|j.data| - j.start) * 7 / 8 && (SeqSize(r) >= PlainSize(j, tokens) || SeqSize(r) > size)
    ensures Open(s, j, wlog, tokens, size)
  {
    hide ParseTokens, SeqFrame.Makes, SeqFrame.Carries, Entries, MlBase, MlBaseV2;
    var q, base := ParseTokens(tokens, 0, OffBytes(wlog), MinMatch(s), false), Codecs.BaseOf(s.v2);
    if r.Payload? {
      assert Loses(s, j, tokens, base, Entries(q.seqs), r.bytes, size);
    } else if Acceptable(q) {
      var p :| SeqFrame.Makes(p, base, Entries(q.seqs), s.ans4Est(tokens)) && |p| > entCap;
      assert Loses(s, j, tokens, base, Entries(q.seqs), p, size);
    }
  }

  /** The literal path's blocks, counted. */
  lemma TrappedWins(s: Settings, j: Job, tokens: seq<Byte>, lits: LitBlock.Coded)
    requires JobOkay(j) && lits.Coded? && lits.count + |lits.stripped| == |tokens|
    requires |tokens| <= LateMatch.Room(|j.data| - j.start, 0) + 200
    requires 0xFFFF < lits.count <= |j.data| - j.start < LateLiterals.SPOIL_SIZE && 8 * |lits.enc| <= 7 * lits.count + 4400
    ensures LitSize(lits) < PlainSize(j, tokens)
  {
  }

  /** `emit_block`. What is emitted is the winner of what was tried, if there is room for it. It decodes to the block, after
      any output that ends in what came before it; the one exception is a block of more than 65535 coded literals, which is
      emitted only under the guard of the literal path, and is emitted, to break the decoder, for every block that spoils. A
      block never takes more than six bytes above its content, and it fails only if there is no room for that. */
  method EmitBlock(m: Matcher, s: Settings, j: Job, tmp: array<Byte>, litCap: nat, entCap: nat, cap: nat,
                   ghost c: Codec, ghost junk: Codecs.Memory, ghost f: Info)
    returns (r: Written, ghost fate: Fate, ghost ch: Choice)
    requires Suits(m, s) && SettingsOkay(s) && JobOkay(j) && m.wlog == f.wlog && tmp !in m.Tables() && Genuine(c, junk)
    requires |j.data| - j.start <= litCap <= LitCoders.MAX_LITERALS && 2 * litCap <= entCap
    modifies m, m.Tables(), tmp
    ensures Suits(m, s)
    ensures r.Bytes? ==> |r.bytes| <= cap && Fulfils(c, f, s, j, r.bytes, fate)
    ensures Writes(f.wlog, s, j, ch, cap, r) && ch.room == tmp.Length && ch.litCap == litCap && ch.entCap == entCap
    ensures if r.Bytes? then |r.bytes| <= 6 + (|j.data| - j.start) else cap < 6 + (|j.data| - j.start)
    ensures r.Bytes? && Spoils(s, j) && m.Chains() && LateMatch.Room(|j.data| - j.start, 0) + 512 <= tmp.Length ==> fate == Broken16
  {
    hide ParseOf, Fulfils, Genuine, Spoils, Trapped, ParserMade, Writes, Form, PlainSize, SequencesTried, LiteralsTried;
    fate := Sound;
    var n := ParseBlock(m, s, j, tmp);
    var braw := |j.data| - j.start;
    var rawGate := if s.mode != UltraFast then braw + braw / 8 else braw;
    ghost var spoils := Spoils(s, j) && m.Chains() && LateMatch.Room(braw, 0) + 512 <= tmp.Length;
    if spoils {
      TrappedSize(s, j, m.wlog, tmp[..n]);
    }
    ch := Choice(tmp[..n], SeqFrame.NoPayload, LitBlock.NotCoded, tmp.Length, litCap, entCap);
    if n == 0 || n >= rawGate {
      r := StoreRaw(s, j, cap, c, f);
      Costs(s, j, ch);
      BytesForm(s, j, ch);
      WritesBy(f.wlog, s, j, ch, cap, r, AsBytes);
      return;
    }
    if s.mode == UltraFast {
      r := StoreTokens(s, j, tmp[..n], cap, c, f);
      Costs(s, j, ch);
      TokensForm(s, j, ch);
      WritesBy(f.wlog, s, j, ch, cap, r, AsTokens);
      return;
    }
    r, fate, ch := EmitCoded(s, j, tmp[..n], m.wlog, litCap, entCap, cap, c, junk, f, tmp.Length);
  }

  lemma TrappedSize(s: Settings, j: Job, wlog: nat, tokens: seq<Byte>)
    requires JobOkay(j) && Trapped(s, j, wlog, tokens)
    ensures var braw := |j.data| - j.start; |tokens| < braw + braw / 8 && s.mode != UltraFast
  {
    hide LateMatch.Ends;
  }

  /** A block of coded literals. */
  method StoreLiterals(s: Settings, j: Job, tokens: seq<Byte>, cap: nat, ghost c: Codec, ghost junk: Codecs.Memory, ghost f: Info,
                       lits: LitBlock.Coded, ghost ch: Choice)
    returns (r: Written, ghost fate: Fate)
    requires JobOkay(j) && 10 <= f.wlog <= 24 && ParseOf(j, s, f.wlog, tokens) && Genuine(c, junk) && Coding(s, j, tokens)
    requires Tried(f.wlog, s, j, ch) && ch.tokens == tokens && ch.lits == lits && lits.Coded? && LitSize(lits) < PlainSize(j, tokens)
    requires ch.seqs.Payload? ==> SeqSize(ch.seqs) >= PlainSize(j, tokens) || SeqSize(ch.seqs) > LitSize(lits)
    ensures LitSize(lits) > cap ==> r.NoRoom?
    ensures LitSize(lits) <= cap ==>
              r == Bytes(LongBlock(Entropy, j.last, |j.data| - j.start,
                                   [LitTag(lits.kind)] + LitBlock.Pack(lits.count, lits.enc, lits.stripped)))
    ensures r.Bytes? ==> |r.bytes| == LitSize(lits) && Fulfils(c, f, s, j, r.bytes, fate)
    ensures r.Bytes? ==> fate == FateOf(lits.kind, lits.count, |lits.enc|)
    ensures LitSize(lits) < 4 + (|j.data| - j.start)
  {
    hide ParseOf, Fulfils, Genuine, LitBlock.Extract, CodedAs, Open, FateOf, LeBytes, LitBlock.Pack, PlainSize, ParserMade, SequencesTried,
      LitBlock.Picks;
    fate := Sound;
    RawRoom(j, tokens);
    if LitSize(lits) > cap {
      return NoRoom, fate;
    }
    OpenHere(s, j, f.wlog, tokens, ch.entCap, ch.seqs, LitSize(lits));
    FewExtracted(j, s, f.wlog, tokens);
    CodedLiterals(c, junk, f, s, j, tokens, lits.kind, lits.enc);
    fate := FateOf(lits.kind, lits.count, |lits.enc|);
    FormSize(s, j, ch, AsLiterals);
    r := Bytes(LongBlock(Entropy, j.last, |j.data| - j.start, [LitTag(lits.kind)] + LitBlock.Pack(lits.count, lits.enc, lits.stripped)));
  }

  lemma OpenSmall(s: Settings, j: Job, wlog: nat, tokens: seq<Byte>, size: nat)
    requires JobOkay(j) && Open(s, j, wlog, tokens, size)
    ensures size < 4 + (|j.data| - j.start)
  {
    hide ParseTokens, Entries, Acceptable;
  }

  /** What the coders make of the tokens. */
  method TryCoders(s: Settings, j: Job, tokens: seq<Byte>, wlog: nat, litCap: nat, entCap: nat, ghost room: nat)
    returns (seqs: SeqFrame.Payload, lits: LitBlock.Coded, ghost ch: Choice)
    requires JobOkay(j) && 10 <= wlog <= 24 && ParseOf(j, s, wlog, tokens) && Coding(s, j, tokens) && ParserMade(s, j, wlog, room, tokens)
    requires |j.data| - j.start <= litCap <= LitCoders.MAX_LITERALS && 2 * litCap <= entCap
    ensures ch == Choice(tokens, seqs, lits, room, litCap, entCap) && Tried(wlog, s, j, ch)
    ensures Trapped(s, j, wlog, tokens) ==>
              && seqs.NoPayload? && lits.Coded? && LitSize(lits) < PlainSize(j, tokens)
              && FateOf(lits.kind, lits.count, |lits.enc|) == Broken16
  {
    hide ParseOf, LitBlock.Extract, LitBlock.Picks, LitBlock.Codes, AnsLanes.EncodesLanes, Trapped, PlainSize, FateOf, ParserMade,
      SequencesTried, LiteralsTried, Tried, CodedAs;
    seqs := TrySequences(s, j, tokens, wlog, entCap);
    lits := LitBlock.NotCoded;
    if !s.v2 && (seqs.NoPayload? || SeqSize(seqs) >= (|j.data| - j.start) * 7 / 8) {
      lits := LitBlock.EncodeLiterals(tokens, OffBytes(wlog), litCap, entCap / 2);
      LiteralsAre(wlog, tokens, litCap, entCap / 2, lits);
    }
    ch := Choice(tokens, seqs, lits, room, litCap, entCap);
    TriedHere(wlog, s, j, ch);
    if Trapped(s, j, wlog, tokens) {
      TrappedIs(s, j, wlog, tokens);
      TrappedHere(s, j, wlog, tokens, entCap, entCap / 2, seqs, lits);
    }
  }

  /** The winner of what was tried. */
  method EmitCoded(s: Settings, j: Job, tokens: seq<Byte>, wlog: nat, litCap: nat, entCap: nat, cap: nat,
                   ghost c: Codec, ghost junk: Codecs.Memory, ghost f: Info, ghost room: nat)
    returns (r: Written, ghost fate: Fate, ghost ch: Choice)
    requires JobOkay(j) && wlog == f.wlog && 10 <= f.wlog <= 24 && ParseOf(j, s, f.wlog, tokens) && Genuine(c, junk)
    requires Coding(s, j, tokens) && ParserMade(s, j, wlog, room, tokens)
    requires |j.data| - j.start <= litCap <= LitCoders.MAX_LITERALS && 2 * litCap <= entCap
    ensures r.Bytes? ==> |r.bytes| <= cap && Fulfils(c, f, s, j, r.bytes, fate)
    ensures Writes(f.wlog, s, j, ch, cap, r) && ch.room == room && ch.litCap == litCap && ch.entCap == entCap
    ensures if r.Bytes? then |r.bytes| <= 6 + (|j.data| - j.start) else cap < 6 + (|j.data| - j.start)
    ensures r.Bytes? && Trapped(s, j, wlog, tokens) ==> fate == Broken16
  {
    hide ParseOf, Fulfils, Genuine, Trapped, PlainSize, FateOf, ParserMade, Tried, Form, Cost, Writes, SeqSize, LitSize, LongBlock,
      LitBlock.Pack;
    fate := Sound;
    var braw := |j.data| - j.start;
    var seqs, lits;
    seqs, lits, ch := TryCoders(s, j, tokens, wlog, litCap, entCap, room);
    Costs(s, j, ch);
    var rawSize := PlainSize(j, tokens);
    if seqs.Payload? && (lits.NotCoded? || SeqSize(seqs) <= LitSize(lits)) && SeqSize(seqs) < rawSize {
      r := StoreSequences(s, j, tokens, cap, c, junk, f, seqs, ch);
      CodedForms(s, j, ch);
      WritesBy(f.wlog, s, j, ch, cap, r, AsSequences);
    } else if !s.v2 && lits.Coded? && LitSize(lits) < rawSize {
      LiteralsInFormat1(wlog, s, j, ch);
      r, fate := StoreLiterals(s, j, tokens, cap, c, junk, f, lits, ch);
      CodedForms(s, j, ch);
      WritesBy(f.wlog, s, j, ch, cap, r, AsLiterals);
    } else if !s.v2 && |tokens| < braw {
      LiteralsInFormat1(wlog, s, j, ch);
      r := StoreTokens(s, j, tokens, cap, c, f);
      TokensForm(s, j, ch);
      WritesBy(f.wlog, s, j, ch, cap, r, AsTokens);
    } else {
      LiteralsInFormat1(wlog, s, j, ch);
      r := StoreRaw(s, j, cap, c, f);
      BytesForm(s, j, ch);
      WritesBy(f.wlog, s, j, ch, cap, r, AsBytes);
    }
  }

  lemma LiteralsInFormat1(wlog: nat, s: Settings, j: Job, ch: Choice)
    requires JobOkay(j) && Tried(wlog, s, j, ch)
    ensures ch.lits.Coded? ==> !s.v2
  {
    hide ParserMade, SequencesTried, LiteralsTried;
  }

  lemma TriedHere(wlog: nat, s: Settings, j: Job, ch: Choice)
    requires JobOkay(j) && ParserMade(s, j, wlog, ch.room, ch.tokens) && Coding(s, j, ch.tokens)
    requires Braw(j) <= ch.litCap && 2 * ch.litCap <= ch.entCap && SequencesTried(s, wlog, ch.tokens, ch.entCap, ch.seqs)
    requires if TriesLiterals(s, j, ch.seqs) then LiteralsTried(wlog, ch.tokens, ch.litCap, ch.entCap / 2, ch.lits) else ch.lits.NotCoded?
    ensures Tried(wlog, s, j, ch)
  {
    hide ParserMade, SequencesTried, LiteralsTried;
  }

  lemma Costs(s: Settings, j: Job, ch: Choice)
    requires JobOkay(j)
    ensures Cost(s, j, ch, AsBytes) == 4 + Braw(j)
    ensures Possible(s, j, ch, AsTokens) ==> Cost(s, j, ch, AsTokens) == 7 + |ch.tokens|
    ensures Possible(s, j, ch, AsSequences) ==> Cost(s, j, ch, AsSequences) == SeqSize(ch.seqs)
    ensures Possible(s, j, ch, AsLiterals) ==> Cost(s, j, ch, AsLiterals) == LitSize(ch.lits)
  {
  }

  lemma CodedForms(s: Settings, j: Job, ch: Choice)
    requires JobOkay(j)
    ensures ch.seqs.Payload? ==>
              Form(s, j, ch, AsSequences) == LongBlock(Entropy, j.last, |j.data| - j.start, [SeqTag(s.v2)] + ch.seqs.bytes)
    ensures var l := ch.lits;
            l.Coded? ==>
              Form(s, j, ch, AsLiterals) ==
              LongBlock(Entropy, j.last, |j.data| - j.start, [LitTag(l.kind)] + LitBlock.Pack(l.count, l.enc, l.stripped))
  {
  }

  lemma TokensForm(s: Settings, j: Job, ch: Choice)
    requires JobOkay(j) && Possible(s, j, ch, AsTokens)
    ensures Form(s, j, ch, AsTokens) == LongBlock(Compressed, j.last, |j.data| - j.start, ch.tokens)
  {
  }

  lemma BytesForm(s: Settings, j: Job, ch: Choice)
    requires JobOkay(j)
    ensures Form(s, j, ch, AsBytes) == RawBlock(j.last, j.data[j.start..])
  {
  }

  lemma LiteralsAre(wlog: nat, tokens: seq<Byte>, litCap: nat, cap: nat, r: LitBlock.Coded)
    requires var e := LitBlock.Extract(tokens, 0, OffBytes(wlog));
             r.Coded? ==>
               && e.Split? && r.stripped == e.stripped && r.count == |e.lits| <= litCap && |r.enc| < r.count
               && LitBlock.Codes(r.kind, r.enc, e.lits) && (r.kind.Ans4? ==> AnsLanes.EncodesLanes(e.lits, r.enc))
    requires var e := LitBlock.Extract(tokens, 0, OffBytes(wlog));
             e.Split? && 0 < |e.lits| <= litCap ==> LitBlock.Picks(e.lits, cap, r)
    ensures LiteralsTried(wlog, tokens, litCap, cap, r)
  {
    hide LitBlock.Extract, LitBlock.Codes, AnsLanes.EncodesLanes, LitBlock.Picks;
  }

  /** A block of coded sequences. */
  method StoreSequences(s: Settings, j: Job, tokens: seq<Byte>, cap: nat, ghost c: Codec, ghost junk: Codecs.Memory, ghost f: Info,
                        seqs: SeqFrame.Payload, ghost ch: Choice)
    returns (r: Written)
    requires JobOkay(j) && 10 <= f.wlog <= 24 && ParseOf(j, s, f.wlog, tokens) && Genuine(c, junk) && Coding(s, j, tokens)
    requires Tried(f.wlog, s, j, ch) && ch.tokens == tokens && ch.seqs == seqs && seqs.Payload? && SeqSize(seqs) < PlainSize(j, tokens)
    ensures SeqSize(seqs) > cap ==> r.NoRoom?
    ensures SeqSize(seqs) <= cap ==> r == Bytes(LongBlock(Entropy, j.last, |j.data| - j.start, [SeqTag(s.v2)] + seqs.bytes))
    ensures r.Bytes? ==> |r.bytes| == SeqSize(seqs) && Fulfils(c, f, s, j, r.bytes, Sound)
    ensures SeqSize(seqs) < 4 + (|j.data| - j.start)
  {
    hide ParseOf, Fulfils, Genuine, ParseTokens, Entries, Acceptable, SeqFrame.Carries, SeqFrame.Makes, LeBytes, MlBase, MlBaseV2,
      ParserMade, LiteralsTried;
    RawRoom(j, tokens);
    if SeqSize(seqs) > cap {
      return NoRoom;
    }
    CodedSequences(c, junk, f, s, j, tokens, seqs.bytes);
    FormSize(s, j, ch, AsSequences);
    r := Bytes(LongBlock(Entropy, j.last, |j.data| - j.start, [SeqTag(s.v2)] + seqs.bytes));
  }

  lemma RawRoom(j: Job, tokens: seq<Byte>)
    requires JobOkay(j)
    ensures PlainSize(j, tokens) <= 4 + (|j.data| - j.start)
  {
  }

  /** A late parse takes the literal path, with too many literals. */
  lemma TrappedHere(s: Settings, j: Job, wlog: nat, tokens: seq<Byte>, entCap: nat, cap: nat, seqs: SeqFrame.Payload, lits: LitBlock.Coded)
    requires JobOkay(j) && 10 <= wlog <= 24 && Trapped(s, j, wlog, tokens) && |j.data| - j.start <= cap
    requires SequencesTried(s, wlog, tokens, entCap, seqs)
    requires seqs.NoPayload? ==> exists litCap: nat :: |j.data| - j.start <= litCap && LiteralsTried(wlog, tokens, litCap, cap, lits)
    ensures !s.v2 && seqs.NoPayload? && lits.Coded? && LitSize(lits) < PlainSize(j, tokens)
    ensures FateOf(lits.kind, lits.count, |lits.enc|) == Broken16
  {
    hide ParseTokens, Acceptable, LitBlock.Extract, LitBlock.Picks, EvenCounts.Even, PlainSize, CodedAs, SeqFrame.Makes, SeqFrame.Carries;
    TrappedMeans(s, j, wlog, tokens);
    var e := LitBlock.Extract(tokens, 0, OffBytes(wlog));
    TrappedCoded(e.lits, cap, lits);
    TrappedIs(s, j, wlog, tokens);
    TrappedWins(s, j, tokens, lits);
  }

  lemma TrappedIs(s: Settings, j: Job, wlog: nat, tokens: seq<Byte>)
    requires JobOkay(j) && Trapped(s, j, wlog, tokens)
    ensures !s.v2 && |tokens| <= LateMatch.Room(|j.data| - j.start, 0) + 200
  {
    hide LateMatch.Room;
  }

  /** Where the sequence coder refuses the parse, the literal path is never sound. */
  lemma RefusedNeverSound(j: Job, s: Settings, wlog: nat, tokens: seq<Byte>)
    requires JobOkay(j) && ParseOf(j, s, wlog, tokens) && tokens != []
    requires !Acceptable(ParseTokens(tokens, 0, OffBytes(wlog), MinMatch(s), false))
    ensures var e := LitBlock.Extract(tokens, 0, OffBytes(wlog)); e.Split? && forall k, size: nat :: FateOf(k, |e.lits|, size) != Sound
  {
    hide ParseTokens, DecodeTokens, LitBlock.Extract, Literals;
    var seqs, maxMatch: nat :| ParsedAs(j, s, wlog, tokens, seqs, maxMatch);
    EncodedAs(tokens, j.data, j.start, |j.data|, seqs, wlog, maxMatch, MinMatch(s));
    StrictParse(tokens, 0, OffBytes(wlog), MinMatch(s));
    LitBlock.ExtractParsed(tokens, 0, OffBytes(wlog), MinMatch(s));
    SomeSequence(tokens, OffBytes(wlog), MinMatch(s));
    RefusedIsLong(seqs);
  }

  lemma SomeSequence(tokens: seq<Byte>, offBytes: nat, minMatch: nat)
    requires tokens != [] && ParseTokens(tokens, 0, offBytes, minMatch, false).Parsed?
    ensures ParseTokens(tokens, 0, offBytes, minMatch, false).seqs != []
  {
    hide ReadToken;
  }
}
