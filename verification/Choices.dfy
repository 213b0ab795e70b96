/** What a block of a frame is made from, and which of the ways to write it wins (`emit_block`,
    src/vv_encoder.c:1803-1985): the parser the mode calls for, the coders tried, and the shortest of raw bytes, plain
    tokens, coded sequences and coded literals. */
module Choices {
  import AnsLanes
  import opened BlockDecode
  import opened Blocks
  import opened Bytes
  import Codecs
  import opened Frame
  import opened GreedyParse
  import LitBlock
  import LitCoders
  import opened Lz
  import opened MatchFinder
  import OptimalParse
  import ParseLog
  import opened SeqEncode
  import SeqFrame
  import opened SeqParse
  import opened Tokens

  /** What a compressor is set to. The estimates, made anew for each block from its tokens, and the prices, from the
      data and the block's start, guide choices only; they are arbitrary. */
  datatype Settings = Settings(mode: Mode, v2: bool, noHuffman4: bool, ans4Est: seq<Byte> -> nat, hufEst: seq<Byte> -> nat,
                               prices: (seq<Byte>, nat) -> OptimalParse.Prices, gauge: Gauge)

  /** What the matcher is set to: how far chains are walked and how many links they have room for, the longest match, the
      acceleration, whether repeat offsets are tried and whether the tables are compact. */
  datatype Gauge = Gauge(depth: nat, ring: nat, maxMatch: nat, accel: nat, repeats: bool, compact: bool)

  /** Format v2 only in the modes that code sequences. */
  ghost predicate SettingsOkay(s: Settings) {
    (s.v2 ==> s.mode != UltraFast) && forall data: seq<Byte>, start: nat :: OptimalParse.PricesOkay(s.prices(data, start))
  }

  function MinMatch(s: Settings): (n: nat)
    ensures 3 <= n <= VV_MIN_MATCH
  {
    if s.v2 then 3 else VV_MIN_MATCH
  }

  /** `fh.mode_hint`. */
  function ModeHint(s: Settings): (n: nat)
    ensures n < 256
  {
    match s.mode
    case UltraFast => 0
    case Balanced => 1
    case Extreme => 2
  }

  /** The matcher serves the settings: it finds no match longer than the wire carries. */
  ghost predicate Suits(m: Matcher, s: Settings)
    reads m
  {
    && m.Valid() && m.maxMatch <= MinMatch(s) + 65531 && (m.compact ==> s.mode == UltraFast)
    && s.gauge == Gauge(m.chainDepth, m.chain.Length, m.maxMatch, m.accel, !m.noRep, m.compact)
  }

  /** What a block is for: `data[start..]`, after `data[..start]`. */
  datatype Job = Job(data: seq<Byte>, start: nat, last: bool)

  ghost predicate JobOkay(j: Job) {
    j.start <= |j.data| && |j.data| - j.start <= Frame.MAX_BLOCK
  }

  /** The bytes of a block without any coding of literals or sequences: plain tokens or the content. */
  function PlainSize(j: Job, tokens: seq<Byte>): nat
    requires JobOkay(j)
  {
    if 7 + |tokens| > 4 + (|j.data| - j.start) then 4 + (|j.data| - j.start) else 7 + |tokens|
  }

  function SeqTag(v2: bool): Byte {
    if v2 then Codecs.TAG_SEQ_V2 else Codecs.TAG_SEQ
  }

  function LitTag(k: LitBlock.Kind): Byte {
    match k
    case Huffman => Codecs.TAG_HUFFMAN
    case Ans => Codecs.TAG_ANS
    case Ans4 => Codecs.TAG_ANS4
    case Ctx => Codecs.TAG_CTX
  }

  function SeqSize(p: SeqFrame.Payload): nat {
    if p.Payload? then 8 + |p.bytes| else 0
  }

  function LitSize(l: LitBlock.Coded): nat {
    if l.Coded? then 12 + |l.enc| + |l.stripped| else 0
  }

  //////////////////////////////////////////////////////////////////////////////
  // The parse
  //////////////////////////////////////////////////////////////////////////////

  /** The tokens are a parse of the block. */
  ghost predicate ParseOf(j: Job, s: Settings, wlog: nat, tokens: seq<Byte>)
    requires JobOkay(j)
  {
    exists seqs, maxMatch: nat :: ParsedAs(j, s, wlog, tokens, seqs, maxMatch)
  }

  ghost predicate ParsedAs(j: Job, s: Settings, wlog: nat, tokens: seq<Byte>, seqs: seq<Sequence>, maxMatch: nat)
    requires JobOkay(j)
  {
    && maxMatch <= MinMatch(s) + 65531
    && Encodes(tokens, j.data, j.start, |j.data|, seqs, wlog, maxMatch, MinMatch(s))
  }

  /** The block as the optimal parser's task. */
  function TaskOf(s: Settings, j: Job, wlog: nat): OptimalParse.Task {
    OptimalParse.Task(j.data, j.start, |j.data|, s.prices(j.data, j.start), wlog, s.gauge.maxMatch, MinMatch(s), s.gauge.depth,
                      s.gauge.ring)
  }

  /** The limits of a greedy run. */
  ghost function LimitsFor(s: Settings, j: Job, wlog: nat): ParseLog.Limits {
    ParseLog.Limits(s.gauge.depth, s.gauge.ring, Window(wlog), s.gauge.accel, s.mode == UltraFast, s.gauge.repeats, MinMatch(s),
                    s.gauge.maxMatch, !s.gauge.compact || |j.data| <= 0x1_0000)
  }

  /** Extreme mode in format v1: the tokens of a cheapest path through all the edges that were to be found; none only if
      they do not fit. */
  ghost predicate Optimal(s: Settings, j: Job, wlog: nat, room: nat, tokens: seq<Byte>, seqs: seq<Sequence>, sol: OptimalParse.Solution)
    requires JobOkay(j)
  {
    var t := TaskOf(s, j, wlog);
    && OptimalParse.TaskOkay(t) && OptimalParse.Solved(t, sol)
    && if tokens == [] then OptimalParse.NoRoom(t, sol, room, seqs)
       else
         && tokens == TokenStream(seqs, OffBytes(wlog), MinMatch(s))
         && OptimalParse.ParseCost(t.prices, seqs) == sol.nodes[OptimalParse.Size(t)].price
  }

  /** Else: the tokens of a run that passed over nothing it could take; none only if it gave up. */
  ghost predicate Greedy(s: Settings, j: Job, wlog: nat, room: nat, tokens: seq<Byte>, seqs: seq<Sequence>, rep: Rep,
                         turns: seq<ParseLog.Turn>)
    requires JobOkay(j)
  {
    var l, first := LimitsFor(s, j, wlog), ParseLog.Mark(j.start, 0, rep, []);
    && ParseLog.Log(j.data, |j.data|, l, first, turns)
    && if tokens == [] then GaveUp(j.data, j.start, |j.data|, l, wlog, room, turns)
       else tokens == TokenStream(seqs, OffBytes(wlog), MinMatch(s)) && Whole(j.data, |j.data|, l, first, turns, seqs)
  }

  /** What the mode's parser made of the block in `room` bytes. */
  ghost predicate ParserMade(s: Settings, j: Job, wlog: nat, room: nat, tokens: seq<Byte>)
    requires JobOkay(j)
  {
    if s.mode == Extreme && !s.v2 then exists seqs, sol :: Optimal(s, j, wlog, room, tokens, seqs, sol)
    else exists seqs, rep, turns :: Greedy(s, j, wlog, room, tokens, seqs, rep, turns)
  }

  /** The coding stands for the literals; in four lanes, it is what those write. */
  ghost predicate CodedAs(k: LitBlock.Kind, enc: seq<Byte>, lits: seq<Byte>) {
    LitBlock.Codes(k, enc, lits) && (k.Ans4? ==> AnsLanes.EncodesLanes(lits, enc))
  }

  //////////////////////////////////////////////////////////////////////////////
  // The coders tried
  //////////////////////////////////////////////////////////////////////////////

  /** What a block was made from: the tokens, what the coders made of them, and the sizes of the buffers. */
  datatype Choice = Choice(tokens: seq<Byte>, seqs: SeqFrame.Payload, lits: LitBlock.Coded, room: nat, litCap: nat, entCap: nat)

  function Braw(j: Job): nat
    requires JobOkay(j)
  {
    |j.data| - j.start
  }

  /** Coders are tried on tokens that are not much longer than the block, and not in fast mode. */
  predicate Coding(s: Settings, j: Job, tokens: seq<Byte>)
    requires JobOkay(j)
  {
    s.mode != UltraFast && 0 < |tokens| < Braw(j) + Braw(j) / 8
  }

  /** The sequence coder: a payload for the parse, none only if it refuses the parse or the payload does not fit. */
  ghost predicate SequencesTried(s: Settings, wlog: nat, tokens: seq<Byte>, entCap: nat, r: SeqFrame.Payload) {
    var q := ParseTokens(tokens, 0, OffBytes(wlog), MinMatch(s), false);
    && |Codecs.BaseOf(s.v2)| == 36
    && if r.Payload? then
         && Acceptable(q) && SeqFrame.Makes(r.bytes, Codecs.BaseOf(s.v2), Entries(q.seqs), s.ans4Est(tokens))
         && SeqFrame.Carries(r.bytes, Codecs.BaseOf(s.v2), Entries(q.seqs))
       else
         Acceptable(q) ==> exists p :: SeqFrame.Makes(p, Codecs.BaseOf(s.v2), Entries(q.seqs), s.ans4Est(tokens)) && |p| > entCap
  }

  /** The literal coders, which are tried only in format v1 where the sequence coder has nothing or saves less than an
      eighth. */
  predicate TriesLiterals(s: Settings, j: Job, seqs: SeqFrame.Payload)
    requires JobOkay(j)
  {
    !s.v2 && (seqs.NoPayload? || SeqSize(seqs) >= Braw(j) * 7 / 8)
  }

  ghost predicate LiteralsTried(wlog: nat, tokens: seq<Byte>, litCap: nat, cap: nat, r: LitBlock.Coded) {
    var e := LitBlock.Extract(tokens, 0, OffBytes(wlog));
    && (r.Coded? ==>
          && e.Split? && r.stripped == e.stripped && r.count == |e.lits| <= litCap && |r.enc| < r.count
          && CodedAs(r.kind, r.enc, e.lits))
    && (e.Split? && 0 < |e.lits| <= litCap ==> LitBlock.Picks(e.lits, cap, r))
  }

  ghost predicate Tried(wlog: nat, s: Settings, j: Job, ch: Choice)
    requires JobOkay(j)
  {
    && ParserMade(s, j, wlog, ch.room, ch.tokens)
    && Braw(j) <= ch.litCap && 2 * ch.litCap <= ch.entCap
    && if Coding(s, j, ch.tokens) then
         && SequencesTried(s, wlog, ch.tokens, ch.entCap, ch.seqs)
         && if TriesLiterals(s, j, ch.seqs) then LiteralsTried(wlog, ch.tokens, ch.litCap, ch.entCap / 2, ch.lits)
            else ch.lits.NotCoded?
       else ch.seqs.NoPayload? && ch.lits.NotCoded?
  }

  //////////////////////////////////////////////////////////////////////////////
  // The winner
  //////////////////////////////////////////////////////////////////////////////

  /** How a block is written. */
  datatype Path = AsBytes | AsTokens | AsSequences | AsLiterals

  /** Ways that can be taken: the bytes always, tokens that are fewer in format v1, and what the coders made. */
  predicate Possible(s: Settings, j: Job, ch: Choice, p: Path)
    requires JobOkay(j)
  {
    match p
    case AsBytes => true
    case AsTokens => !s.v2 && 0 < |ch.tokens| < Braw(j)
    case AsSequences => ch.seqs.Payload?
    case AsLiterals => ch.lits.Coded?
  }

  function Form(s: Settings, j: Job, ch: Choice, p: Path): seq<Byte>
    requires JobOkay(j) && Possible(s, j, ch, p)
  {
    match p
    case AsBytes => RawBlock(j.last, j.data[j.start..])
    case AsTokens => LongBlock(Compressed, j.last, Braw(j), ch.tokens)
    case AsSequences => LongBlock(Entropy, j.last, Braw(j), [SeqTag(s.v2)] + ch.seqs.bytes)
    case AsLiterals =>
      LongBlock(Entropy, j.last, Braw(j), [LitTag(ch.lits.kind)] + LitBlock.Pack(ch.lits.count, ch.lits.enc, ch.lits.stripped))
  }

  /** The size of a block written that way. */
  function Cost(s: Settings, j: Job, ch: Choice, p: Path): nat
    requires JobOkay(j) && Possible(s, j, ch, p)
  {
    match p
    case AsBytes => 4 + Braw(j)
    case AsTokens => 7 + |ch.tokens|
    case AsSequences => SeqSize(ch.seqs)
    case AsLiterals => LitSize(ch.lits)
  }

  /** Whether a coder's block is shorter than a plain one, of tokens or of bytes. */
  predicate Shorter(s: Settings, j: Job, ch: Choice, p: Path)
    requires JobOkay(j)
  {
    p in {AsSequences, AsLiterals} && Possible(s, j, ch, p) && Cost(s, j, ch, p) < PlainSize(j, ch.tokens)
  }

  /** The shorter of the coders' blocks wins, the sequences' if they are as short as the literals'; but only if it is
      shorter than a plain one, of tokens or of bytes. Else the tokens win where they are fewer than the bytes, and
      else the bytes. */
  predicate Wins(s: Settings, j: Job, ch: Choice, p: Path)
    requires JobOkay(j)
  {
    && Possible(s, j, ch, p)
    && if p in {AsSequences, AsLiterals} then
         && Shorter(s, j, ch, p)
         && (p == AsSequences && Possible(s, j, ch, AsLiterals) ==> Cost(s, j, ch, AsSequences) <= Cost(s, j, ch, AsLiterals))
         && (p == AsLiterals && Possible(s, j, ch, AsSequences) ==> Cost(s, j, ch, AsLiterals) < Cost(s, j, ch, AsSequences))
       else
         && !Shorter(s, j, ch, AsSequences) && !Shorter(s, j, ch, AsLiterals)
         && (p == AsBytes ==> !Possible(s, j, ch, AsTokens))
  }

  /** Exactly one way wins. */
  lemma OneWinner(s: Settings, j: Job, ch: Choice, p: Path, q: Path)
    requires JobOkay(j) && Wins(s, j, ch, p)
    ensures Wins(s, j, ch, q) <==> q == p
  {
    hide PlainSize, SeqSize, LitSize;
  }

  lemma SomeWinner(s: Settings, j: Job, ch: Choice) returns (p: Path)
    requires JobOkay(j)
    ensures Wins(s, j, ch, p)
  {
    hide PlainSize, SeqSize, LitSize;
    p := if Shorter(s, j, ch, AsSequences) &&
            (Possible(s, j, ch, AsLiterals) ==> Cost(s, j, ch, AsSequences) <= Cost(s, j, ch, AsLiterals)) then AsSequences
         else if Shorter(s, j, ch, AsLiterals) then AsLiterals
         else if Possible(s, j, ch, AsTokens) then AsTokens else AsBytes;
  }

  /** It is the least of all that are possible, with two exceptions: tokens that are one or two fewer than the bytes are
      written although their block is longer by as much as two; and in format v2 the bytes are kept although a coder's
      block is shorter, if it is not shorter than the tokens that cannot be written there. */
  lemma WinnerLeast(s: Settings, j: Job, ch: Choice, p: Path, q: Path)
    requires JobOkay(j) && Wins(s, j, ch, p) && Possible(s, j, ch, q)
    requires ch.tokens == [] ==> ch.seqs.NoPayload? && ch.lits.NotCoded?
    ensures Cost(s, j, ch, p) <= Cost(s, j, ch, q)
            || (p == AsTokens && q == AsBytes && |ch.tokens| + 2 >= Braw(j) && Cost(s, j, ch, p) <= Cost(s, j, ch, q) + 2)
            || (p == AsTokens && |ch.tokens| + 2 >= Braw(j) && Cost(s, j, ch, AsBytes) <= Cost(s, j, ch, q))
            || (s.v2 && p == AsBytes && 7 + |ch.tokens| <= Cost(s, j, ch, q))
  {
  }

  /** The sizes are those of the blocks. */
  lemma FormSize(s: Settings, j: Job, ch: Choice, p: Path)
    requires JobOkay(j) && Possible(s, j, ch, p)
    ensures |Form(s, j, ch, p)| == Cost(s, j, ch, p)
  {
    hide LeBytes, LitBlock.Pack;
    if p == AsLiterals {
      LitBlock.PackParts(ch.lits.count, ch.lits.enc, ch.lits.stripped);
    }
  }

  datatype Written = NoRoom | Bytes(bytes: seq<Byte>)

  /** The block is the winner's. */
  ghost predicate Chosen(wlog: nat, s: Settings, j: Job, ch: Choice, bytes: seq<Byte>)
    requires JobOkay(j)
  {
    Tried(wlog, s, j, ch) && exists p :: Wins(s, j, ch, p) && bytes == Form(s, j, ch, p)
  }

  /** It is written if there is room for it. */
  ghost predicate Writes(wlog: nat, s: Settings, j: Job, ch: Choice, cap: nat, r: Written)
    requires JobOkay(j)
  {
    Tried(wlog, s, j, ch) && exists p :: Wins(s, j, ch, p) && r == if Cost(s, j, ch, p) <= cap then Bytes(Form(s, j, ch, p)) else NoRoom
  }

  lemma WritesBy(wlog: nat, s: Settings, j: Job, ch: Choice, cap: nat, r: Written, p: Path)
    requires JobOkay(j) && Tried(wlog, s, j, ch) && Wins(s, j, ch, p)
    requires r == if Cost(s, j, ch, p) <= cap then Bytes(Form(s, j, ch, p)) else NoRoom
    ensures Writes(wlog, s, j, ch, cap, r)
  {
    hide Tried, Form, Cost;
    assert Wins(s, j, ch, p);
  }

  lemma WritesChosen(wlog: nat, s: Settings, j: Job, ch: Choice, cap: nat, r: Written)
    requires JobOkay(j) && Writes(wlog, s, j, ch, cap, r) && r.Bytes?
    ensures Chosen(wlog, s, j, ch, r.bytes)
  {
    hide Tried, Form, Cost;
  }
}
