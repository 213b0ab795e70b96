/** Frames, and decoding them at once or in pieces (`vv_decompress_flags`,
    `vv_dstream_decompress_chunk`, src/vv_decoder.c:689-1167). */
module Frame {
  import Arm64
  import Bcj
  import opened Bits
  import opened BlockDecode
  import opened Bytes
  import opened Lz
  import opened Wire

  const MAGIC: nat := 0x56560100
  const FOOTER_MAGIC: nat := 0x56564E44
  const HEADER_SIZE: nat := 16
  const FOOTER_SIZE: nat := 12
  const MAX_BLOCK: nat := 0x10_0000

  datatype Code = BadMagic | BadFrame | TooLarge

  /** What a frame header says. */
  datatype Info = Info(checksum: bool, x86: bool, arm64: bool, wlog: nat)

  datatype Parsed = BadHeader(code: Code) | GoodHeader(info: Info)

  /** `frame_max_offset`: the window, or the largest offset its bytes can hold. */
  function MaxOffset(wlog: nat): (m: nat)
    requires 10 <= wlog <= 24
    ensures Pow2(wlog) - 1 <= m <= 0xFF_FFFF
  {
    WindowSizes(wlog);
    if wlog == 24 then 0xFF_FFFF else if wlog == 16 then 0xFFFF else Pow2(wlog)
  }

  lemma WindowSizes(wlog: nat)
    requires wlog <= 24
    ensures wlog == 24 ==> Pow2(wlog) == 0x100_0000
    ensures wlog == 16 ==> Pow2(wlog) == 0x1_0000
    ensures wlog < 24 ==> Pow2(wlog) <= 0x80_0000
  {
    hide Pow2;
    Pow2Small();
    Pow2Add(12, 11);
    Pow2Add(12, 12);
    if wlog < 24 {
      Pow2Monotone(wlog, 23);
    }
  }

  function ParseHeader(s: seq<Byte>): (h: Parsed)
    requires |s| >= HEADER_SIZE
    ensures h.GoodHeader? ==> 10 <= h.info.wlog <= 24
  {
    if LittleEndian(s, 0, 4) != MAGIC then BadHeader(BadMagic)
    else if s[4] != 1 then BadHeader(BadFrame)
    else if s[5] / 4 % 4 == 3 then BadHeader(BadFrame)
    else if !(10 <= s[7] <= 24) then BadHeader(BadFrame)
    else GoodHeader(Info(s[5] % 2 == 1, s[5] / 4 % 2 == 1, s[5] / 8 % 2 == 1, s[7]))
  }

  //////////////////////////////////////////////////////////////////////////////
  // Blocks
  //////////////////////////////////////////////////////////////////////////////

  datatype BlockType = Raw | Compressed | Rle | Entropy

  datatype BlockHeader = BlockHeader(kind: BlockType, last: bool, size: nat)

  function UnpackBlock(h: nat): BlockHeader {
    BlockHeader(if h % 4 == 0 then Raw else if h % 4 == 1 then Compressed else if h % 4 == 2 then Rle else Entropy,
                h / 4 % 2 == 1, h / 8 % 0x20_0000)
  }

  /** The parts that are not about framing: entropy-coded payloads, by their bytes, the frame's output
      so far and their size; and the hash. `Codecs` supplies the program's own. */
  datatype Codec = Codec(entropy: (seq<Byte>, seq<Byte>, nat, Info) -> BlockResult, hash: seq<Byte> -> nat)

  function Hash64(c: Codec, s: seq<Byte>): (h: nat)
    ensures h < 0x1_0000_0000_0000_0000
  {
    c.hash(s) % 0x1_0000_0000_0000_0000
  }

  datatype Payload = BadPayload(code: Code) | GoodPayload(block: seq<Byte>)

  function CodeOf(e: DecodeError): Code {
    if e.Corrupt? then BadFrame else TooLarge
  }

  function Exactly(r: BlockResult, hist: seq<Byte>, size: nat): Payload {
    match r
    case BlockError(e) => BadPayload(CodeOf(e))
    case BlockOk(out) =>
      if |out| == |hist| + size && hist <= out then GoodPayload(out[|hist|..]) else BadPayload(BadFrame)
  }

  /** A block's output from its data. */
  function DecodePayload(c: Codec, f: Info, b: BlockHeader, data: seq<Byte>, hist: seq<Byte>): (r: Payload)
    requires 10 <= f.wlog <= 24 && (b.kind == Raw ==> |data| == b.size) && (b.kind == Rle ==> |data| == 1)
    ensures r.GoodPayload? ==> |r.block| == b.size
  {
    match b.kind
    case Raw => GoodPayload(data)
    case Rle => GoodPayload(seq(b.size, i => data[0]))
    case Compressed =>
      Exactly(DecodeTokens(data, 0, hist, |hist| + b.size, MaxOffset(f.wlog), OffBytes(f.wlog), VV_MIN_MATCH),
              hist, b.size)
    case Entropy => if |data| < 1 then BadPayload(BadFrame) else Exactly(c.entropy(data, hist, b.size, f), hist, b.size)
  }

  /** The end of a frame: undo the filter the header names. */
  function Unfilter(f: Info, out: seq<Byte>): (r: seq<Byte>)
    ensures |r| == |out|
  {
    var x := if f.x86 then Bcj.X86(out, 5, 0, 0, false) else out;
    if f.arm64 then Arm64.Filter(x, 0, 0, false) else x
  }

  //////////////////////////////////////////////////////////////////////////////
  // The streaming decoder's machine
  //////////////////////////////////////////////////////////////////////////////

  datatype State =
    | AtHeader
    | AtBlock(f: Info, out: seq<Byte>)
    | AtFooter(f: Info, out: seq<Byte>)
    | Done(out: seq<Byte>)
    | Broken(code: Code, out: seq<Byte>)

  predicate Ended(st: State) {
    st.Done? || st.Broken?
  }

  predicate StateOkay(st: State, cap: nat) {
    (st.AtBlock? ==> 10 <= st.f.wlog <= 24 && |st.out| <= cap) && (st.AtFooter? ==> 10 <= st.f.wlog <= 24)
  }

  /** One move: wait for more input, or go on, having used some. */
  datatype Move = Wait | Go(st: State, used: nat)

  function HeaderMove(p: seq<Byte>): Move {
    if |p| < HEADER_SIZE then Wait
    else
      match ParseHeader(p)
      case BadHeader(code) => Go(Broken(code, []), 0)
      case GoodHeader(f) => Go(AtBlock(f, []), HEADER_SIZE)
  }

  /** Header and data of a block, when all of it is there. */
  function BlockLength(b: BlockHeader, p: seq<Byte>): (n: nat)
    requires |p| >= 4 && (b.kind == Compressed || b.kind == Entropy ==> |p| >= 7)
    ensures n >= 4 && (b.kind == Compressed || b.kind == Entropy ==> n >= 7)
    ensures (b.kind == Raw ==> n == 4 + b.size) && (b.kind == Rle ==> n == 5)
  {
    match b.kind
    case Raw => 4 + b.size
    case Rle => 5
    case _ => 7 + LittleEndian(p, 4, 3)
  }

  function DataStart(b: BlockHeader): nat {
    if b.kind == Raw || b.kind == Rle then 4 else 7
  }

  function AfterBlock(c: Codec, f: Info, last: bool, out: seq<Byte>): State {
    if !last then AtBlock(f, out) else if f.checksum then AtFooter(f, out) else Done(Unfilter(f, out))
  }

  function BlockMove(c: Codec, cap: nat, f: Info, out: seq<Byte>, p: seq<Byte>): Move
    requires 10 <= f.wlog <= 24
  {
    if |p| < 4 then Wait
    else
      var b := UnpackBlock(LittleEndian(p, 0, 4));
      if b.size > MAX_BLOCK then Go(Broken(TooLarge, out), 0)
      else if b.size > cap - |out| then Go(Broken(TooLarge, out), 0)
      else if (b.kind == Compressed || b.kind == Entropy) && |p| < 7 then Wait
      else if |p| < BlockLength(b, p) then Wait
      else
        match DecodePayload(c, f, b, p[DataStart(b)..BlockLength(b, p)], out)
        case BadPayload(code) => Go(Broken(code, out), 0)
        case GoodPayload(block) => Go(AfterBlock(c, f, b.last, out + block), BlockLength(b, p))
  }

  function FooterMove(c: Codec, f: Info, out: seq<Byte>, p: seq<Byte>): Move {
    if |p| < FOOTER_SIZE then Wait
    else if LittleEndian(p, 8, 4) != FOOTER_MAGIC || LittleEndian(p, 0, 8) != Hash64(c, out) then Go(Broken(BadFrame, out), 0)
    else Go(Done(Unfilter(f, out)), FOOTER_SIZE)
  }

  function NextMove(c: Codec, cap: nat, st: State, p: seq<Byte>): (m: Move)
    requires StateOkay(st, cap)
    ensures m.Go? ==> m.used <= |p| && StateOkay(m.st, cap) && (m.used > 0 || Ended(m.st))
  {
    match st
    case AtHeader => HeaderMove(p)
    case AtBlock(f, out) => BlockMove(c, cap, f, out, p)
    case AtFooter(f, out) => FooterMove(c, f, out, p)
    case _ => Wait
  }

  /** Where the machine gets with the input it has, and what input it has not used. */
  datatype Rest = Rest(st: State, left: seq<Byte>)

  function Run(c: Codec, cap: nat, st: State, p: seq<Byte>): (r: Rest)
    requires StateOkay(st, cap)
    ensures StateOkay(r.st, cap)
    decreases |p|, if Ended(st) then 0 else 1
  {
    if Ended(st) then Rest(st, p)
    else
      match NextMove(c, cap, st, p)
      case Wait => Rest(st, p)
      case Go(next, used) => Run(c, cap, next, p[used..])
  }

  //////////////////////////////////////////////////////////////////////////////
  // Chunking does not matter
  //////////////////////////////////////////////////////////////////////////////

  /** A move once possible is not changed by more input. */
  lemma MoveStable(c: Codec, cap: nat, st: State, p: seq<Byte>, x: seq<Byte>)
    requires StateOkay(st, cap) && NextMove(c, cap, st, p).Go?
    ensures NextMove(c, cap, st, p + x) == NextMove(c, cap, st, p)
  {
    hide LittleEndian, DecodePayload, UnpackBlock;
    match st {
      case AtHeader =>
        LittleEndianPrefix(p, x, 0, 4);
      case AtBlock(f, out) =>
        LittleEndianPrefix(p, x, 0, 4);
        var b := UnpackBlock(LittleEndian(p, 0, 4));
        if b.size <= MAX_BLOCK && b.size <= cap - |out| {
          if b.kind == Compressed || b.kind == Entropy {
            LittleEndianPrefix(p, x, 4, 3);
          }
          assert (p + x)[DataStart(b)..BlockLength(b, p)] == p[DataStart(b)..BlockLength(b, p)];
        }
      case AtFooter(f, out) =>
        LittleEndianPrefix(p, x, 8, 4);
        LittleEndianPrefix(p, x, 0, 8);
      case _ =>
    }
  }

  /** Running on `p` and then, with what was left, on `x` is running on both. */
  lemma {:induction false} RunSplit(c: Codec, cap: nat, st: State, p: seq<Byte>, x: seq<Byte>)
    requires StateOkay(st, cap)
    ensures var r := Run(c, cap, st, p);
            Run(c, cap, st, p + x) == if Ended(r.st) then Rest(r.st, r.left + x) else Run(c, cap, r.st, r.left + x)
    decreases |p|, if Ended(st) then 0 else 1
  {
    hide NextMove, StateOkay;
    if !Ended(st) {
      var m := NextMove(c, cap, st, p);
      if m.Go? {
        MoveStable(c, cap, st, p, x);
        assert (p + x)[m.used..] == p[m.used..] + x;
        RunSplit(c, cap, m.st, p[m.used..], x);
      }
    }
  }

  /** What the streaming decoder keeps between calls. Input that arrives after the end is ignored. */
  function Feed(c: Codec, cap: nat, r: Rest, chunk: seq<Byte>): (q: Rest)
    requires StateOkay(r.st, cap)
    ensures StateOkay(q.st, cap)
  {
    if Ended(r.st) then r else Run(c, cap, r.st, r.left + chunk)
  }

  function FeedAll(c: Codec, cap: nat, r: Rest, chunks: seq<seq<Byte>>): (q: Rest)
    requires StateOkay(r.st, cap)
    ensures StateOkay(q.st, cap)
    decreases |chunks|
  {
    if chunks == [] then r else FeedAll(c, cap, Feed(c, cap, r, chunks[0]), chunks[1..])
  }

  function Joined(chunks: seq<seq<Byte>>): seq<Byte> {
    if chunks == [] then [] else chunks[0] + Joined(chunks[1..])
  }

  /** The machine is at rest: it has made every move it can. */
  ghost predicate Settled(c: Codec, cap: nat, r: Rest) {
    StateOkay(r.st, cap) && Run(c, cap, r.st, r.left) == r
  }

  lemma {:induction false} RunSettles(c: Codec, cap: nat, st: State, p: seq<Byte>)
    requires StateOkay(st, cap)
    ensures Settled(c, cap, Run(c, cap, st, p))
    decreases |p|, if Ended(st) then 0 else 1
  {
    if !Ended(st) {
      var m := NextMove(c, cap, st, p);
      if m.Go? {
        RunSettles(c, cap, m.st, p[m.used..]);
      }
    }
  }

  /** Any way of cutting the input into chunks leads to the same state, output and position. */
  lemma {:induction false} ChunksDoNotMatter(c: Codec, cap: nat, r: Rest, chunks: seq<seq<Byte>>)
    requires Settled(c, cap, r)
    ensures FeedAll(c, cap, r, chunks).st == Run(c, cap, r.st, r.left + Joined(chunks)).st
    ensures !Ended(FeedAll(c, cap, r, chunks).st) ==>
              FeedAll(c, cap, r, chunks) == Run(c, cap, r.st, r.left + Joined(chunks))
    decreases |chunks|
  {
    hide Run, NextMove, StateOkay;
    if chunks == [] {
      assert r.left + Joined(chunks) == r.left;
    } else {
      var x, y := chunks[0], Joined(chunks[1..]);
      assert r.left + Joined(chunks) == (r.left + x) + y;
      var q := Feed(c, cap, r, x);
      if Ended(r.st) {
        EndedStays(c, cap, r.st, r.left + Joined(chunks));
        ChunksDoNotMatter(c, cap, r, chunks[1..]);
        EndedStays(c, cap, r.st, r.left + y);
      } else {
        RunSettles(c, cap, r.st, r.left + x);
        ChunksDoNotMatter(c, cap, q, chunks[1..]);
        RunSplit(c, cap, r.st, r.left + x, y);
        if Ended(q.st) {
          EndedStays(c, cap, q.st, q.left + y);
        }
      }
    }
  }

  lemma EndedStays(c: Codec, cap: nat, st: State, p: seq<Byte>)
    requires StateOkay(st, cap) && Ended(st)
    ensures Run(c, cap, st, p) == Rest(st, p)
  {
  }

  //////////////////////////////////////////////////////////////////////////////
  // The one-shot decoder
  //////////////////////////////////////////////////////////////////////////////

  datatype FrameResult = FrameError(code: Code) | FrameOk(out: seq<Byte>, next: nat)

  /** Footer check and filter, from position `p`. */
  function FinishFrame(c: Codec, f: Info, src: seq<Byte>, p: nat, out: seq<Byte>): (r: FrameResult)
    requires p <= |src|
    ensures r.FrameOk? ==> p <= r.next <= |src| && |r.out| == |out|
  {
    if !f.checksum then FrameOk(Unfilter(f, out), p)
    else if |src| - p < FOOTER_SIZE then FrameError(BadFrame)
    else if LittleEndian(src, p + 8, 4) != FOOTER_MAGIC then FrameError(BadFrame)
    else if Hash64(c, out) != LittleEndian(src, p, 8) then FrameError(BadFrame)
    else FrameOk(Unfilter(f, out), p + FOOTER_SIZE)
  }

  /** Whether the input holds the block's data, checked kind by kind. */
  predicate HasData(b: BlockHeader, src: seq<Byte>, p: nat)
    requires p + 4 <= |src|
  {
    match b.kind
    case Raw => b.size <= |src| - (p + 4)
    case Rle => p + 4 < |src|
    case _ => 3 <= |src| - (p + 4) && LittleEndian(src, p + 4, 3) <= |src| - (p + 7)
  }

  function DataEnd(b: BlockHeader, src: seq<Byte>, p: nat): (e: nat)
    requires p + 4 <= |src| && HasData(b, src, p)
    ensures p + DataStart(b) <= e <= |src|
  {
    match b.kind
    case Raw => p + 4 + b.size
    case Rle => p + 5
    case _ => p + 7 + LittleEndian(src, p + 4, 3)
  }

  /** The block loop of `vv_decompress_flags`. */
  function DecodeBlocks(c: Codec, cap: nat, f: Info, src: seq<Byte>, p: nat, out: seq<Byte>): (r: FrameResult)
    requires 10 <= f.wlog <= 24 && p <= |src| && |out| <= cap
    ensures r.FrameOk? ==> p <= r.next <= |src| && |r.out| <= cap
    decreases |src| - p
  {
    if |src| - p < 4 then FrameError(BadFrame)
    else
      var b := UnpackBlock(LittleEndian(src, p, 4));
      if b.size > MAX_BLOCK then FrameError(TooLarge)
      else if b.size > cap - |out| then FrameError(TooLarge)
      else if !HasData(b, src, p) then FrameError(BadFrame)
      else
        match DecodePayload(c, f, b, src[p + DataStart(b)..DataEnd(b, src, p)], out)
        case BadPayload(code) => FrameError(code)
        case GoodPayload(block) =>
          if b.last then FinishFrame(c, f, src, DataEnd(b, src, p), out + block)
          else DecodeBlocks(c, cap, f, src, DataEnd(b, src, p), out + block)
  }

  function DecodeFrame(c: Codec, cap: nat, src: seq<Byte>): (r: FrameResult)
    ensures r.FrameOk? ==> HEADER_SIZE <= r.next <= |src| && |r.out| <= cap
  {
    if |src| < HEADER_SIZE then FrameError(BadFrame)
    else
      match ParseHeader(src)
      case BadHeader(code) => FrameError(code)
      case GoodHeader(f) => DecodeBlocks(c, cap, f, src, HEADER_SIZE, [])
  }

  datatype Decompressed = Failure(code: Code) | Success(out: seq<Byte>)

  /** Frame after frame until the input is used up. */
  function DecodeFrames(c: Codec, cap: nat, src: seq<Byte>, out: seq<Byte>): Decompressed
    requires |out| <= cap
    decreases |src|
  {
    if src == [] then Success(out)
    else
      match DecodeFrame(c, cap - |out|, src)
      case FrameError(code) => Failure(code)
      case FrameOk(o, next) => DecodeFrames(c, cap, src[next..], out + o)
  }

  /** `vv_decompress_flags`: at least one frame. */
  function Decompress(c: Codec, cap: nat, src: seq<Byte>): Decompressed {
    if |src| < HEADER_SIZE then Failure(BadFrame) else DecodeFrames(c, cap, src, [])
  }

  /** Both decoders see the same block. */
  lemma SameBlock(src: seq<Byte>, p: nat)
    requires p + 4 <= |src|
    ensures LittleEndian(src[p..], 0, 4) == LittleEndian(src, p, 4)
    ensures var b := UnpackBlock(LittleEndian(src, p, 4));
            var q := src[p..];
            && (HasData(b, src, p) <==>
                  !((b.kind == Compressed || b.kind == Entropy) && |q| < 7) && |q| >= BlockLength(b, q))
            && (HasData(b, src, p) ==>
                  && p + BlockLength(b, q) == DataEnd(b, src, p)
                  && q[DataStart(b)..BlockLength(b, q)] == src[p + DataStart(b)..DataEnd(b, src, p)])
  {
    hide LittleEndian, UnpackBlock;
    LittleEndianSuffix(src, p, 0, 4);
    if p + 7 <= |src| {
      LittleEndianSuffix(src, p, 4, 3);
    }
  }

  ghost predicate Matches(r: FrameResult, q: Rest, src: seq<Byte>) {
    if r.FrameOk? then r.next <= |src| && q == Rest(Done(r.out), src[r.next..]) else !q.st.Done?
  }

  lemma FooterMatches(c: Codec, cap: nat, f: Info, src: seq<Byte>, p: nat, out: seq<Byte>)
    requires 10 <= f.wlog <= 24 && p <= |src|
    ensures StateOkay(AfterBlock(c, f, true, out), cap)
    ensures Matches(FinishFrame(c, f, src, p, out), Run(c, cap, AfterBlock(c, f, true, out), src[p..]), src)
  {
    hide LittleEndian, Unfilter;
    if f.checksum && |src| - p >= FOOTER_SIZE {
      LittleEndianSuffix(src, p, 8, 4);
      LittleEndianSuffix(src, p, 0, 8);
      assert src[p..][FOOTER_SIZE..] == src[p + FOOTER_SIZE..];
      var m := FooterMove(c, f, out, src[p..]);
      EndedStays(c, cap, m.st, src[p..][m.used..]);
    }
  }

  /** One block, in both decoders; `next` is the output with it. */
  lemma BlockStep(c: Codec, cap: nat, f: Info, src: seq<Byte>, p: nat, out: seq<Byte>) returns (next: seq<Byte>)
    requires 10 <= f.wlog <= 24 && p <= |src| && |out| <= cap
    ensures |next| <= cap
    ensures var m := BlockMove(c, cap, f, out, src[p..]);
            var r := DecodeBlocks(c, cap, f, src, p, out);
            if m.Wait? || m.st.Broken? then r.FrameError?
            else
              && |src| - p >= 4 && m.used > 0 && p + m.used <= |src|
              && var last := UnpackBlock(LittleEndian(src, p, 4)).last;
                 && m.st == AfterBlock(c, f, last, next)
                 && r == if last then FinishFrame(c, f, src, p + m.used, next) else DecodeBlocks(c, cap, f, src, p + m.used, next)
  {
    hide LittleEndian, DecodePayload, UnpackBlock, FinishFrame, HasData, DataEnd, BlockLength;
    next := out;
    if |src| - p >= 4 {
      SameBlock(src, p);
      var b := UnpackBlock(LittleEndian(src, p, 4));
      if b.size <= MAX_BLOCK && b.size <= cap - |out| && HasData(b, src, p) {
        var d := DecodePayload(c, f, b, src[p + DataStart(b)..DataEnd(b, src, p)], out);
        if d.GoodPayload? {
          next := out + d.block;
        }
      }
    }
  }

  /** From any block on, the machine given all the input ends in `Done` exactly when the one-shot
      loop succeeds, with the same output and the same input left. */
  lemma {:induction false} BlocksMatch(c: Codec, cap: nat, f: Info, src: seq<Byte>, p: nat, out: seq<Byte>)
    requires 10 <= f.wlog <= 24 && p <= |src| && |out| <= cap
    ensures Matches(DecodeBlocks(c, cap, f, src, p, out), Run(c, cap, AtBlock(f, out), src[p..]), src)
    decreases |src| - p
  {
    hide LittleEndian, UnpackBlock, FinishFrame, BlockMove, DecodeBlocks, AfterBlock, Run, NextMove, Matches;
    var q := src[p..];
    var next := BlockStep(c, cap, f, src, p, out);
    var m := BlockMove(c, cap, f, out, q);
    RunBlock(c, cap, f, out, q);
    if m.Wait? {
      NotDone(DecodeBlocks(c, cap, f, src, p, out), Rest(AtBlock(f, out), q), src);
    } else {
      if m.st.Broken? {
        EndedStays(c, cap, m.st, q[m.used..]);
        NotDone(DecodeBlocks(c, cap, f, src, p, out), Rest(m.st, q[m.used..]), src);
      } else {
        assert q[m.used..] == src[p + m.used..];
        if UnpackBlock(LittleEndian(src, p, 4)).last {
          FooterMatches(c, cap, f, src, p + m.used, next);
        } else {
          NotLast(c, f, next);
          BlocksMatch(c, cap, f, src, p + m.used, next);
        }
      }
    }
  }

  lemma RunBlock(c: Codec, cap: nat, f: Info, out: seq<Byte>, q: seq<Byte>)
    requires 10 <= f.wlog <= 24 && |out| <= cap
    ensures var m := BlockMove(c, cap, f, out, q);
            && (m.Go? ==> m.used <= |q| && StateOkay(m.st, cap))
            && Run(c, cap, AtBlock(f, out), q) == if m.Wait? then Rest(AtBlock(f, out), q) else Run(c, cap, m.st, q[m.used..])
  {
    hide BlockMove;
    assert NextMove(c, cap, AtBlock(f, out), q) == BlockMove(c, cap, f, out, q);
  }

  lemma NotDone(r: FrameResult, q: Rest, src: seq<Byte>)
    requires r.FrameError? && !q.st.Done?
    ensures Matches(r, q, src)
  {
  }

  lemma NotLast(c: Codec, f: Info, out: seq<Byte>)
    ensures AfterBlock(c, f, false, out) == AtBlock(f, out)
  {
  }

  /** On every input the streaming decoder's machine finishes a frame exactly when the one-shot
      decoder does, with the same bytes, the filter undone once in each. */
  lemma StreamMatchesOneShot(c: Codec, cap: nat, src: seq<Byte>)
    ensures Matches(DecodeFrame(c, cap, src), Run(c, cap, AtHeader, src), src)
  {
    hide LittleEndian, DecodeBlocks;
    if |src| >= HEADER_SIZE {
      var m := HeaderMove(src);
      match ParseHeader(src) {
        case BadHeader(code) => EndedStays(c, cap, m.st, src[m.used..]);
        case GoodHeader(f) => BlocksMatch(c, cap, f, src, HEADER_SIZE, []);
      }
    }
  }

  /** One frame, in any chunks: the streaming decoder is done, with nothing left over, exactly when
      the one-shot decoder decodes the whole input, and the outputs are the same. */
  lemma ChunkedFrame(c: Codec, cap: nat, chunks: seq<seq<Byte>>)
    ensures var r := DecodeFrame(c, cap, Joined(chunks));
            var st := FeedAll(c, cap, Rest(AtHeader, []), chunks).st;
            (st.Done? <==> r.FrameOk?) && (r.FrameOk? ==> st == Done(r.out))
  {
    hide DecodeFrame, Run, FeedAll, Joined;
    var start := Rest(AtHeader, []);
    assert Settled(c, cap, start) by { NoMoveYet(c, cap); }
    ChunksDoNotMatter(c, cap, start, chunks);
    assert [] + Joined(chunks) == Joined(chunks);
    StreamMatchesOneShot(c, cap, Joined(chunks));
  }

  lemma NoMoveYet(c: Codec, cap: nat)
    ensures Settled(c, cap, Rest(AtHeader, []))
  {
  }
}
