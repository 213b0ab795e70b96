/** Writing frames: headers and blocks, and what the decoder's machine makes of them
    (src/vv_encoder.c:1803-1985, include/vaptvupt.h). */
module Blocks {
  import opened Bits
  import opened BlockDecode
  import opened Bytes
  import opened Frame
  import opened Lz
  import opened Tokens
  import opened Wire

  //////////////////////////////////////////////////////////////////////////////
  // Headers
  //////////////////////////////////////////////////////////////////////////////

  function KindCode(k: BlockType): nat {
    match k
    case Raw => 0
    case Compressed => 1
    case Rle => 2
    case Entropy => 3
  }

  /** `vv_bh_pack`. */
  function PackBlock(k: BlockType, last: bool, size: nat): nat {
    KindCode(k) + (if last then 4 else 0) + 8 * size
  }

  lemma UnpackPacked(k: BlockType, last: bool, size: nat)
    requires size <= Frame.MAX_BLOCK
    ensures UnpackBlock(PackBlock(k, last, size)) == BlockHeader(k, last, size)
    ensures PackBlock(k, last, size) < 0x1_0000_0000
  {
  }

  /** The header: flags, mode hint, window, content size (0 when it is not known). */
  function FrameHeader(f: Info, mode: nat, content: nat): (h: seq<Byte>)
    requires mode < 256 && f.wlog < 256
    ensures |h| == HEADER_SIZE
  {
    var flags := (if f.checksum then 1 else 0) + (if f.x86 then 4 else 0) + (if f.arm64 then 8 else 0);
    LeBytes(MAGIC, 4) + [1, flags, mode, f.wlog] + LeBytes(content, 8)
  }

  /** At most one filter: the decoder refuses a header that names both. */
  lemma HeaderParses(f: Info, mode: nat, content: nat)
    requires mode < 256 && 10 <= f.wlog <= 24
    ensures ParseHeader(FrameHeader(f, mode, content)) == if f.x86 && f.arm64 then BadHeader(BadFrame) else GoodHeader(f)
  {
    hide LeBytes, LittleEndian, Pow2;
    var h := FrameHeader(f, mode, content);
    var rest := h[4..];
    Pow2Of32();
    assert h == LeBytes(MAGIC, 4) + rest;
    FrontLe(MAGIC, 4, rest);
  }

  //////////////////////////////////////////////////////////////////////////////
  // Blocks
  //////////////////////////////////////////////////////////////////////////////

  function RawBlock(last: bool, data: seq<Byte>): seq<Byte> {
    LeBytes(PackBlock(Raw, last, |data|), 4) + data
  }

  /** A block with a body: plain tokens, or an entropy-coded one. */
  function LongBlock(k: BlockType, last: bool, size: nat, body: seq<Byte>): seq<Byte> {
    LeBytes(PackBlock(k, last, size), 4) + (LeBytes(|body|, 3) + body)
  }

  lemma RawMove(c: Codec, cap: nat, f: Info, out: seq<Byte>, last: bool, data: seq<Byte>)
    requires 10 <= f.wlog <= 24 && |data| <= Frame.MAX_BLOCK && |out| + |data| <= cap
    ensures BlockMove(c, cap, f, out, RawBlock(last, data)) == Go(AfterBlock(c, f, last, out + data), |RawBlock(last, data)|)
  {
    hide LeBytes, LittleEndian, Pow2, UnpackBlock, AfterBlock;
    var p, v := RawBlock(last, data), PackBlock(Raw, last, |data|);
    UnpackPacked(Raw, last, |data|);
    Pow2Of32();
    FrontLe(v, 4, data);
    assert p[4..4 + |data|] == data;
  }

  lemma LongParts(k: BlockType, last: bool, size: nat, body: seq<Byte>)
    requires (k == Compressed || k == Entropy) && size <= Frame.MAX_BLOCK && |body| < 0x100_0000
    ensures var p := LongBlock(k, last, size, body);
            && |p| == 7 + |body| && UnpackBlock(LittleEndian(p, 0, 4)) == BlockHeader(k, last, size)
            && LittleEndian(p, 4, 3) == |body| && p[7..7 + |body|] == body
  {
    hide LeBytes, LittleEndian, Pow2, UnpackBlock;
    var p, v := LongBlock(k, last, size, body), PackBlock(k, last, size);
    UnpackPacked(k, last, size);
    Pow2Of32();
    FrontLe(v, 4, LeBytes(|body|, 3) + body);
    assert p[4..] == LeBytes(|body|, 3) + body;
    FrontLe(|body|, 3, body);
    LittleEndianSuffix(p, 4, 0, 3);
  }

  /** The machine's move at such a block is what its body decodes to. */
  lemma LongMove(c: Codec, cap: nat, f: Info, out: seq<Byte>, k: BlockType, last: bool, size: nat, body: seq<Byte>)
    requires 10 <= f.wlog <= 24 && size <= Frame.MAX_BLOCK && |out| + size <= cap && |body| < 0x100_0000
    requires k == Compressed || k == Entropy
    ensures BlockMove(c, cap, f, out, LongBlock(k, last, size, body)) ==
            match DecodePayload(c, f, BlockHeader(k, last, size), body, out)
            case BadPayload(code) => Go(Broken(code, out), 0)
            case GoodPayload(block) => Go(AfterBlock(c, f, last, out + block), |LongBlock(k, last, size, body)|)
  {
    hide LeBytes, LittleEndian, UnpackBlock, AfterBlock, DecodePayload, LongBlock;
    LongParts(k, last, size, body);
  }

  predicate EndsWith(out: seq<Byte>, hist: seq<Byte>) {
    |hist| <= |out| && out[|out| - |hist|..] == hist
  }

  /** The machine takes the block and appends `data`, after any output that ends in `hist`. */
  ghost predicate Adds(c: Codec, f: Info, block: seq<Byte>, last: bool, hist: seq<Byte>, data: seq<Byte>) {
    && 10 <= f.wlog <= 24
    && forall cap: nat, out: seq<Byte> :: EndsWith(out, hist) && |out| + |data| <= cap ==>
         AddsAfter(c, cap, f, block, last, out, data)
  }

  ghost predicate AddsAfter(c: Codec, cap: nat, f: Info, block: seq<Byte>, last: bool, out: seq<Byte>, data: seq<Byte>)
    requires 10 <= f.wlog <= 24
  {
    BlockMove(c, cap, f, out, block) == Go(AfterBlock(c, f, last, out + data), |block|)
  }

  lemma RawAdds(c: Codec, f: Info, last: bool, hist: seq<Byte>, data: seq<Byte>)
    requires 10 <= f.wlog <= 24 && |data| <= Frame.MAX_BLOCK
    ensures Adds(c, f, RawBlock(last, data), last, hist, data)
  {
    hide BlockMove, AfterBlock, RawBlock;
    forall cap: nat, out: seq<Byte> | EndsWith(out, hist) && |out| + |data| <= cap
      ensures AddsAfter(c, cap, f, RawBlock(last, data), last, out, data)
    {
      RawMove(c, cap, f, out, last, data);
    }
  }

  lemma BehindEnd(out: seq<Byte>, hist: seq<Byte>, block: seq<Byte>) returns (pre: seq<Byte>)
    requires EndsWith(out, hist)
    ensures out == pre + hist && |out| == |pre| + |hist| && pre + (hist + block) == out + block
  {
    pre := out[..|out| - |hist|];
  }

  /** Tokens that decode after `hist` decode after any output that ends in it. */
  lemma TokensAfter(tokens: seq<Byte>, hist: seq<Byte>, block: seq<Byte>, out: seq<Byte>, maxOffset: nat, offBytes: nat,
                    minMatch: nat)
    requires DecodeTokens(tokens, 0, hist, |hist| + |block|, maxOffset, offBytes, minMatch) == BlockOk(hist + block)
    requires EndsWith(out, hist)
    ensures DecodeTokens(tokens, 0, out, |out| + |block|, maxOffset, offBytes, minMatch) == BlockOk(out + block)
  {
    hide DecodeTokens, EndsWith;
    var pre := BehindEnd(out, hist, block);
    LongerHistory(tokens, 0, pre, hist, |hist| + |block|, maxOffset, offBytes, minMatch);
    assert |pre| + (|hist| + |block|) == |out| + |block|;
  }

  /** A body that adds `block` after every output ending in `hist` makes a block that does. */
  lemma LongAdds(c: Codec, f: Info, k: BlockType, last: bool, body: seq<Byte>, hist: seq<Byte>, block: seq<Byte>)
    requires 10 <= f.wlog <= 24 && |block| <= Frame.MAX_BLOCK && |body| < 0x100_0000 && (k == Compressed || k == Entropy)
    requires forall out: seq<Byte> :: EndsWith(out, hist) ==>
               DecodePayload(c, f, BlockHeader(k, last, |block|), body, out) == GoodPayload(block)
    ensures Adds(c, f, LongBlock(k, last, |block|, body), last, hist, block)
  {
    hide BlockMove, AfterBlock, LongBlock, DecodePayload, EndsWith;
    forall cap: nat, out: seq<Byte> | EndsWith(out, hist) && |out| + |block| <= cap
      ensures AddsAfter(c, cap, f, LongBlock(k, last, |block|, body), last, out, block)
    {
      LongMove(c, cap, f, out, k, last, |block|, body);
    }
  }

  /** The machine breaks at the block, after any output that ends in `hist`. */
  ghost predicate Breaks(c: Codec, f: Info, block: seq<Byte>, hist: seq<Byte>, size: nat) {
    && 10 <= f.wlog <= 24
    && forall cap: nat, out: seq<Byte> :: EndsWith(out, hist) && |out| + size <= cap ==> BreaksAfter(c, cap, f, block, out)
  }

  ghost predicate BreaksAfter(c: Codec, cap: nat, f: Info, block: seq<Byte>, out: seq<Byte>)
    requires 10 <= f.wlog <= 24
  {
    BlockMove(c, cap, f, out, block).Go? && BlockMove(c, cap, f, out, block).st.Broken?
  }

  lemma LongBreaks(c: Codec, f: Info, k: BlockType, last: bool, body: seq<Byte>, hist: seq<Byte>, size: nat)
    requires 10 <= f.wlog <= 24 && size <= Frame.MAX_BLOCK && |body| < 0x100_0000 && (k == Compressed || k == Entropy)
    requires forall out: seq<Byte> :: EndsWith(out, hist) ==>
               DecodePayload(c, f, BlockHeader(k, last, size), body, out).BadPayload?
    ensures Breaks(c, f, LongBlock(k, last, size, body), hist, size)
  {
    hide BlockMove, AfterBlock, LongBlock, DecodePayload, EndsWith;
    forall cap: nat, out: seq<Byte> | EndsWith(out, hist) && |out| + size <= cap
      ensures BreaksAfter(c, cap, f, LongBlock(k, last, size, body), out)
    {
      LongMove(c, cap, f, out, k, last, size, body);
    }
  }

  //////////////////////////////////////////////////////////////////////////////
  // The decoder keeps up
  //////////////////////////////////////////////////////////////////////////////

  /** A decoder at rest takes in more. */
  lemma RunOn(c: Codec, cap: nat, emitted: seq<Byte>, st: State, x: seq<Byte>)
    requires StateOkay(st, cap) && Run(c, cap, AtHeader, emitted) == Rest(st, []) && !Ended(st)
    ensures Run(c, cap, AtHeader, emitted + x) == Run(c, cap, st, x)
  {
    hide Run, NextMove;
    RunSplit(c, cap, AtHeader, emitted, x);
    assert [] + x == x;
  }

  lemma RunMove(c: Codec, cap: nat, st: State, x: seq<Byte>, next: State)
    requires StateOkay(st, cap) && !Ended(st) && NextMove(c, cap, st, x) == Go(next, |x|)
    ensures StateOkay(next, cap) && Run(c, cap, st, x) == Run(c, cap, next, [])
  {
    assert x[|x|..] == [];
  }

  lemma RestAtBlock(c: Codec, cap: nat, f: Info, out: seq<Byte>)
    requires 10 <= f.wlog <= 24 && |out| <= cap
    ensures AfterBlock(c, f, false, out) == AtBlock(f, out)
    ensures Run(c, cap, AtBlock(f, out), []) == Rest(AtBlock(f, out), [])
  {
    assert NextMove(c, cap, AtBlock(f, out), []) == Wait;
  }

  lemma HeaderRun(c: Codec, cap: nat, h: seq<Byte>, f: Info)
    requires |h| == HEADER_SIZE && 10 <= f.wlog <= 24 && ParseHeader(h) == GoodHeader(f)
    ensures Run(c, cap, AtHeader, h) == Rest(AtBlock(f, []), [])
  {
    hide ParseHeader, Run;
    assert NextMove(c, cap, AtHeader, h) == Go(AtBlock(f, []), HEADER_SIZE);
    RunMove(c, cap, AtHeader, h, AtBlock(f, []));
    RestAtBlock(c, cap, f, []);
  }

  lemma BlockRun(c: Codec, cap: nat, f: Info, emitted: seq<Byte>, block: seq<Byte>, last: bool, input: seq<Byte>,
                 hist: seq<Byte>, data: seq<Byte>)
    requires 10 <= f.wlog <= 24 && |input| + |data| <= cap && EndsWith(input, hist)
    requires Run(c, cap, AtHeader, emitted) == Rest(AtBlock(f, input), []) && Adds(c, f, block, last, hist, data)
    ensures StateOkay(AfterBlock(c, f, last, input + data), cap)
    ensures Run(c, cap, AtHeader, emitted + block) == Run(c, cap, AfterBlock(c, f, last, input + data), [])
  {
    hide Run, BlockMove, EndsWith;
    RunOn(c, cap, emitted, AtBlock(f, input), block);
    assert AddsAfter(c, cap, f, block, last, input, data);
    assert NextMove(c, cap, AtBlock(f, input), block) == BlockMove(c, cap, f, input, block);
    RunMove(c, cap, AtBlock(f, input), block, AfterBlock(c, f, last, input + data));
  }

  /** A decoder at rest breaks at such a block. */
  lemma BreakRun(c: Codec, cap: nat, f: Info, emitted: seq<Byte>, block: seq<Byte>, input: seq<Byte>, hist: seq<Byte>, size: nat)
    requires 10 <= f.wlog <= 24 && |input| + size <= cap && EndsWith(input, hist)
    requires Run(c, cap, AtHeader, emitted) == Rest(AtBlock(f, input), []) && Breaks(c, f, block, hist, size)
    ensures Run(c, cap, AtHeader, emitted + block).st.Broken?
  {
    hide Run, BlockMove, EndsWith;
    RunOn(c, cap, emitted, AtBlock(f, input), block);
    assert BreaksAfter(c, cap, f, block, input);
    var m := BlockMove(c, cap, f, input, block);
    assert NextMove(c, cap, AtBlock(f, input), block) == m;
    MoveThen(c, cap, AtBlock(f, input), block, m.st, m.used);
    EndedStays(c, cap, m.st, block[m.used..]);
  }

  lemma EmptyRaw()
    ensures |RawBlock(true, [])| == 4
  {
  }

  lemma MoveThen(c: Codec, cap: nat, st: State, x: seq<Byte>, next: State, used: nat)
    requires StateOkay(st, cap) && !Ended(st) && NextMove(c, cap, st, x) == Go(next, used)
    ensures StateOkay(next, cap) && used <= |x| && Run(c, cap, st, x) == Run(c, cap, next, x[used..])
  {
  }

  /** What comes after does not mend it. */
  lemma BrokenStays(c: Codec, cap: nat, frame: seq<Byte>, x: seq<Byte>)
    requires Run(c, cap, AtHeader, frame).st.Broken?
    ensures Run(c, cap, AtHeader, frame + x).st.Broken?
  {
    hide Run, NextMove;
    RunSplit(c, cap, AtHeader, frame, x);
  }

  /** Neither decoder decodes a broken frame, and the streaming one breaks however the frame is cut. */
  lemma BrokenFrame(c: Codec, cap: nat, frame: seq<Byte>, pieces: seq<seq<Byte>>)
    requires Run(c, cap, AtHeader, frame).st.Broken?
    ensures Decompress(c, cap, frame).Failure?
    ensures Joined(pieces) == frame ==> FeedAll(c, cap, Rest(AtHeader, []), pieces).st.Broken?
  {
    hide Run, DecodeFrame, FeedAll, Joined;
    StreamMatchesOneShot(c, cap, frame);
    if Joined(pieces) == frame {
      var start := Rest(AtHeader, []);
      assert Settled(c, cap, start) by { NoMoveYet(c, cap); }
      ChunksDoNotMatter(c, cap, start, pieces);
      assert [] + frame == frame;
    }
  }

  function FooterBytes(hash: nat): (b: seq<Byte>)
    ensures |b| == FOOTER_SIZE
  {
    LeBytes(hash, 8) + LeBytes(FOOTER_MAGIC, 4)
  }

  /** A right footer ends the frame: the filter is undone, once, after the check. */
  lemma FooterRun(c: Codec, cap: nat, f: Info, emitted: seq<Byte>, out: seq<Byte>)
    requires 10 <= f.wlog <= 24 && f.checksum
    requires Run(c, cap, AtHeader, emitted) == Run(c, cap, AfterBlock(c, f, true, out), [])
    ensures Run(c, cap, AtHeader, emitted + FooterBytes(Hash64(c, out))) == Rest(Done(Unfilter(f, out)), [])
  {
    hide LeBytes, LittleEndian, Pow2, Hash64, Unfilter;
    var p := FooterBytes(Hash64(c, out));
    var st := AtFooter(f, out);
    assert NextMove(c, cap, st, []) == Wait;
    RunOn(c, cap, emitted, st, p);
    Pow2Of64();
    Pow2Of32();
    FrontLe(Hash64(c, out), 8, LeBytes(FOOTER_MAGIC, 4));
    assert p[8..] == LeBytes(FOOTER_MAGIC, 4) + [];
    FrontLe(FOOTER_MAGIC, 4, []);
    LittleEndianSuffix(p, 8, 0, 4);
    var done := Done(Unfilter(f, out));
    assert NextMove(c, cap, st, p) == Go(done, |p|);
    RunMove(c, cap, st, p, done);
    EndedStays(c, cap, done, []);
  }

  lemma UncheckedEnd(c: Codec, cap: nat, f: Info, out: seq<Byte>)
    requires 10 <= f.wlog <= 24 && !f.checksum
    ensures Run(c, cap, AfterBlock(c, f, true, out), []) == Rest(Done(Unfilter(f, out)), [])
  {
    hide Unfilter;
    EndedStays(c, cap, Done(Unfilter(f, out)), []);
  }

  /** Without a filter the output is what was decoded. */
  lemma PlainEnd(c: Codec, f: Info, out: seq<Byte>)
    requires !f.x86 && !f.arm64
    ensures Unfilter(f, out) == out
  {
  }

  /** A frame the streaming decoder finishes with nothing left is one the one-shot decoder decodes
      whole. */
  lemma FinishedFrame(c: Codec, cap: nat, frame: seq<Byte>, out: seq<Byte>)
    requires Run(c, cap, AtHeader, frame) == Rest(Done(out), [])
    ensures DecodeFrame(c, cap, frame) == FrameOk(out, |frame|)
    ensures Decompress(c, cap, frame) == Success(out)
  {
    hide Run, DecodeFrame;
    StreamMatchesOneShot(c, cap, frame);
    var r := DecodeFrame(c, cap, frame);
    assert r.FrameOk? && frame[r.next..] == [];
    assert [] + out == out;
    assert DecodeFrames(c, cap, [], out) == Success(out);
  }

}
