/** Compressing a whole buffer into one frame (`vv_compress`, `vv_compress_inner`,
    src/vv_encoder.c:2125-2465), with the branch filter in front. */
module OneShot {
  import Arm64
  import Bcj
  import opened Blocks
  import opened Bytes
  import opened Choices
  import Codecs
  import opened Emit
  import opened Frame
  import GreedyParse
  import LateLiterals
  import LateMatch
  import LitCoders
  import opened MatchFinder
  import Xxh

  datatype Filter = NoFilter | X86 | Aarch64

  function InfoOf(checksum: bool, filter: Filter, wlog: nat): Info {
    Info(checksum, filter == X86, filter == Aarch64, wlog)
  }

  /** The frame so far: a header and blocks for the first `done` bytes, which a decoder follows. */
  ghost predicate UpTo(c: Codec, room: nat, f: Info, s: Settings, header: seq<Byte>, frame: seq<Byte>, src: seq<Byte>, done: nat,
                       es: seq<Emission>)
  {
    && done <= |src| <= room && Framing(c, f, s, header, frame, src[..done], es)
    && Follows(c, room, f, frame, src[..done], Verdict(es))
  }

  /** The frame's blocks are complete. */
  ghost predicate Whole(c: Codec, room: nat, f: Info, s: Settings, header: seq<Byte>, frame: seq<Byte>, src: seq<Byte>,
                        es: seq<Emission>)
  {
    Framing(c, f, s, header, frame, src, es) && FollowsBlock(c, room, f, frame, src, Verdict(es), true)
  }

  /** The blocks of a source: 1 MB each, the last one what is left, each with all before it as history and the buffers of
      the largest block. */
  ghost predicate Cut(src: seq<Byte>, es: seq<Emission>) {
    && es != [] && CutSoFar(src, es) && es[|es| - 1].job.last
  }

  ghost predicate CutSoFar(src: seq<Byte>, es: seq<Emission>) {
    forall k :: 0 <= k < |es| ==> IsCut(src, es[k], k)
  }

  function CutEnd(src: seq<Byte>, k: nat): nat {
    if |src| - k * Frame.MAX_BLOCK > Frame.MAX_BLOCK then (k + 1) * Frame.MAX_BLOCK else |src|
  }

  function LargestBlock(src: seq<Byte>): nat {
    if |src| < Frame.MAX_BLOCK then |src| else Frame.MAX_BLOCK
  }

  ghost predicate IsCut(src: seq<Byte>, e: Emission, k: nat) {
    && k * Frame.MAX_BLOCK <= |src| && e.job == Job(src[..CutEnd(src, k)], k * Frame.MAX_BLOCK, CutEnd(src, k) == |src|)
    && (src != [] ==>
          && e.choice.room == LargestBlock(src) + LargestBlock(src) / 255 + 1024
          && e.choice.litCap == LargestBlock(src) && e.choice.entCap == 2 * LitCoders.Bound(LargestBlock(src)))
  }

  /** A block takes the frame on. */
  lemma NextBlock(c: Codec, room: nat, f: Info, s: Settings, header: seq<Byte>, frame: seq<Byte>, src: seq<Byte>, done: nat, end: nat,
                  es: seq<Emission>, e: Emission)
    requires UpTo(c, room, f, s, header, frame, src, done, es) && done <= end <= |src| && EmissionOkay(c, f, s, e)
    requires e.job == Job(src[..end], done, end == |src|)
    ensures if end == |src| then Whole(c, room, f, s, header, frame + e.bytes, src, es + [e])
            else UpTo(c, room, f, s, header, frame + e.bytes, src, end, es + [e])
    ensures |Content(e)| == end - done
  {
    hide Framing, Follows, FollowsBlock, EmissionOkay, Verdict, EndsWith;
    BlockSlices(src, done, end);
    ContentIs(e, done, src[done..end]);
    HistoryEnds(src[..done]);
    AddBlock(c, room, f, s, header, frame, src[..done], es, e);
    assert src[..done] + src[done..end] == src[..end];
    if end == |src| {
      assert src[..end] == src;
    } else {
      FollowsOn(c, room, f, frame + e.bytes, src[..end], Verdict(es + [e]));
    }
  }

  lemma BlockSlices(src: seq<Byte>, done: nat, end: nat)
    requires done <= end <= |src|
    ensures src[..end][..done] == src[..done] && src[..end][done..] == src[done..end]
  {
  }

  /** Room for a header, `done` bytes in blocks, and one block more. */
  function Size(header: nat, done: nat): nat {
    header + done + done / 255 + 6
  }

  lemma SizeNext(header: nat, done: nat, end: nat)
    requires done <= end
    ensures header + done + done / 255 + 6 + (end - done) <= Size(header, end)
    ensures end - done >= 6 * 255 ==> Size(header, done) + 6 + (end - done) <= Size(header, end)
  {
  }

  /** The block of `src[done..end]`. */
  method PutOne(src: seq<Byte>, done: nat, end: nat, m: Matcher, s: Settings, header: seq<Byte>, frame: seq<Byte>, tmp: array<Byte>,
                block: nat, dstCap: nat, ghost f: Info, ghost c: Codec, ghost junk: Codecs.Memory, ghost room: nat,
                ghost es: seq<Emission>)
    returns (w: Written, ghost e: Emission)
    requires Suits(m, s) && SettingsOkay(s) && m.wlog == f.wlog && Genuine(c, junk) && tmp !in m.Tables()
    requires done < end <= |src| && end - done <= block <= Frame.MAX_BLOCK && |frame| <= dstCap
    requires UpTo(c, room, f, s, header, frame, src, done, es)
    modifies m, m.Tables(), tmp
    ensures Suits(m, s)
    ensures if w.Bytes? then |frame| + |w.bytes| <= dstCap && |w.bytes| <= 6 + (end - done) else dstCap < |frame| + 6 + (end - done)
    ensures w.Bytes? ==>
              && |Content(e)| == end - done
              && if end == |src| then Whole(c, room, f, s, header, frame + w.bytes, src, es + [e])
                 else UpTo(c, room, f, s, header, frame + w.bytes, src, end, es + [e])
    ensures w.Bytes? ==>
              && e.job == Job(src[..end], done, end == |src|)
              && e.choice.room == tmp.Length && e.choice.litCap == block && e.choice.entCap == 2 * LitCoders.Bound(block)
    ensures done == 0 && end == |src| && Spoils(s, Job(src, 0, true)) && m.Chains() && LateMatch.Room(|src|, 0) + 512 <= tmp.Length ==>
              w.NoRoom? || e.fate == Broken16
  {
    hide Suits, SettingsOkay, Genuine, UpTo, Whole, Fulfils, Content, Spoils, Verdict, LateMatch.Room, Writes, Chosen;
    var j := Job(src[..end], done, end == |src|);
    assert end == |src| ==> src[..end] == src;
    ghost var fate, ch;
    w, fate, ch := EmitBlock(m, s, j, tmp, block, 2 * LitCoders.Bound(block), dstCap - |frame|, c, junk, f);
    e := Emission(j, if w.Bytes? then w.bytes else [], fate, ch);
    if w.Bytes? {
      WritesChosen(f.wlog, s, j, ch, dstCap - |frame|, w);
      NextBlock(c, room, f, s, header, frame, src, done, end, es, e);
    }
  }

  /** The blocks of a nonempty source, each of at most 1 MB. */
  method PutBlocks(src: seq<Byte>, m: Matcher, s: Settings, header: seq<Byte>, dstCap: nat, ghost f: Info, ghost c: Codec,
                   ghost junk: Codecs.Memory, ghost room: nat)
    returns (r: Written, ghost es: seq<Emission>)
    requires Suits(m, s) && SettingsOkay(s) && m.wlog == f.wlog && Genuine(c, junk) && src != [] && |header| <= dstCap
    requires UpTo(c, room, f, s, header, header, src, 0, [])
    modifies m, m.Tables()
    ensures r.Bytes? ==> |r.bytes| <= dstCap && |r.bytes| <= Size(|header|, |src|)
    ensures r.NoRoom? ==> dstCap < Size(|header|, |src|)
    ensures r.Bytes? ==> Whole(c, room, f, s, header, r.bytes, src, es) && Cut(src, es) && (|src| <= 0xFFFF ==> Small(es))
    ensures r.Bytes? && Spoils(s, Job(src, 0, true)) && m.Chains() ==> Verdict(es) == Broken16
  {
    hide Suits, SettingsOkay, Genuine, UpTo, Whole, Fulfils, Content, Spoils, Verdict, IsCut;
    ghost var spoils := Spoils(s, Job(src, 0, true)) && m.Chains();
    if spoils {
      SpoilsSmall(s, src);
    }
    var block := LargestBlock(src);
    var tmp := new Byte[block + block / 255 + 1024](_ => 0);
    var frame, done := header, 0;
    es := [];
    while done < |src|
      invariant done <= |src| && |frame| <= dstCap && Suits(m, s) && fresh(tmp)
      invariant done < |src| ==> UpTo(c, room, f, s, header, frame, src, done, es) && |frame| <= |header| + done + done / 255
      invariant done == |src| ==> Whole(c, room, f, s, header, frame, src, es) && |frame| <= Size(|header|, done)
      invariant CutSoFar(src, es) && if done < |src| then done == |es| * Frame.MAX_BLOCK else es != [] && es[|es| - 1].job.last
      invariant |src| <= 0xFFFF ==> Small(es)
      invariant spoils ==> if done == 0 then es == [] else done == |src| && Verdict(es) == Broken16
    {
      var end := if |src| - done > Frame.MAX_BLOCK then done + Frame.MAX_BLOCK else |src|;
      SizeNext(|header|, done, end);
      var w;
      ghost var e;
      w, e := PutOne(src, done, end, m, s, header, frame, tmp, block, dstCap, f, c, junk, room, es);
      if w.NoRoom? {
        SizeGrows(|header|, end, |src|);
        return NoRoom, es;
      }
      if spoils {
        OneVerdict(e);
        assert [] + [e] == [e];
      }
      CutNext(src, es, e, done, end);
      frame, done, es := frame + w.bytes, end, es + [e];
    }
    return Bytes(frame), es;
  }

  lemma CutNext(src: seq<Byte>, es: seq<Emission>, e: Emission, done: nat, end: nat)
    requires CutSoFar(src, es) && done == |es| * Frame.MAX_BLOCK < |src|
    requires end == if |src| - done > Frame.MAX_BLOCK then done + Frame.MAX_BLOCK else |src|
    requires e.job == Job(src[..end], done, end == |src|)
    requires e.choice.room == LargestBlock(src) + LargestBlock(src) / 255 + 1024
    requires e.choice.litCap == LargestBlock(src) && e.choice.entCap == 2 * LitCoders.Bound(LargestBlock(src))
    ensures CutSoFar(src, es + [e])
  {
    hide LargestBlock, LitCoders.Bound;
    assert IsCut(src, e, |es|);
    hide IsCut;
  }

  /** A block that spoils is a source of one block, and the parser has room for it. */
  lemma SpoilsSmall(s: Settings, src: seq<Byte>)
    requires Spoils(s, Job(src, 0, true))
    ensures |src| < Frame.MAX_BLOCK
    ensures LateMatch.Room(|src|, 0) + 512 <= |src| + |src| / 255 + 1024
  {
    hide LateMatch.Ends, LateLiterals.Lasting;
  }

  lemma SpoilsSome(s: Settings, src: seq<Byte>)
    requires Spoils(s, Job(src, 0, true))
    ensures src != []
  {
    hide LateMatch.Ends, LateLiterals.Lasting;
  }

  lemma OneVerdict(e: Emission)
    ensures Verdict([e]) == e.fate
  {
    EmissionNext([], e);
    assert [] + [e] == [e];
  }

  lemma SizeGrows(header: nat, a: nat, b: nat)
    requires a <= b
    ensures Size(header, a) <= Size(header, b)
  {
  }

  /** An empty source is one empty block. */
  lemma NothingToSay(c: Codec, room: nat, f: Info, s: Settings, frame: seq<Byte>) returns (es: seq<Emission>)
    requires UpTo(c, room, f, s, frame, frame, [], 0, [])
    ensures Whole(c, room, f, s, frame, frame + RawBlock(true, []), [], es) && |RawBlock(true, [])| == 4 && Small(es) && Cut([], es)
  {
    hide Framing, Run, AfterBlock, RawBlock, EmissionOkay, Verdict;
    var e := EmptyEmission(c, f, s, []);
    AddBlock(c, room, f, s, frame, frame, [], [], e);
    assert [] + Content(e) == [];
    EmptyRaw();
    es := [] + [e];
  }

  lemma HeaderUpTo(c: Codec, room: nat, f: Info, s: Settings, src: seq<Byte>)
    requires 10 <= f.wlog <= 24 && !(f.x86 && f.arm64) && |src| <= room
    ensures var h := FrameHeader(f, ModeHint(s), |src|); UpTo(c, room, f, s, h, h, src, 0, [])
  {
    hide Run, FrameHeader;
    HeaderParses(f, ModeHint(s), |src|);
    HeaderRun(c, room, FrameHeader(f, ModeHint(s), |src|), f);
    NoEmissions(c, f, s, FrameHeader(f, ModeHint(s), |src|));
    assert src[..0] == [];
  }

  /** `vv_compress_bound`. */
  function CompressBound(n: nat): nat {
    n + n / 255 + 256 + HEADER_SIZE + FOOTER_SIZE
  }

  /** `vv_compress_inner`: the frame of a source that has already been filtered. */
  method CompressInner(src: seq<Byte>, checksum: bool, filter: Filter, m: Matcher, s: Settings, dstCap: nat,
                       ghost junk: Codecs.Memory, ghost room: nat)
    returns (r: Written, ghost es: seq<Emission>)
    requires Suits(m, s) && SettingsOkay(s) && |src| <= room
    modifies m, m.Tables()
    ensures r.Bytes? ==> |r.bytes| <= dstCap
    ensures r.NoRoom? ==> dstCap < CompressBound(|src|)
    ensures r.Bytes? ==>
              var f := InfoOf(checksum, filter, m.wlog);
              && 10 <= f.wlog <= 24 && (|src| <= 0xFFFF ==> Small(es)) && Cut(src, es)
              && Complete(Codecs.Real(junk), room, f, s, FrameHeader(f, ModeHint(s), |src|), r.bytes, src, es)
    ensures r.Bytes? && Spoils(s, Job(src, 0, true)) && m.Chains() ==> Verdict(es) == Broken16
  {
    hide SettingsOkay, Verdict, UpTo, Whole, Codecs.Real, Complete, FrameHeader, RawBlock, Hash64, FooterBytes, Xxh.Hash, Small, Spoils, Cut;
    es := [];
    if dstCap < HEADER_SIZE + FOOTER_SIZE + 16 {
      return NoRoom, es;
    }
    ghost var c := Codecs.Real(junk);
    var f := InfoOf(checksum, filter, m.wlog);
    var header := FrameHeader(f, ModeHint(s), |src|);
    var frame := header;
    HeaderUpTo(c, room, f, s, src);
    if Spoils(s, Job(src, 0, true)) {
      SpoilsSome(s, src);
    }
    if src == [] {
      es := NothingToSay(c, room, f, s, frame);
      frame := frame + RawBlock(true, []);
    } else {
      var w;
      w, es := PutBlocks(src, m, s, frame, dstCap, f, c, junk, room);
      if w.NoRoom? {
        return NoRoom, es;
      }
      frame := w.bytes;
    }
    r := FinishFrame(src, f, s, header, frame, dstCap, junk, room, es);
  }

  /** The footer, if there is one. */
  method FinishFrame(src: seq<Byte>, f: Info, s: Settings, header: seq<Byte>, frame: seq<Byte>, dstCap: nat, ghost junk: Codecs.Memory,
                     ghost room: nat, ghost es: seq<Emission>)
    returns (r: Written)
    requires |frame| <= dstCap && Whole(Codecs.Real(junk), room, f, s, header, frame, src, es)
    ensures if r.Bytes? then |r.bytes| <= dstCap else dstCap < |frame| + FOOTER_SIZE
    ensures r.Bytes? ==> Complete(Codecs.Real(junk), room, f, s, header, r.bytes, src, es)
  {
    hide Codecs.Real, Hash64, Xxh.Hash, FooterBytes, Framing, FollowsBlock, Verdict, Complete;
    EndFrame(Codecs.Real(junk), room, f, s, header, frame, src, es);
    if !f.checksum {
      assert frame + [] == frame;
      return Bytes(frame);
    }
    if FOOTER_SIZE > dstCap - |frame| {
      return NoRoom;
    }
    var h := Xxh.VvXxh64(src, 0);
    Codecs.RealHash(junk, src);
    r := Bytes(frame + FooterBytes(h as nat));
  }

  /** What a caller asks for, and what header detection finds when it is asked to look. */
  datatype Options = Options(x86: bool, aarch64: bool, automatic: bool, detected: Filter, checksum: bool)

  datatype Compressed = BadOptions | TooSmall | Framed(bytes: seq<Byte>)

  function FilterOf(o: Options, src: seq<Byte>): Filter {
    if src == [] then (if o.x86 then X86 else if o.aarch64 then Aarch64 else NoFilter)
    else if o.x86 then X86
    else if o.aarch64 then Aarch64
    else if o.automatic then o.detected
    else NoFilter
  }

  /** The filter in the compressing direction, and its undoing. */
  function Filtered(filter: Filter, src: seq<Byte>): (r: seq<Byte>)
    ensures |r| == |src|
  {
    match filter
    case NoFilter => src
    case X86 => Bcj.X86(src, 5, 0, 0, true)
    case Aarch64 => Arm64.Filter(src, 0, 0, true)
  }

  /** What a frame's end does to filtered bytes gives the bytes. */
  lemma FilterUndone(checksum: bool, filter: Filter, wlog: nat, src: seq<Byte>)
    ensures Unfilter(InfoOf(checksum, filter, wlog), Filtered(filter, src)) == src
  {
    hide Bcj.X86, Arm64.Filter;
    Bcj.X86Inverse(src, 5, 0, 0, true);
    Arm64.FilterInverse(src, 0, 0, true);
  }

  method FilterCopy(filter: Filter, src: seq<Byte>) returns (r: seq<Byte>)
    ensures r == Filtered(filter, src)
  {
    hide Bcj.X86, Arm64.Filter;
    if filter == NoFilter {
      return src;
    }
    var copy := new Byte[|src|](i requires 0 <= i < |src| => src[i]);
    assert copy[..] == src;
    if filter == X86 {
      var _ := Bcj.X86InPlace(copy, 0, true);
    } else {
      var _ := Arm64.FilterInPlace(copy, 0, true);
    }
    r := copy[..];
  }

  /** `vv_compress`: the frame of one header, blocks for the filtered source, and the footer, whatever the mode,
      the window, the filter and the matcher's tables.

      If every block is sound the frame decompresses to the source, and a streaming decoder, fed it in any
      pieces, ends with the source too. A block is not sound only if it holds more than 65535 coded literals: never
      in fast mode, in format v2, or for a source of at most 65535 bytes. If the first such block is a broken one,
      neither decoder decodes the frame, and so it is, in balanced mode, for every filtered source that spoils. There
      is always room in `vv_compress_bound` bytes. */
  method VvCompress(src: seq<Byte>, o: Options, m: Matcher, s: Settings, dstCap: nat, ghost junk: Codecs.Memory, ghost room: nat)
    returns (r: Compressed, ghost es: seq<Emission>)
    requires Suits(m, s) && SettingsOkay(s) && |src| <= room
    modifies m, m.Tables()
    ensures o.x86 && o.aarch64 <==> r.BadOptions?
    ensures r.Framed? ==> |r.bytes| <= dstCap
    ensures r.TooSmall? ==> dstCap < CompressBound(|src|)
    ensures r.Framed? ==>
              var f := InfoOf(o.checksum, FilterOf(o, src), m.wlog);
              && 10 <= f.wlog <= 24
              && Complete(Codecs.Real(junk), room, f, s, FrameHeader(f, ModeHint(s), |src|), r.bytes, Filtered(FilterOf(o, src), src), es)
              && Cut(Filtered(FilterOf(o, src), src), es)
    ensures r.Framed? && Verdict(es).Sound? ==> Decompress(Codecs.Real(junk), room, r.bytes) == Success(src)
    ensures r.Framed? && Verdict(es).Sound? ==> forall pieces: seq<seq<Byte>> :: Joined(pieces) == r.bytes ==>
              FeedAll(Codecs.Real(junk), room, Rest(AtHeader, []), pieces).st == Done(src)
    ensures r.Framed? && Verdict(es).Broken16? ==> Decompress(Codecs.Real(junk), room, r.bytes).Failure?
    ensures r.Framed? && Verdict(es).Broken16? ==> forall pieces: seq<seq<Byte>> :: Joined(pieces) == r.bytes ==>
              FeedAll(Codecs.Real(junk), room, Rest(AtHeader, []), pieces).st.Broken?
    ensures r.Framed? && (s.mode == GreedyParse.UltraFast || s.v2 || |src| <= 0xFFFF) ==> Verdict(es).Sound?
    ensures r.Framed? && Spoils(s, Job(Filtered(FilterOf(o, src), src), 0, true)) && m.Chains() ==> Verdict(es).Broken16?
  {
    hide Codecs.Real, Unfilter, Decompress, FeedAll, Filtered, Joined, Suits, SettingsOkay, Complete, Small, FrameHeader, Spoils, Cut;
    es := [];
    if o.x86 && o.aarch64 {
      return BadOptions, es;
    }
    var filter := FilterOf(o, src);
    var input := FilterCopy(filter, src);
    var w;
    ghost var f := InfoOf(o.checksum, filter, m.wlog);
    w, es := CompressInner(input, o.checksum, filter, m, s, dstCap, junk, room);
    if w.NoRoom? {
      return TooSmall, es;
    }
    r := Framed(w.bytes);
    FilterUndone(o.checksum, filter, m.wlog, src);
    CompleteMeans(Codecs.Real(junk), room, f, s, FrameHeader(f, ModeHint(s), |src|), w.bytes, input, es);
  }
}
