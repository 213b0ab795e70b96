/** A source that `vv_compress` turns, in balanced mode and format v1, into a frame no decoder decodes: 67584 bytes
    without a repeat, counted in three alphabets, and a run of 64 equal bytes. */
module FailingInput {
  import opened Bytes
  import opened Choices
  import CStream
  import Codecs
  import opened Counter
  import opened Emit
  import Frame
  import GreedyParse
  import LateLiterals
  import LateMatch
  import opened MatchFinder
  import OneShot
  import Xxh

  const RUN: nat := 64

  function Source(): (s: seq<Byte>)
    ensures |s| == LENGTH + RUN && Text(LENGTH) <= s
    ensures forall i :: LENGTH <= i < |s| ==> s[i] == 96
  {
    Text(LENGTH) + seq(RUN, _ => 96)
  }

  /** A byte of the text is one of the three alphabets'. */
  lemma Symbols(i: nat)
    requires i < |Source()|
    ensures Symbol(Source()[i]) && (i < LENGTH ==> Source()[i] == At(i))
  {
    hide High, Middle, Low;
    if i < LENGTH {
      assert Source()[i] == Text(LENGTH)[i];
    }
  }

  lemma LastThree()
    ensures At(LENGTH - 3) == 53 && At(LENGTH - 2) == 95 && At(LENGTH - 1) == 127
  {
  }

  /** Four bytes that start in the text have not occurred before. */
  lemma FreshGram(at: nat, ref: nat)
    requires ref < at < LENGTH
    ensures LateMatch.Gram(Source(), at) != LateMatch.Gram(Source(), ref)
  {
    hide At, Source;
    var a, b := LateMatch.Gram(Source(), at), LateMatch.Gram(Source(), ref);
    assert forall k: nat :: k < 4 ==> a[k] == Source()[at + k] && b[k] == Source()[ref + k];
    Symbols(at);
    Symbols(ref);
    Symbols(at + 1);
    Symbols(ref + 1);
    Symbols(at + 2);
    Symbols(ref + 2);
    LastThree();
    if at + 2 < LENGTH {
      NoRepeat(ref, at);
    } else if ref + 3 < LENGTH {
      Symbols(at + 3);
      Symbols(ref + 3);
      NoTwoLow(ref + 2);
    }
  }

  lemma SourceEnds()
    ensures LateMatch.Ending(Source(), 0, |Source()|, LENGTH)
  {
    hide Source;
    forall at, ref | 0 <= at < LENGTH && 0 <= ref < at
      ensures LateMatch.Gram(Source(), at) != LateMatch.Gram(Source(), ref)
    {
      FreshGram(at, ref);
    }
  }

  lemma SourceLasts()
    ensures LateLiterals.Lasting(Source())
  {
    hide Source, At, Text;
    var s := Source();
    var front := s[..|s| - LateMatch.RUN_MOST];
    assert front == Text(LENGTH - 64) by { Fronts(); }
    forall b | b in s
      ensures 128 * multiset(front)[b] >= |s|
    {
      var i :| 0 <= i < |s| && s[i] == b;
      Symbols(i);
      Frequent(b);
    }
  }

  lemma Fronts()
    ensures Source()[..|Source()| - LateMatch.RUN_MOST] == Text(LENGTH - 64)
  {
    hide At;
  }

  /** The source spoils its block. */
  lemma SourceSpoils(s: Settings)
    requires s.mode == GreedyParse.Balanced && !s.v2
    ensures Spoils(s, Job(Source(), 0, true))
  {
    hide Source, LateMatch.Ending, LateLiterals.Lasting;
    SourceEnds();
    SourceLasts();
    var src := Source();
    assert src[0..|src|] == src;
  }

  /** Compressed in balanced mode and format v1 without a filter, whatever the window, the estimates and the tables
      hold, it gives a frame that decodes neither at once nor in any pieces; there is always room for it in
      `vv_compress_bound` bytes. */
  method FrameFails(checksum: bool, m: Matcher, s: Settings, dstCap: nat, ghost junk: Codecs.Memory, ghost room: nat)
    returns (r: OneShot.Compressed)
    requires Suits(m, s) && SettingsOkay(s) && m.Chains() && s.mode == GreedyParse.Balanced && !s.v2
    requires OneShot.CompressBound(LENGTH + RUN) <= dstCap && LENGTH + RUN <= room
    modifies m, m.Tables()
    ensures r.Framed? && |r.bytes| <= dstCap && Frame.Decompress(Codecs.Real(junk), room, r.bytes).Failure?
    ensures forall pieces: seq<seq<Byte>> :: Frame.Joined(pieces) == r.bytes ==>
              Frame.FeedAll(Codecs.Real(junk), room, Frame.Rest(Frame.AtHeader, []), pieces).st.Broken?
  {
    hide Codecs.Real, Suits, SettingsOkay, Frame.Decompress, Frame.FeedAll, Frame.Joined, Complete, Spoils, Source;
    SourceSpoils(s);
    var o := OneShot.Options(false, false, false, OneShot.NoFilter, checksum);
    ghost var es;
    r, es := OneShot.VvCompress(Source(), o, m, s, dstCap, junk, room);
  }

  /** As one chunk of a stream the source is fatal. */
  lemma SourceFatal(s: Settings)
    requires s.mode == GreedyParse.Balanced && !s.v2
    ensures CStream.Fatal(s, [Source()], 0) && Frame.Joined([Source()]) == Source()
  {
    hide Source, LateMatch.Ends, LateLiterals.Lasting;
    SourceSpoils(s);
    assert [Source()][..0] == [] && [Source()][1..] == [];
    assert [] + Source() == Source();
  }

  /** The streaming compressor, which uses format v1 unless it is asked for v2, makes such a frame of it too. */
  method StreamFails(checksum: bool, m: Matcher, s: Settings, dstCap: nat, ghost junk: Codecs.Memory, ghost room: nat)
    returns (frame: seq<Byte>)
    requires Suits(m, s) && SettingsOkay(s) && m.Chains() && s.mode == GreedyParse.Balanced && !s.v2
    requires Frame.HEADER_SIZE + 6 + LENGTH + RUN + Frame.FOOTER_SIZE <= dstCap && LENGTH + RUN <= room < Xxh.TWO_TO_THE_64
    modifies m, m.Tables()
    ensures Frame.Decompress(Codecs.Real(junk), room, frame).Failure?
    ensures forall pieces: seq<seq<Byte>> :: Frame.Joined(pieces) == frame ==>
              Frame.FeedAll(Codecs.Real(junk), room, Frame.Rest(Frame.AtHeader, []), pieces).st.Broken?
  {
    hide Codecs.Real, Suits, SettingsOkay, Frame.Decompress, Frame.FeedAll, Frame.Joined, CStream.Fatal, Source, Verdict,
      CStream.Compressor.Valid, CStream.Compressor.Ends;
    SourceFatal(s);
    var z := new CStream.Compressor(m, s, checksum, junk, room);
    var ok;
    ok, frame := CStream.CompressAll(z, [Source()], dstCap);
  }
}
