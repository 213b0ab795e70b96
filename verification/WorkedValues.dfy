/** What single fields, tables and options mean, in numbers and laws of their own. */
module WorkedValues {
  import Arith
  import opened Bits
  import opened Blocks
  import opened Bytes
  import Choices
  import Codecs
  import opened Frame
  import LitBlock
  import opened Lz
  import LzhMatch
  import MatchFinder
  import OneShot
  import WorkedFrames
  import ZuptLz

  //////////////////////////////////////////////////////////////////////////////
  // Fields
  //////////////////////////////////////////////////////////////////////////////

  /** Exactly these frame headers are accepted, and they say this. */
  lemma HeaderMeans(s: seq<Byte>)
    requires |s| >= HEADER_SIZE
    ensures ParseHeader(s).GoodHeader? <==>
              && s[0] == 0x00 && s[1] == 0x01 && s[2] == 0x56 && s[3] == 0x56 && s[4] == 1
              && s[5] % 16 < 12 && 10 <= s[7] <= 24
    ensures ParseHeader(s).GoodHeader? ==> ParseHeader(s).info == Info(s[5] % 2 == 1, s[5] % 8 >= 4, s[5] % 16 >= 8, s[7])
  {
    hide LittleEndian;
    WorkedFrames.Field4(s, 0);
    MagicBytes(s[0], s[1], s[2], s[3]);
    FlagBits(s[5]);
  }

  lemma MagicBytes(a: Byte, b: Byte, c: Byte, d: Byte)
    ensures WorkedFrames.Word(a, b, c, d) == MAGIC <==> a == 0x00 && b == 0x01 && c == 0x56 && d == 0x56
  {
  }

  lemma FlagBits(b: Byte)
    ensures b / 4 % 4 == 3 <==> b % 16 >= 12
    ensures b / 4 % 2 == 1 <==> b % 8 >= 4
    ensures b / 8 % 2 == 1 <==> b % 16 >= 8
  {
    var q, r := b as nat / 16, b as nat % 16;
    Arith.DivModUnique(b as nat, 4, 4 * q + r / 4, r % 4);
    Arith.DivModUnique(4 * q + r / 4, 4, q, r / 4);
    Arith.DivModUnique(4 * q + r / 4, 2, 2 * q + r / 8, r / 4 % 2);
    Arith.DivModUnique(b as nat, 8, 2 * q + r / 8, r % 8);
    Arith.DivModUnique(2 * q + r / 8, 2, q, r / 8);
  }

  /** A block header is its kind, the bit for the last block and the size, below eight bits left over. */
  lemma BlockMeans(h: nat)
    requires h < 0x1_0000_0000
    ensures var b := UnpackBlock(h);
            b.size < 0x20_0000 && h == PackBlock(b.kind, b.last, b.size) + 0x100_0000 * (h / 0x100_0000)
  {
    var up := h / 8;
    assert h == 8 * up + 4 * (h / 4 % 2) + h % 4;
    assert up == 0x20_0000 * (up / 0x20_0000) + up % 0x20_0000;
    assert up / 0x20_0000 == h / 0x100_0000;
  }

  /** The first byte of an entropy block: what the compressor writes and, of all bytes, what the decoder knows. */
  lemma TagsMean(b: Byte, v2: bool, k: LitBlock.Kind)
    ensures Codecs.PathOf(Choices.SeqTag(v2)) == Codecs.Sequences(v2) && Codecs.PathOf(Choices.LitTag(k)) == Codecs.Literals(k)
    ensures Codecs.PathOf(b).Unknown? <==> b !in {0x41, 0x43, 0x48, 0x49, 0x53, 0x54}
    ensures Choices.SeqTag(v2) == if v2 then 0x54 else 0x53
    ensures Choices.LitTag(k) == if k.Huffman? then 0x48 else if k.Ans? then 0x41 else if k.Ans4? then 0x49 else 0x43
  {
  }

  /** The largest offset: the window or, if that is less, the largest that the offset's bytes hold. */
  lemma MaxOffsetMeans(wlog: nat)
    requires 10 <= wlog <= 24
    ensures MaxOffset(wlog) < Pow2(8 * OffBytes(wlog)) && MaxOffset(wlog) <= Pow2(wlog)
    ensures MaxOffset(wlog) == Pow2(wlog) || MaxOffset(wlog) + 1 == Pow2(8 * OffBytes(wlog))
  {
    hide Pow2;
    WindowSizes(wlog);
    WindowSizes(16);
    WindowSizes(24);
    if wlog < 16 {
      Pow2Monotone(wlog, 15);
      Pow2Half();
    }
  }

  lemma Pow2Half()
    ensures 2 * Pow2(15) == Pow2(16)
  {
  }

  //////////////////////////////////////////////////////////////////////////////
  // Hashes
  //////////////////////////////////////////////////////////////////////////////

  /** The hashes of "abcde", which has four or five bytes and more. */
  lemma HashesOfText(s: seq<Byte>)
    requires s == [97, 98, 99, 100, 101]
    ensures MatchFinder.Hash5(s, 0) == 0xA300 && MatchFinder.Hash4(s, 0) == 0x1_8C37 && MatchFinder.Hash4Short(s, 0) == 0x630D
    ensures MatchFinder.Hash3Short(s, 0) == 0xFC3 && LzhMatch.Hash(s, 0) == 0x6_30DD && ZuptLz.Hash(s, 0) == 0x1_8C37
    ensures MatchFinder.HashSafe(s, 0, 5) == 0xA300 && MatchFinder.HashSafe(s, 0, 4) == 0x1_8C37
  {
    TextValues(s);
    hide LittleEndian;
    Products();
  }

  lemma TextValues(s: seq<Byte>)
    requires s == [97, 98, 99, 100, 101]
    ensures LittleEndian(s, 0, 3) == 6513249 && LittleEndian(s, 0, 4) == 1684234849 && LittleEndian(s, 0, 5) == 435475931745
  {
    hide LittleEndian;
    WorkedFrames.Field3(s, 0);
    WorkedFrames.Field4(s, 0);
    WorkedFrames.Field4(s, 1);
    FirstOf(s, 0, 5);
  }

  lemma Products()
    ensures 6513249 * 2654435761 % 0x1_0000_0000 == 0x3F0D_DE11
    ensures 1684234849 * 2654435761 % 0x1_0000_0000 == 0x630D_DE11
    ensures 435475931745 * 889523592379 % 0x1_0000_0000_0000_0000 == 0x28C0_2D21_3760_38DB
  {
  }

  lemma FirstOf(s: seq<Byte>, p: nat, n: nat)
    requires p + n <= |s| && n > 0
    ensures LittleEndian(s, p, n) == s[p] + 0x100 * LittleEndian(s, p + 1, n - 1)
  {
  }

  //////////////////////////////////////////////////////////////////////////////
  // Options and levels
  //////////////////////////////////////////////////////////////////////////////

  /** What a frame says of the options: the checksum as asked; a filter if asked for, or if detected when asked to look, and
      never both. */
  lemma OptionsMean(o: OneShot.Options, src: seq<Byte>, wlog: nat)
    requires !(o.x86 && o.aarch64)
    ensures var f := OneShot.InfoOf(o.checksum, OneShot.FilterOf(o, src), wlog);
            && f.checksum == o.checksum && f.wlog == wlog && !(f.x86 && f.arm64)
            && (o.x86 || o.aarch64 ==> f.x86 == o.x86 && f.arm64 == o.aarch64)
            && (!o.x86 && !o.aarch64 ==>
                  && (f.x86 <==> o.automatic && src != [] && o.detected == OneShot.X86)
                  && (f.arm64 <==> o.automatic && src != [] && o.detected == OneShot.Aarch64))
  {
  }

  /** A higher level of LZH searches no less far, no less long and no less ahead, for matches no longer. */
  lemma LevelsOrdered(a: int, b: int)
    requires a <= b
    ensures var x, y := LzhMatch.ConfigFor(a), LzhMatch.ConfigFor(b);
            x.win <= y.win && x.maxChain <= y.maxChain && x.lazyDepth <= y.lazyDepth && x.minMatch >= y.minMatch
    ensures (a <= 1 || a >= 9) ==> LzhMatch.ConfigFor(a) == LzhMatch.ConfigFor(if a <= 1 then 1 else 9)
    ensures LzhMatch.ConfigFor(1) == LzhMatch.Config(0x1_0000, 12, 0, 4) && LzhMatch.ConfigFor(6) == LzhMatch.Config(0x8_0000, 256, 3, 3)
    ensures LzhMatch.ConfigFor(9) == LzhMatch.Config(0x10_0000, 768, 5, 3)
  {
  }
}
