/** Frames written out byte by byte, and what they decode to: the layout of include/vaptvupt.h:100-147 in numbers. */
module WorkedFrames {
  import opened Bits
  import opened BlockDecode
  import Blocks
  import opened Bytes
  import Codecs
  import opened Frame
  import opened Lz
  import Xxh
  import XxhLaws

  //////////////////////////////////////////////////////////////////////////////
  // Steps
  //////////////////////////////////////////////////////////////////////////////

  function Word(a: nat, b: nat, c: nat, d: nat): nat {
    a + 0x100 * b + 0x1_0000 * c + 0x100_0000 * d
  }

  lemma Field3(s: seq<Byte>, p: nat)
    requires p + 3 <= |s|
    ensures LittleEndian(s, p, 3) == Word(s[p], s[p + 1], s[p + 2], 0)
  {
    assert LittleEndian(s, p + 2, 1) == Word(s[p + 2], 0, 0, 0);
    assert LittleEndian(s, p + 1, 2) == Word(s[p + 1], s[p + 2], 0, 0);
  }

  lemma Field4(s: seq<Byte>, p: nat)
    requires p + 4 <= |s|
    ensures LittleEndian(s, p, 4) == Word(s[p], s[p + 1], s[p + 2], s[p + 3])
  {
    Field3(s, p + 1);
  }

  lemma Field8(s: seq<Byte>, p: nat)
    requires p + 8 <= |s|
    ensures LittleEndian(s, p, 8) == Word(s[p], s[p + 1], s[p + 2], s[p + 3]) + 0x1_0000_0000 * Word(s[p + 4], s[p + 5], s[p + 6], s[p + 7])
  {
    Field4(s, p + 4);
    assert LittleEndian(s, p + 3, 5) == Word(s[p + 3], 0, 0, 0) + 0x100 * LittleEndian(s, p + 4, 4);
    assert LittleEndian(s, p + 2, 6) == Word(s[p + 2], s[p + 3], 0, 0) + 0x1_0000 * LittleEndian(s, p + 4, 4);
    assert LittleEndian(s, p + 1, 7) == Word(s[p + 1], s[p + 2], s[p + 3], 0) + 0x100_0000 * LittleEndian(s, p + 4, 4);
  }

  /** A header for a window of 2^16, with a checksum or without. */
  function Header(flags: Byte): (h: seq<Byte>)
    ensures |h| == HEADER_SIZE
  {
    [0x00, 0x01, 0x56, 0x56, 1, flags, 1, 16, 0, 0, 0, 0, 0, 0, 0, 0]
  }

  lemma HeaderRead(c: Codec, cap: nat, flags: Byte, rest: seq<Byte>)
    requires flags <= 1
    ensures Run(c, cap, AtHeader, Header(flags) + rest) == Run(c, cap, AtBlock(Info(flags == 1, false, false, 16), []), rest)
  {
    hide Run, BlockMove, FooterMove, Unfilter, Hash64;
    var s := Header(flags) + rest;
    Field4(s, 0);
    assert s[HEADER_SIZE..] == rest;
    RunOne(c, cap, AtHeader, s);
  }

  lemma RunOne(c: Codec, cap: nat, st: State, s: seq<Byte>)
    requires StateOkay(st, cap) && !Ended(st) && NextMove(c, cap, st, s).Go?
    ensures var m := NextMove(c, cap, st, s);
            Run(c, cap, st, s) == Run(c, cap, m.st, s[m.used..])
  {
  }

  lemma RawMove(c: Codec, cap: nat, f: Info, out: seq<Byte>, last: bool, n: nat, p: seq<Byte>)
    requires 10 <= f.wlog <= 24 && n < 32 && |out| + n <= cap && |p| >= 4 + n
    requires LittleEndian(p, 0, 4) == (if last then 4 else 0) + 8 * n
    ensures BlockMove(c, cap, f, out, p) == Go(AfterBlock(c, f, last, out + p[4..4 + n]), 4 + n)
  {
    hide LittleEndian, AfterBlock, DecodeTokens, Exactly, Hash64, MaxOffset, UnpackBlock;
    Blocks.UnpackPacked(Raw, last, n);
  }

  /** A raw block. */
  lemma RawRead(c: Codec, cap: nat, f: Info, out: seq<Byte>, last: bool, data: seq<Byte>, rest: seq<Byte>)
    requires 10 <= f.wlog <= 24 && |data| < 32 && |out| + |data| <= cap
    ensures Run(c, cap, AtBlock(f, out), [(if last then 4 else 0) + 8 * |data|, 0, 0, 0] + data + rest) ==
            Run(c, cap, AfterBlock(c, f, last, out + data), rest)
  {
    hide Run, AfterBlock, BlockMove, HeaderMove, FooterMove;
    var s := [(if last then 4 else 0) + 8 * |data|, 0, 0, 0] + data + rest;
    Field4(s, 0);
    assert s[4..4 + |data|] == data && s[4 + |data|..] == rest;
    RawMove(c, cap, f, out, last, |data|, s);
    RunOne(c, cap, AtBlock(f, out), s);
  }

  lemma RleMove(c: Codec, cap: nat, f: Info, out: seq<Byte>, p: seq<Byte>)
    requires 10 <= f.wlog <= 24 && |out| + 3 <= cap && |p| >= 5 && LittleEndian(p, 0, 4) == 30
    ensures BlockMove(c, cap, f, out, p) == Go(AfterBlock(c, f, true, out + [p[4], p[4], p[4]]), 5)
  {
    hide LittleEndian, AfterBlock, DecodeTokens, Exactly, Hash64, MaxOffset;
    assert p[4..5] == [p[4]];
    assert seq(3, i => p[4]) == [p[4], p[4], p[4]];
  }

  /** A block of three equal bytes, the last one. */
  lemma RleRead(c: Codec, cap: nat, f: Info, out: seq<Byte>, b: Byte, rest: seq<Byte>)
    requires 10 <= f.wlog <= 24 && |out| + 3 <= cap
    ensures Run(c, cap, AtBlock(f, out), [30, 0, 0, 0, b] + rest) == Run(c, cap, AfterBlock(c, f, true, out + [b, b, b]), rest)
  {
    hide Run, AfterBlock, BlockMove, HeaderMove, FooterMove;
    var s := [30, 0, 0, 0, b] + rest;
    Field4(s, 0);
    assert s[5..] == rest;
    RleMove(c, cap, f, out, s);
    RunOne(c, cap, AtBlock(f, out), s);
  }

  /** A match of length 6 at offset 3, then the literal "d". */
  lemma TokensRead(limit: nat, maxOffset: nat)
    requires limit >= 10 && maxOffset >= 3
    ensures DecodeTokens([0x02, 3, 0, 0x10, 100], 0, [97, 98, 99], limit, maxOffset, 2, 4) ==
            BlockOk([97, 98, 99, 97, 98, 99, 97, 98, 99, 100])
  {
    hide DecodeTokens, ReadToken, Copy;
    var s: seq<Byte> := [0x02, 3, 0, 0x10, 100];
    var abc: seq<Byte> := [97, 98, 99];
    var mid: seq<Byte> := [97, 98, 99, 97, 98, 99, 97, 98, 99];
    TokensGiven(s);
    CopySix();
    DecodeStep(s, 0, abc, limit, maxOffset, 2, 4);
    DecodeStep(s, 3, mid, limit, maxOffset, 2, 4);
    assert abc + [] == abc && mid + [100] == [97, 98, 99, 97, 98, 99, 97, 98, 99, 100];
  }

  lemma CopySix()
    ensures Copy([97, 98, 99], 3, 6) == [97, 98, 99, 97, 98, 99, 97, 98, 99]
  {
    var s: seq<Byte> := [97, 98, 99];
    assert Copy(s + [97, 98, 99, 97, 98, 99], 3, 0) == s + [97, 98, 99, 97, 98, 99];
    assert Copy(s + [97, 98, 99, 97, 98], 3, 1) == Copy(s + [97, 98, 99, 97, 98, 99], 3, 0);
    assert Copy(s + [97, 98, 99, 97], 3, 2) == Copy(s + [97, 98, 99, 97, 98], 3, 1);
    assert Copy(s + [97, 98, 99], 3, 3) == Copy(s + [97, 98, 99, 97], 3, 2);
    assert Copy(s + [97, 98], 3, 4) == Copy(s + [97, 98, 99], 3, 3);
    assert Copy(s + [97], 3, 5) == Copy(s + [97, 98], 3, 4);
    assert Copy(s, 3, 6) == Copy(s + [97], 3, 5);
  }

  /** The two tokens. */
  lemma TokensGiven(s: seq<Byte>)
    requires s == [0x02, 3, 0, 0x10, 100]
    ensures ReadToken(s, 0, 2, 4, true) == FullToken([], 3, 6, 3)
    ensures ReadToken(s, 3, 2, 4, true) == LastToken([100])
  {
    hide LittleEndian;
    assert LittleEndian(s, 1, 2) == 3 by { TwoBytes(s, 1); }
    assert s[1..1] == [] && s[4..5] == [100];
  }

  lemma TwoBytes(s: seq<Byte>, p: nat)
    requires p + 2 <= |s|
    ensures LittleEndian(s, p, 2) == Word(s[p], s[p + 1], 0, 0)
  {
    assert LittleEndian(s, p + 1, 1) == s[p + 1];
  }

  lemma TokensMove(c: Codec, cap: nat, f: Info, out: seq<Byte>, p: seq<Byte>, all: seq<Byte>)
    requires f.wlog == 16 && cap >= 10 && |p| >= 12 && LittleEndian(p, 0, 4) == 57 && LittleEndian(p, 4, 3) == 5
    requires |out| == 3 && |all| == 10 && DecodeTokens(p[7..12], 0, out, 10, 0xFFFF, 2, 4) == BlockOk(all) && out <= all
    ensures BlockMove(c, cap, f, out, p) == Go(AtBlock(f, all), 12)
  {
    hide LittleEndian, DecodeTokens, Hash64, Unfilter;
    assert out + all[3..] == all;
  }

  /** A block of those tokens. */
  lemma TokensBlock(c: Codec, cap: nat, rest: seq<Byte>)
    requires cap >= 10
    ensures var f := Info(false, false, false, 16);
            Run(c, cap, AtBlock(f, [97, 98, 99]), [57, 0, 0, 0, 5, 0, 0, 0x02, 3, 0, 0x10, 100] + rest) ==
            Run(c, cap, AtBlock(f, [97, 98, 99, 97, 98, 99, 97, 98, 99, 100]), rest)
  {
    hide Run, DecodeTokens, BlockMove, HeaderMove, FooterMove;
    var f := Info(false, false, false, 16);
    var out: seq<Byte> := [97, 98, 99];
    var tokens: seq<Byte> := [0x02, 3, 0, 0x10, 100];
    var s := [57, 0, 0, 0, 5, 0, 0, 0x02, 3, 0, 0x10, 100] + rest;
    Field4(s, 0);
    Field3(s, 4);
    TokensRead(10, 0xFFFF);
    assert s[7..12] == tokens && s[12..] == rest;
    var all: seq<Byte> := [97, 98, 99, 97, 98, 99, 97, 98, 99, 100];
    assert all[..3] == out;
    TokensMove(c, cap, f, out, s, all);
    RunOne(c, cap, AtBlock(f, out), s);
  }

  //////////////////////////////////////////////////////////////////////////////
  // Frames
  //////////////////////////////////////////////////////////////////////////////

  lemma ThreeBytes()
    ensures Header(0) + ([24, 0, 0, 0] + [97, 98, 99] + ([57, 0, 0, 0, 5, 0, 0, 0x02, 3, 0, 0x10, 100] + [30, 0, 0, 0, 122])) ==
            [0x00, 0x01, 0x56, 0x56, 1, 0, 1, 16, 0, 0, 0, 0, 0, 0, 0, 0, 24, 0, 0, 0, 97, 98, 99,
             57, 0, 0, 0, 5, 0, 0, 0x02, 3, 0, 0x10, 100, 30, 0, 0, 0, 122]
  {
  }

  /** "abc" in a raw block, "abcabcd" as tokens, "zzz" as a run; no checksum. */
  lemma ThreeBlocks(c: Codec, cap: nat)
    requires cap >= 13
    ensures Run(c, cap, AtHeader,
                [0x00, 0x01, 0x56, 0x56, 1, 0, 1, 16, 0, 0, 0, 0, 0, 0, 0, 0, 24, 0, 0, 0, 97, 98, 99,
                 57, 0, 0, 0, 5, 0, 0, 0x02, 3, 0, 0x10, 100, 30, 0, 0, 0, 122]) ==
            Rest(Done([97, 98, 99, 97, 98, 99, 97, 98, 99, 100, 122, 122, 122]), [])
  {
    hide Run, Unfilter, BlockMove, HeaderMove, FooterMove, NextMove, Header;
    var f := Info(false, false, false, 16);
    var abc: seq<Byte> := [97, 98, 99];
    var more: seq<Byte> := [97, 98, 99, 97, 98, 99, 97, 98, 99, 100];
    var third: seq<Byte> := [30, 0, 0, 0, 122];
    var second: seq<Byte> := [57, 0, 0, 0, 5, 0, 0, 0x02, 3, 0, 0x10, 100] + third;
    var first: seq<Byte> := [24, 0, 0, 0] + abc + second;
    ThreeBytes();
    HeaderRead(c, cap, 0, first);
    RawRead(c, cap, f, [], false, abc, second);
    assert [] + abc == abc;
    TokensBlock(c, cap, third);
    RleRead(c, cap, f, more, 122, []);
    assert third + [] == third;
    var all := more + [122, 122, 122];
    assert all == [97, 98, 99, 97, 98, 99, 97, 98, 99, 100, 122, 122, 122];
    DoneRuns(c, cap, f, all);
  }

  lemma DoneRuns(c: Codec, cap: nat, f: Info, out: seq<Byte>)
    requires !f.x86 && !f.arm64
    ensures Unfilter(f, out) == out && Run(c, cap, Done(out), []) == Rest(Done(out), [])
  {
  }

  /** A right footer. */
  lemma FooterRead(c: Codec, cap: nat, f: Info, out: seq<Byte>, p: seq<Byte>)
    requires 10 <= f.wlog <= 24 && !f.x86 && !f.arm64 && |p| == 12
    requires Word(p[8], p[9], p[10], p[11]) == 0x56564E44
    requires Word(p[0], p[1], p[2], p[3]) + 0x1_0000_0000 * Word(p[4], p[5], p[6], p[7]) == Hash64(c, out)
    ensures Run(c, cap, AtFooter(f, out), p) == Rest(Done(out), [])
  {
    hide Run, Unfilter, Hash64, BlockMove, HeaderMove;
    Field8(p, 0);
    Field4(p, 8);
    assert p[12..] == [];
    RunOne(c, cap, AtFooter(f, out), p);
    DoneRuns(c, cap, f, out);
  }

  lemma HashAbc(junk: Codecs.Memory)
    ensures Hash64(Codecs.Real(junk), [97, 98, 99]) == 0x44BC2CF5AD770999
  {
    hide Codecs.Real, Hash64, Xxh.Hash;
    Codecs.RealHash(junk, [97, 98, 99]);
    XxhLaws.KnownShort();
  }

  /** "abc" with its checksum, for the program's own hash. */
  lemma Checksummed(junk: Codecs.Memory, cap: nat)
    requires cap >= 3
    ensures Run(Codecs.Real(junk), cap, AtHeader,
                [0x00, 0x01, 0x56, 0x56, 1, 1, 1, 16, 0, 0, 0, 0, 0, 0, 0, 0, 28, 0, 0, 0, 97, 98, 99,
                 0x99, 0x09, 0x77, 0xAD, 0xF5, 0x2C, 0xBC, 0x44, 0x44, 0x4E, 0x56, 0x56]) ==
            Rest(Done([97, 98, 99]), [])
  {
    hide Run, Unfilter, Codecs.Real, Hash64, NextMove, BlockMove, HeaderMove, FooterMove;
    var c, f := Codecs.Real(junk), Info(true, false, false, 16);
    var text: seq<Byte> := [97, 98, 99];
    var footer: seq<Byte> := [0x99, 0x09, 0x77, 0xAD, 0xF5, 0x2C, 0xBC, 0x44, 0x44, 0x4E, 0x56, 0x56];
    var first: seq<Byte> := [28, 0, 0, 0] + [97, 98, 99] + footer;
    HeaderRead(c, cap, 1, first);
    RawRead(c, cap, f, [], true, text, footer);
    assert [] + text == text;
    HashAbc(junk);
    FooterRead(c, cap, f, text, footer);
    assert Header(1) + first ==
      [0x00, 0x01, 0x56, 0x56, 1, 1, 1, 16, 0, 0, 0, 0, 0, 0, 0, 0, 28, 0, 0, 0, 97, 98, 99,
       0x99, 0x09, 0x77, 0xAD, 0xF5, 0x2C, 0xBC, 0x44, 0x44, 0x4E, 0x56, 0x56];
  }
}
