/** The streaming decoder object (`vv_dstream_s`, src/vv_decoder.c:816-1167): a growing input buffer
    and a state machine that writes into the caller's buffer. */
module DStream {
  import opened BlockDecode
  import opened Bytes
  import Codecs
  import opened Copies
  import opened Frame
  import opened Lz
  import opened Wire
  import Xxh

  datatype Phase = Header | Block | Footer | Finished | Failed

  class Decoder {
    /** What newly allocated buffers hold. */
    const junk: Codecs.Memory
    ghost const c: Codec
    const wide: bool
    const tier: Tier
    const dst: array<Byte>
    var phase: Phase
    var info: Info
    var code: Code
    var inBuf: array<Byte>
    var inPos: nat
    var inLen: nat
    var outputPos: nat
    const cks: Xxh.State

    constructor (junk: Codecs.Memory, dst: array<Byte>, wide: bool, tier: Tier)
      requires dst.Length < Xxh.TWO_TO_THE_64
      ensures Valid() && Held() == Rest(AtHeader, []) && fresh(inBuf) && fresh(cks) && fresh(cks.buf)
      ensures c == Codecs.Real(junk) && this.dst == dst
    {
      hide Codecs.Real, Xxh.State.Valid;
      this.junk, this.dst, this.wide, this.tier := junk, dst, wide, tier;
      c := Codecs.Real(junk);
      phase, info, code := Header, Info(false, false, false, 10), BadFrame;
      inBuf := new Byte[65536](_ => 0);
      inPos, inLen, outputPos := 0, 0, 0;
      cks := new Xxh.State(0);
    }

    ghost predicate Valid()
      reads this, inBuf, dst, cks, cks.buf
    {
      && inBuf != dst && inPos + inLen <= inBuf.Length && inBuf.Length > 0 && outputPos <= dst.Length
      && 10 <= info.wlog <= 24 && (phase == Header ==> outputPos == 0) && (phase == Footer ==> info.checksum) && c == Codecs.Real(junk) && Hashes()
    }

    /** The checksum has taken in the output, as long as it is wanted. */
    ghost predicate Hashes()
      reads this, dst, cks, cks.buf
    {
      && cks.Valid() && cks.seed == 0 && cks.buf != inBuf && cks.buf != dst && dst.Length < Xxh.TWO_TO_THE_64
      && outputPos <= dst.Length && (phase == Header ==> cks.taken == [])
      && (info.checksum && (phase == Block || phase == Footer) ==> cks.taken == dst[..outputPos])
    }

    ghost function Pending(): seq<Byte>
      requires inPos + inLen <= inBuf.Length
      reads this, inBuf
    {
      inBuf[inPos..inPos + inLen]
    }

    ghost function Machine(): (st: State)
      requires Valid()
      reads this, inBuf, dst, cks, cks.buf
      ensures StateOkay(st, dst.Length)
    {
      match phase
      case Header => AtHeader
      case Block => AtBlock(info, dst[..outputPos])
      case Footer => AtFooter(info, dst[..outputPos])
      case Finished => Done(dst[..outputPos])
      case Failed => Broken(code, dst[..outputPos])
    }

    /** The machine's state and its unused input. */
    ghost function Held(): Rest
      requires Valid()
      reads this, inBuf, dst, cks, cks.buf
    {
      Rest(Machine(), Pending())
    }

    method PutTail(src: seq<Byte>)
      requires Valid() && inPos + inLen + |src| <= inBuf.Length
      modifies this`inLen, inBuf
      ensures Valid() && Pending() == old(Pending()) + src && Machine() == old(Machine())
    {
      hide Xxh.State.Valid, Codecs.Real;
      ghost var before, held := inBuf[..], Pending();
      StoreBytes(inBuf, inPos + inLen, src);
      Tail(before, inBuf[..], inPos, inLen, src);
      inLen := inLen + |src|;
      assert inBuf[inPos..inPos + inLen] == inBuf[..][inPos..inPos + inLen];
      assert held == before[inPos..inPos + inLen - |src|];
    }

    /** `dstream_append`: compacts when the tail is short, then doubles the buffer when it must. */
    method Append(src: seq<Byte>)
      requires Valid()
      modifies this`inBuf, this`inPos, this`inLen, inBuf
      ensures Valid() && Pending() == old(Pending()) + src && Machine() == old(Machine())
      ensures inBuf == old(inBuf) || fresh(inBuf)
    {
      hide Xxh.State.Valid, Codecs.Real;
      if inPos > 0 && |src| > inBuf.Length - (inPos + inLen) {
        MoveDown();
      }
      if |src| > inBuf.Length - (inPos + inLen) {
        Grow(inLen + |src|);
      }
      PutTail(src);
    }

    method MoveDown()
      requires Valid()
      modifies this`inPos, inBuf
      ensures Valid() && inPos == 0 && Pending() == old(Pending()) && Machine() == old(Machine())
    {
      hide Xxh.State.Valid, Codecs.Real;
      ghost var held := Pending();
      Store(inBuf, 0, inPos, inLen);
      inPos := 0;
      assert inBuf[0..inLen] == inBuf[..][0..inLen] == held;
    }

    method Grow(need: nat)
      requires Valid() && need >= inPos + inLen
      modifies this`inBuf
      ensures Valid() && inBuf.Length >= need && fresh(inBuf) && Pending() == old(Pending()) && Machine() == old(Machine())
    {
      hide Xxh.State.Valid, Codecs.Real;
      var cap := inBuf.Length;
      while cap < need
        invariant cap >= inBuf.Length
        decreases need - cap
      {
        cap := cap * 2;
      }
      var grown := new Byte[cap](_ => 0);
      ghost var blank := grown[..];
      StoreBytes(grown, 0, inBuf[..]);
      Copied0(blank, grown[..], inBuf[..], inPos, inLen);
      assert grown[inPos..inPos + inLen] == grown[..][inPos..inPos + inLen];
      assert inBuf[inPos..inPos + inLen] == inBuf[..][inPos..inPos + inLen];
      inBuf := grown;
    }

    /** `dstream_consume`. */
    method Consume(n: nat)
      requires Valid() && n <= inLen
      modifies this`inPos, this`inLen
      ensures Valid() && Pending() == old(Pending())[n..] && Machine() == old(Machine())
    {
      hide Xxh.State.Valid, Codecs.Real;
      assert inBuf[inPos..inPos + inLen][n..] == inBuf[inPos + n..inPos + inLen];
      if n >= inLen {
        inPos, inLen := 0, 0;
      } else {
        inPos, inLen := inPos + n, inLen - n;
      }
    }

    /** The first `n` unused bytes. */
    method PeekBytes(n: nat) returns (s: seq<Byte>)
      requires Valid() && n <= inLen
      ensures s == Pending()[..n]
    {
      hide Xxh.State.Valid, Codecs.Real;
      s := inBuf[inPos..inPos + n];
      assert inBuf[inPos..inPos + inLen][..n] == s;
    }

    /** Enters the error state. */
    method Fail(code: Code)
      requires Valid()
      modifies this`phase, this`code
      ensures Valid() && Machine() == Broken(code, dst[..outputPos]) && Pending() == old(Pending())
    {
      hide Xxh.State.Valid, Codecs.Real;
      phase, this.code := Failed, code;
    }

    method HeaderTurn() returns (moved: bool)
      requires Valid() && phase == Header
      modifies this`phase, this`code, this`info, this`inPos, this`inLen
      ensures Valid() && Moved(HeaderMove(old(Pending())), old(Held()), Held(), moved)
    {
      hide Xxh.State.Valid, Codecs.Real, LittleEndian, ParseHeader;
      ghost var p := Pending();
      if inLen < HEADER_SIZE {
        return false;
      }
      var s := PeekBytes(HEADER_SIZE);
      HeaderEnough(p);
      match ParseHeader(s) {
        case BadHeader(code) =>
          Fail(code);
          assert p[0..] == p && dst[..0] == [];
        case GoodHeader(f) =>
          Consume(HEADER_SIZE);
          phase, info := Block, f;
          assert dst[..0] == [];
      }
      return true;
    }

    /** A checked frame ends: undo the filter, once. */
    method Finish()
      requires Valid()
      modifies this`phase, dst
      ensures Valid() && phase == Finished && Machine() == Done(Unfilter(info, old(dst[..outputPos])))
      ensures Pending() == old(Pending())
    {
      hide Unfilter, Codecs.Real, Xxh.State.Valid;
      ghost var out := dst[..outputPos];
      var x := Unfilter(info, dst[..outputPos]);
      StoreBytes(dst, 0, x);
      phase := Finished;
      assert dst[..][..outputPos] == x;
      assert dst[..outputPos] == dst[..][..outputPos];
    }

    /** The hash of the output, where it has been taken in. */
    method Checksum() returns (h: nat)
      requires Valid() && phase == Footer
      ensures info.checksum ==> h == Hash64(c, dst[..outputPos])
    {
      hide Codecs.Real, Hash64, Xxh.Hash, Xxh.State.Valid;
      var w := cks.Finalize();
      h := w as nat;
      Codecs.RealHash(junk, dst[..outputPos]);
    }

    method FooterTurn() returns (moved: bool)
      requires Valid() && phase == Footer
      modifies this`phase, this`code, this`inPos, this`inLen, dst
      ensures Valid() && Moved(FooterMove(c, info, old(dst[..outputPos]), old(Pending())), old(Held()), Held(), moved)
    {
      hide LittleEndian, Unfilter, Hash64, Codecs.Real, Xxh.Hash, Xxh.State.Valid;
      ghost var p := Pending();
      if inLen < FOOTER_SIZE {
        return false;
      }
      var s := PeekBytes(FOOTER_SIZE);
      FooterEnough(p);
      if LittleEndian(s, 8, 4) != FOOTER_MAGIC {
        Fail(BadFrame);
        assert p[0..] == p;
        return true;
      }
      var h := Checksum();
      if h != LittleEndian(s, 0, 8) {
        Fail(BadFrame);
        assert p[0..] == p;
        return true;
      }
      Consume(FOOTER_SIZE);
      Finish();
      return true;
    }

    /** A plain token block, decoded where it belongs. */
    method PutTokens(b: BlockHeader, data: seq<Byte>) returns (ok: bool, code: Code)
      requires Valid() && b.kind == Compressed && b.size <= dst.Length - outputPos
      modifies dst
      ensures Valid() && dst[..outputPos] == old(dst[..outputPos])
      ensures var r := DecodePayload(c, info, b, data, old(dst[..outputPos]));
              if ok then r == GoodPayload(dst[outputPos..outputPos + b.size]) else r.BadPayload?
    {
      hide Xxh.State.Valid, Codecs.Real, DecodeTokens;
      var o, end := DecodeBlockTokens(data, dst, outputPos, b.size, MaxOffset(info.wlog), OffBytes(info.wlog),
                                      wide, tier);
      if !o.Fine? {
        return false, if o == Bad(Overflow) then TooLarge else BadFrame;
      }
      if end != outputPos + b.size {
        return false, BadFrame;
      }
      assert dst[..end][outputPos..] == dst[outputPos..end];
      assert dst[..outputPos] == dst[..end][..outputPos];
      return true, BadFrame;
    }

    /** A block's payload into the output buffer; on failure the output so far is untouched. */
    method PutPayload(b: BlockHeader, data: seq<Byte>) returns (ok: bool, code: Code)
      requires Valid() && b.size <= dst.Length - outputPos
      requires (b.kind == Raw ==> |data| == b.size) && (b.kind == Rle ==> |data| == 1)
      modifies dst
      ensures Valid() && dst[..outputPos] == old(dst[..outputPos])
      ensures var r := DecodePayload(c, info, b, data, old(dst[..outputPos]));
              if ok then r == GoodPayload(dst[outputPos..outputPos + b.size]) else r.BadPayload?
    {
      hide Xxh.State.Valid, Codecs.Real, Exactly, DecodeTokens, MaxOffset;
      code := BadFrame;
      match b.kind {
        case Raw =>
          PutBytes(data);
          ok := true;
        case Rle =>
          PutBytes(seq(b.size, i => data[0]));
          ok := true;
        case Compressed =>
          ok, code := PutTokens(b, data);
        case Entropy =>
          ok, code := PutEntropy(b, data);
      }
    }

    /** An entropy-coded block, decoded where it belongs. */
    method PutEntropy(b: BlockHeader, data: seq<Byte>) returns (ok: bool, code: Code)
      requires Valid() && b.kind == Entropy && b.size <= dst.Length - outputPos
      modifies dst
      ensures Valid() && dst[..outputPos] == old(dst[..outputPos])
      ensures var r := DecodePayload(c, info, b, data, old(dst[..outputPos]));
              if ok then r == GoodPayload(dst[outputPos..outputPos + b.size]) else r.BadPayload?
    {
      hide Codecs.DecodeEntropy, Codecs.Real, Xxh.State.Valid;
      if |data| < 1 {
        return false, BadFrame;
      }
      Codecs.RealMeans(junk, info, data, dst[..outputPos], b.size);
      var o, end := Codecs.DecodeEntropyInto(junk, info, data, dst, outputPos, b.size, tier);
      if !o.Fine? {
        return false, if o == Bad(Overflow) then TooLarge else BadFrame;
      }
      if end != outputPos + b.size {
        return false, BadFrame;
      }
      assert dst[..end][outputPos..] == dst[outputPos..end];
      assert dst[..outputPos] == dst[..end][..outputPos];
      return true, BadFrame;
    }

    method PutBytes(v: seq<Byte>)
      requires Valid() && |v| <= dst.Length - outputPos
      modifies dst
      ensures Valid() && dst[..outputPos] == old(dst[..outputPos]) && dst[outputPos..outputPos + |v|] == v
    {
      hide Xxh.State.Valid, Codecs.Real;
      ghost var before := dst[..];
      StoreBytes(dst, outputPos, v);
      assert dst[..outputPos] == dst[..][..outputPos];
      assert dst[outputPos..outputPos + |v|] == dst[..][outputPos..outputPos + |v|];
    }

    /** Reads a block's header: is more input needed, is it too large, or is it all there? */
    method ScanBlock() returns (scan: Scan, b: BlockHeader, data: seq<Byte>)
      requires Valid() && phase == Block
      ensures var m := BlockMove(c, dst.Length, info, dst[..outputPos], Pending());
              && (scan == NeedMore ==> m.Wait?)
              && (scan == Reject ==> m == Go(Broken(TooLarge, dst[..outputPos]), 0))
              && (scan == Ready ==>
                    && b.size <= dst.Length - outputPos && DataStart(b) + |data| <= inLen
                    && (b.kind == Raw ==> |data| == b.size) && (b.kind == Rle ==> |data| == 1)
                    && m == PayloadMove(c, info, b, dst[..outputPos], data))
    {
      hide Xxh.State.Valid, Codecs.Real, LittleEndian, DecodePayload, UnpackBlock;
      ghost var p := Pending();
      scan, b, data := NeedMore, BlockHeader(Raw, false, 0), [];
      if inLen < 4 {
        return;
      }
      var s := PeekBytes(4);
      Enough(p, 4, 0, 4);
      b := UnpackBlock(LittleEndian(s, 0, 4));
      if b.size > MAX_BLOCK || b.size > dst.Length - outputPos {
        scan := Reject;
        return;
      }
      if b.kind == Compressed || b.kind == Entropy {
        if inLen < 7 {
          return;
        }
        s := PeekBytes(7);
        Enough(p, 7, 4, 3);
      }
      var total := BlockLength(b, s);
      if inLen < total {
        return;
      }
      s := PeekBytes(total);
      data := s[DataStart(b)..];
      assert data == p[DataStart(b)..total];
      scan := Ready;
    }

    /** One block, once all of it has arrived. */
    method BlockTurn() returns (moved: bool)
      requires Valid() && phase == Block
      modifies this`phase, this`code, this`inPos, this`inLen, this`outputPos, dst, cks, cks.buf
      ensures Valid()
      ensures Moved(BlockMove(c, dst.Length, info, old(dst[..outputPos]), old(Pending())), old(Held()), Held(), moved)
    {
      hide Xxh.State.Valid, Codecs.Real, BlockMove, DecodePayload, AfterBlock, Unfilter;
      assert Pending()[0..] == Pending();
      var scan, b, data := ScanBlock();
      match scan {
        case NeedMore => return false;
        case Reject =>
          Fail(TooLarge);
          return true;
        case Ready =>
          var ok, code := PutPayload(b, data);
          if !ok {
            Fail(code);
          } else {
            FinishBlock(b, DataStart(b) + |data|);
          }
          return true;
      }
    }

    /** The output, and its checksum, go on by `n` bytes. */
    method Advance(n: nat)
      requires Valid() && phase == Block && outputPos + n <= dst.Length
      modifies this`outputPos, cks, cks.buf
      ensures Valid() && outputPos == old(outputPos) + n && Pending() == old(Pending())
      ensures Machine() == AtBlock(info, old(dst[..outputPos]) + old(dst[outputPos..outputPos + n]))
    {
      hide Codecs.Real, Xxh.State.Valid;
      assert dst[..outputPos + n] == dst[..outputPos] + dst[outputPos..outputPos + n];
      if info.checksum && n > 0 {
        cks.Update(dst[outputPos..outputPos + n]);
      }
      outputPos := outputPos + n;
    }

    /** The last block has been taken in: the footer, or the end. */
    method LastBlock()
      requires Valid() && phase == Block
      modifies this`phase, dst
      ensures Valid() && Machine() == AfterBlock(c, info, true, old(dst[..outputPos])) && Pending() == old(Pending())
    {
      hide Xxh.State.Valid, Codecs.Real, Unfilter;
      if info.checksum {
        phase := Footer;
      } else {
        Finish();
      }
    }

    /** Takes the block just written into the output. */
    method FinishBlock(b: BlockHeader, total: nat)
      requires Valid() && phase == Block && total <= inLen && outputPos + b.size <= dst.Length
      modifies this`phase, this`inPos, this`inLen, this`outputPos, dst, cks, cks.buf
      ensures Valid() && Pending() == old(Pending())[total..]
      ensures Machine() == AfterBlock(c, info, b.last, old(dst[..outputPos]) + old(dst[outputPos..outputPos + b.size]))
    {
      hide Hashes, Codecs.Real, Unfilter;
      Advance(b.size);
      Consume(total);
      if b.last {
        LastBlock();
      }
    }

    /** One pass of the state machine. */
    method Turn() returns (moved: bool)
      requires Valid() && phase != Finished && phase != Failed
      modifies this`phase, this`code, this`info, this`inPos, this`inLen, this`outputPos, dst, cks, cks.buf
      ensures Valid() && Moved(NextMove(c, dst.Length, old(Machine()), old(Pending())), old(Held()), Held(), moved)
    {
      hide Xxh.State.Valid, Codecs.Real, HeaderMove, BlockMove, FooterMove, Moved;
      if phase == Header {
        moved := HeaderTurn();
      } else if phase == Block {
        moved := BlockTurn();
      } else {
        moved := FooterTurn();
      }
    }

    /** `vv_dstream_decompress_chunk`: afterwards the object holds what the machine holds when fed
        the chunk. The result says whether the frame is complete, more is needed, or it is broken. */
    method DecompressChunk(src: seq<Byte>) returns (result: Phase)
      requires Valid()
      modifies this, inBuf, dst, cks, cks.buf
      ensures Valid() && (inBuf == old(inBuf) || fresh(inBuf)) && result == phase
      ensures SameRest(Held(), Feed(c, dst.Length, old(Held()), src))
    {
      hide Xxh.State.Valid, Codecs.Real, NextMove, Run, Machine, Ended;
      EndedPhase();
      if phase == Failed || phase == Finished {
        return phase;
      }
      Append(src);
      EndedPhase();
      result := RunTurns();
    }

    lemma EndedPhase()
      requires Valid()
      ensures Ended(Machine()) <==> phase == Finished || phase == Failed
    {
      hide Xxh.State.Valid, Codecs.Real;
    }

    /** Turns until one does not move. */
    method RunTurns() returns (result: Phase)
      requires Valid()
      modifies this`phase, this`code, this`info, this`inPos, this`inLen, this`outputPos, dst, cks, cks.buf
      ensures Valid() && result == phase
      ensures SameRest(Held(), Run(c, dst.Length, old(Machine()), old(Pending())))
    {
      hide Xxh.State.Valid, Codecs.Real, NextMove, Run, Machine, Ended, Moved;
      ghost var goal := Run(c, dst.Length, Machine(), Pending());
      while phase != Finished && phase != Failed
        invariant Valid()
        invariant SameRest(Run(c, dst.Length, Machine(), Pending()), goal)
        decreases inLen, if phase == Finished || phase == Failed then 0 else 1
      {
        EndedPhase();
        ghost var st, p := Machine(), Pending();
        var moved := Turn();
        EndedPhase();
        MovedRun(c, dst.Length, NextMove(c, dst.Length, st, p), st, p, Held(), moved);
        if !moved {
          return phase;
        }
      }
      EndedPhase();
      EndedStays(c, dst.Length, Machine(), Pending());
      return phase;
    }
  }

  /** The same state and unused input, up to which error a broken stream reports. */
  ghost predicate SameRest(a: Rest, b: Rest) {
    SameState(a.st, b.st) && a.left == b.left
  }

  lemma MovedRun(c: Codec, cap: nat, m: Move, st: State, p: seq<Byte>, now: Rest, moved: bool)
    requires StateOkay(st, cap) && StateOkay(now.st, cap) && !Ended(st)
    requires m == NextMove(c, cap, st, p) && Moved(m, Rest(st, p), now, moved)
    ensures moved ==> SameRest(Run(c, cap, now.st, now.left), Run(c, cap, st, p)) && (|now.left| < |p| || Ended(now.st))
    ensures moved ==> |now.left| <= |p|
    ensures !moved ==> Run(c, cap, st, p) == Rest(st, p) == now
  {
    hide NextMove;
    if moved && m.st.Broken? {
      EndedStays(c, cap, m.st, p[m.used..]);
      EndedStays(c, cap, now.st, now.left);
    }
  }

  lemma Enough(p: seq<Byte>, n: nat, i: nat, k: nat)
    requires i + k <= n <= |p|
    ensures LittleEndian(p[..n], i, k) == LittleEndian(p, i, k)
  {
    assert p == p[..n] + p[n..];
    LittleEndianPrefix(p[..n], p[n..], i, k);
  }

  datatype Scan = NeedMore | Reject | Ready

  /** The move a complete block makes. */
  function PayloadMove(c: Codec, f: Info, b: BlockHeader, out: seq<Byte>, data: seq<Byte>): Move
    requires 10 <= f.wlog <= 24 && (b.kind == Raw ==> |data| == b.size) && (b.kind == Rle ==> |data| == 1)
  {
    match DecodePayload(c, f, b, data, out)
    case BadPayload(code) => Go(Broken(code, out), 0)
    case GoodPayload(block) => Go(AfterBlock(c, f, b.last, out + block), DataStart(b) + |data|)
  }

  /** A turn did what the machine's move says. */
  ghost predicate Moved(m: Move, was: Rest, now: Rest, moved: bool) {
    && moved == m.Go?
    && (m.Wait? ==> now == was)
    && (m.Go? ==> m.used <= |was.left| && SameState(now.st, m.st) && now.left == was.left[m.used..])
  }

  /** Equal, except for which error a broken stream reports. */
  ghost predicate SameState(a: State, b: State) {
    a == b || (a.Broken? && b.Broken? && a.out == b.out)
  }

  lemma HeaderEnough(p: seq<Byte>)
    requires |p| >= HEADER_SIZE
    ensures ParseHeader(p[..HEADER_SIZE]) == ParseHeader(p)
  {
    hide LittleEndian;
    assert p == p[..HEADER_SIZE] + p[HEADER_SIZE..];
    LittleEndianPrefix(p[..HEADER_SIZE], p[HEADER_SIZE..], 0, 4);
  }

  lemma FooterEnough(p: seq<Byte>)
    requires |p| >= FOOTER_SIZE
    ensures LittleEndian(p[..FOOTER_SIZE], 8, 4) == LittleEndian(p, 8, 4)
    ensures LittleEndian(p[..FOOTER_SIZE], 0, 8) == LittleEndian(p, 0, 8)
  {
    hide LittleEndian;
    assert p == p[..FOOTER_SIZE] + p[FOOTER_SIZE..];
    LittleEndianPrefix(p[..FOOTER_SIZE], p[FOOTER_SIZE..], 8, 4);
    LittleEndianPrefix(p[..FOOTER_SIZE], p[FOOTER_SIZE..], 0, 8);
  }

  lemma Copied0(blank: seq<Byte>, now: seq<Byte>, v: seq<Byte>, p: nat, n: nat)
    requires |v| <= |blank| && now == blank[..0] + v + blank[|v|..] && p + n <= |v|
    ensures now[p..p + n] == v[p..p + n]
  {
  }

  lemma Tail(before: seq<Byte>, now: seq<Byte>, p: nat, n: nat, v: seq<Byte>)
    requires p + n + |v| <= |before| && now == before[..p + n] + v + before[p + n + |v|..]
    ensures |now| == |before| && now[p..p + n + |v|] == before[p..p + n] + v
  {
  }
}
