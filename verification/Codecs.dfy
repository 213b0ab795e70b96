/** Entropy-coded blocks by tag, the hash and the filter: what frames are made of
    (src/vv_decoder.c:784-826). */
module Codecs {
  import opened BlockDecode
  import opened Bytes
  import opened Frame
  import LitBlock
  import opened Lz
  import opened SeqCodes
  import SeqFrame
  import Xxh

  const TAG_HUFFMAN: nat := 0x48
  const TAG_ANS: nat := 0x41
  const TAG_ANS4: nat := 0x49
  const TAG_CTX: nat := 0x43
  const TAG_SEQ: nat := 0x53
  const TAG_SEQ_V2: nat := 0x54

  datatype Path = Literals(kind: LitBlock.Kind) | Sequences(v2: bool) | Unknown

  function PathOf(tag: Byte): Path {
    if tag == TAG_ANS then Literals(LitBlock.Ans)
    else if tag == TAG_ANS4 then Literals(LitBlock.Ans4)
    else if tag == TAG_CTX then Literals(LitBlock.Ctx)
    else if tag == TAG_SEQ then Sequences(false)
    else if tag == TAG_SEQ_V2 then Sequences(true)
    else if tag == TAG_HUFFMAN then Literals(LitBlock.Huffman)
    else Unknown
  }

  function BaseOf(v2: bool): seq<nat> {
    if v2 then MlBaseV2() else MlBase()
  }

  /** What newly allocated buffers hold: it may be anything, and differ from block to block. */
  type Memory = (seq<Byte>, seq<Byte>) -> (nat -> Byte)

  /** An entropy-coded block: its tag, then its data. `junk` is what the buffer allocated for the block holds. */
  ghost function DecodeEntropy(junk: Memory, f: Info, data: seq<Byte>, hist: seq<Byte>, size: nat): BlockResult {
    if |data| < 1 || !(10 <= f.wlog <= 24) then BlockError(Corrupt)
    else
      match PathOf(data[0])
      case Literals(kind) => LitBlock.DecodeBlock(kind, data[1..], hist, size, MaxOffset(f.wlog), OffBytes(f.wlog))
      case Sequences(v2) => SeqFrame.DecodeBlock(data[1..], BaseOf(v2), hist, size, MaxOffset(f.wlog), junk(data, hist))
      case Unknown => BlockError(Corrupt)
  }

  /** The program's own codec. */
  ghost function Real(junk: Memory): Codec {
    Codec((data: seq<Byte>, hist: seq<Byte>, size: nat, f: Info) => DecodeEntropy(junk, f, data, hist, size),
          (s: seq<Byte>) => Xxh.Hash(s, 0) as nat)
  }

  lemma RealMeans(junk: Memory, f: Info, data: seq<Byte>, hist: seq<Byte>, size: nat)
    ensures Real(junk).entropy(data, hist, size, f) == DecodeEntropy(junk, f, data, hist, size)
  {
    hide Xxh.Hash, DecodeEntropy;
  }

  lemma RealHash(junk: Memory, s: seq<Byte>)
    ensures Hash64(Real(junk), s) == Xxh.Hash(s, 0) as nat
  {
    hide Xxh.Hash, DecodeEntropy;
    Xxh.WordSmall(Xxh.Hash(s, 0));
  }

  /** An entropy-coded block, into `buf` from `start` on. */
  method DecodeEntropyInto(junk: Memory, f: Info, data: seq<Byte>, buf: array<Byte>, start: nat, cap: nat, tier: Tier)
    returns (o: Outcome, end: nat)
    requires 10 <= f.wlog <= 24 && start + cap <= buf.Length
    modifies buf
    ensures !o.BadRun? && start <= end <= start + cap
    ensures buf[start + cap..] == old(buf[start + cap..]) && buf[..start] == old(buf[..start])
    ensures DecodeEntropy(junk, f, data, old(buf[..start]), cap) == if o.Fine? then BlockOk(buf[..end]) else BlockError(o.error)
  {
    hide LitBlock.DecodeBlock, SeqFrame.DecodeBlock, MaxOffset, MlBase, MlBaseV2;
    end := start;
    if |data| < 1 {
      return Bad(Corrupt), end;
    }
    match PathOf(data[0]) {
      case Literals(kind) =>
        o, end := LitBlock.DecodeLitBlock(kind, data[1..], buf, start, cap, MaxOffset(f.wlog), OffBytes(f.wlog), tier);
      case Sequences(v2) =>
        var ok;
        ok, end := SeqFrame.DecodePayload(data[1..], BaseOf(v2), buf, start, cap, MaxOffset(f.wlog), junk(data, buf[..start]));
        o := if ok then Fine else Bad(Corrupt);
      case Unknown =>
        o := Bad(Corrupt);
    }
  }
}
