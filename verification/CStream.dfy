/** The streaming compressor (`vv_cstream_compress_chunk`, src/vv_encoder.c:2689-2809): chunks become
    blocks of one frame, over a source buffer that is compacted to the last window. */
module CStream {
  import Arith
  import opened Blocks
  import opened Bytes
  import opened Choices
  import Codecs
  import opened Copies
  import opened Emit
  import opened Frame
  import GreedyParse
  import LateLiterals
  import LateMatch
  import LitCoders
  import opened MatchFinder
  import Xxh

  //////////////////////////////////////////////////////////////////////////////
  // The compressor
  //////////////////////////////////////////////////////////////////////////////

  /** A position after `drop` bytes are gone from the front; -1 if it went with them. */
  function Moved(p: int, drop: nat): int {
    if p >= drop then p - drop else -1
  }

  ghost function MovedAll(a: seq<int>, drop: nat): (r: seq<int>)
    ensures |r| == |a| && forall i :: 0 <= i < |a| ==> r[i] == Moved(a[i], drop)
  {
    seq(|a|, i requires 0 <= i < |a| => Moved(a[i], drop))
  }

  /** Positions move down by `drop`; those that fall off are marked empty. */
  method ShiftAll(a: array<int>, drop: nat)
    modifies a
    ensures a[..] == MovedAll(old(a[..]), drop)
  {
    for i := 0 to a.Length
      invariant forall j :: 0 <= j < i ==> a[j] == Moved(old(a[j]), drop)
      invariant forall j :: i <= j < a.Length ==> a[j] == old(a[j])
    {
      a[i] := Moved(a[i], drop);
    }
  }

  ghost predicate Rebased(m: Matcher, drop: nat, table: seq<int>, chain: seq<int>, table4: seq<int>, chain4: seq<int>)
    reads m.table, m.chain, m.table4, m.chain4
  {
    if drop == 0 then m.table[..] == table && m.chain[..] == chain && m.table4[..] == table4 && m.chain4[..] == chain4
    else
      && m.table[..] == MovedAll(table, drop) && m.chain[..] == MovedAll(chain, drop)
      && m.table4[..] == MovedAll(table4, drop) && m.chain4[..] == MovedAll(chain4, drop)
  }

  lemma NothingMoved(m: Matcher)
    ensures Rebased(m, 0, m.table[..], m.chain[..], m.table4[..], m.chain4[..])
  {
  }

  method Rebase(m: Matcher, drop: nat)
    requires m.Shaped() && drop > 0
    modifies m.table, m.chain, m.table4, m.chain4
    ensures Rebased(m, drop, old(m.table[..]), old(m.chain[..]), old(m.table4[..]), old(m.chain4[..]))
  {
    hide MovedAll;
    ShiftAll(m.table, drop);
    ShiftAll(m.table4, drop);
    ShiftAll(m.chain, drop);
    ShiftAll(m.chain4, drop);
  }

  /** Compaction moves the links of a chain but not the places they are looked up at. A position that keeps its
      link finds it afterwards exactly when the bytes dropped are a multiple of the chain's length. */
  lemma LinkKept(chain: seq<int>, drop: nat, p: nat)
    requires forall i, j :: 0 <= i < j < |chain| && chain[i] >= 0 ==> chain[i] != chain[j]
    requires |chain| > 0 && p >= drop && chain[p % |chain|] >= drop
    ensures MovedAll(chain, drop)[(p - drop) % |chain|] == Moved(chain[p % |chain|], drop) <==> drop % |chain| == 0
  {
    var w := |chain|;
    SamePlace(w, drop, p);
    var i, j := p % w, (p - drop) % w;
    if i != j {
      assert chain[i] != chain[j];
    }
  }

  lemma SamePlace(w: nat, drop: nat, p: nat)
    requires w > 0 && p >= drop
    ensures (p - drop) % w == p % w <==> drop % w == 0
  {
    if drop % w == 0 {
      var q := drop / w;
      assert p - drop == p + (-q) * w;
      Arith.ModPlusMultiple(p, w, -q);
    }
    if (p - drop) % w == p % w {
      Arith.DivModUnique(drop, w, p / w - (p - drop) / w, 0);
    }
  }

  lemma EndGrows(input: seq<Byte>, hist: seq<Byte>, chunk: seq<Byte>)
    requires EndsWith(input, hist)
    ensures EndsWith(input + chunk, hist + chunk)
  {
    assert (input + chunk)[|input| - |hist|..] == input[|input| - |hist|..] + chunk;
  }

  lemma KeptEnd(input: seq<Byte>, before: seq<Byte>, now: seq<Byte>, len: nat, drop: nat, keep: nat)
    requires len == drop + keep <= |before| && EndsWith(input, before[..len])
    requires now == before[..0] + before[drop..drop + keep] + before[keep..]
    ensures |now| == |before| && EndsWith(input, now[..keep])
  {
    KeptSlice(before, now, len, drop, keep);
    TailOfTail(input, len, drop);
  }

  lemma TailOfTail(s: seq<Byte>, len: nat, drop: nat)
    requires drop <= len <= |s|
    ensures s[|s| - len..][drop..] == s[|s| - (len - drop)..]
  {
  }

  lemma KeptSlice(before: seq<Byte>, now: seq<Byte>, len: nat, drop: nat, keep: nat)
    requires len == drop + keep <= |before|
    requires now == before[..0] + before[drop..drop + keep] + before[keep..]
    ensures |now| == |before| && now[..keep] == before[..len][drop..]
  {
  }

  lemma TakenIn(before: seq<Byte>, now: seq<Byte>, len: nat, chunk: seq<Byte>)
    requires len + |chunk| <= |before| && now == before[..len] + chunk + before[len + |chunk|..]
    ensures |now| == |before| && now[..len + |chunk|] == before[..len] + chunk
  {
  }

  class Compressor {
    const m: Matcher
    const s: Settings
    const checksum: bool
    const srcBuf: array<Byte>
    const tmp: array<Byte>
    var srcLen: nat
    const cks: Xxh.State
    var headerEmitted: bool
    /** The stream so far, the frame so far, the blocks in it, and an output size the decoder has room for. */
    ghost var input: seq<Byte>
    ghost var emitted: seq<Byte>
    ghost var blocks: seq<Emission>
    ghost const room: nat
    ghost const junk: Codecs.Memory
    ghost const c: Codec

    constructor (m: Matcher, s: Settings, checksum: bool, ghost junk: Codecs.Memory, ghost room: nat)
      requires Suits(m, s) && SettingsOkay(s) && room < Xxh.TWO_TO_THE_64
      ensures Valid() && input == [] && emitted == [] && blocks == []
      ensures this.m == m && this.s == s && c == Codecs.Real(junk) && this.room == room && this.checksum == checksum
      ensures fresh(srcBuf) && fresh(tmp) && fresh(cks) && fresh(cks.buf)
    {
      hide Codecs.Real, Xxh.State.Valid, SettingsOkay, Suits, Run, NextMove, Framing, Follows, FrameHeader, Verdict;
      this.m, this.s, this.checksum, this.room, this.junk := m, s, checksum, room, junk;
      c := Codecs.Real(junk);
      srcBuf := new Byte[2 * (m.MaxDist() + 1) + Frame.MAX_BLOCK](_ => 0);
      tmp := new Byte[Frame.MAX_BLOCK + Frame.MAX_BLOCK / 255 + 1024](_ => 0);
      cks := new Xxh.State(0);
      srcLen, headerEmitted := 0, false;
      input, emitted, blocks := [], [], [];
    }

    /** What a call may change. */
    ghost function Footprint(): set<object> {
      {this, srcBuf, tmp, m, cks, cks.buf} + m.Tables()
    }

    function Window(): nat {
      m.MaxDist() + 1
    }

    function FrameInfo(): Info {
      Info(checksum, false, false, m.wlog)
    }

    /** The buffer holds the end of the stream, at least the last window of it; the checksum has taken
        in the stream; and the frame so far is a header and blocks for the stream so far, which a
        decoder follows. */
    ghost predicate Valid()
      reads this, m, srcBuf, cks, cks.buf
    {
      Shaped() && Suits(m, s) && Buffers() && Hashes() && Tracks()
    }

    ghost predicate Shaped() {
      && srcBuf != tmp && srcBuf !in m.Tables() && tmp !in m.Tables()
      && cks.buf != srcBuf && cks.buf != tmp && cks.buf !in m.Tables()
      && srcBuf.Length == 2 * Window() + Frame.MAX_BLOCK && tmp.Length == Frame.MAX_BLOCK + Frame.MAX_BLOCK / 255 + 1024
      && SettingsOkay(s) && Genuine(c, junk) && room < Xxh.TWO_TO_THE_64
    }

    ghost predicate Buffers()
      reads this`srcLen, this`input, srcBuf
    {
      && srcLen <= srcBuf.Length && |input| <= room
      && EndsWith(input, srcBuf[..srcLen]) && (srcLen == |input| || srcLen >= Window())
    }

    ghost predicate Hashes()
      reads this`input, cks, cks.buf
    {
      cks.Valid() && cks.seed == 0 && cks.taken == if checksum then input else []
    }

    ghost predicate Tracks()
      reads this`headerEmitted, this`input, this`emitted, this`blocks
    {
      && (!headerEmitted ==> input == [] && emitted == [] && blocks == [])
      && (headerEmitted ==> Framed(emitted) && Follows(c, room, FrameInfo(), emitted, input, Verdict(blocks)))
    }

    /** `frame` is a header and the blocks, which are for the stream. */
    ghost predicate Framed(frame: seq<Byte>)
      reads this`input, this`blocks
    {
      10 <= m.wlog <= 24 && Framing(c, FrameInfo(), s, FrameHeader(FrameInfo(), ModeHint(s), 0), frame, input, blocks)
    }

    /** The same behind a block that may be the last. */
    ghost predicate TracksBlock(last: bool)
      reads this`headerEmitted, this`input, this`emitted, this`blocks
    {
      headerEmitted && Framed(emitted) && FollowsBlock(c, room, FrameInfo(), emitted, input, Verdict(blocks), last)
    }

    /** How much goes when a chunk comes. */
    function Dropped(chunkLen: nat): (drop: nat)
      reads this`srcLen
    {
      if srcLen + chunkLen <= srcBuf.Length || srcLen <= Window() then 0 else srcLen - Window()
    }

    /** Takes bytes off the front of the buffer; at least a window stays. */
    method DropFront(drop: nat)
      requires srcBuf.Length >= srcLen >= drop + Window() && EndsWith(input, srcBuf[..srcLen])
      modifies this`srcLen, srcBuf
      ensures srcLen == old(srcLen) - drop && srcBuf[..srcLen] == old(srcBuf[..srcLen][drop..])
      ensures EndsWith(input, srcBuf[..srcLen])
    {
      hide EndsWith;
      ghost var before := srcBuf[..];
      assert srcBuf[..srcLen] == before[..srcLen];
      var keep := srcLen - drop;
      Store(srcBuf, 0, drop, keep);
      KeptEnd(input, before, srcBuf[..], srcLen, drop, keep);
      KeptSlice(before, srcBuf[..], srcLen, drop, keep);
      srcLen := keep;
      assert srcBuf[..srcLen] == srcBuf[..][..srcLen];
    }

    /** Compaction: when the chunk does not fit, only the last window stays, and the primary and
        secondary tables are re-based. */
    method MakeRoom(chunkLen: nat)
      requires Shaped() && Suits(m, s) && Buffers() && chunkLen <= Frame.MAX_BLOCK
      modifies this`srcLen, srcBuf, m.Tables()
      ensures Buffers() && srcLen + chunkLen <= srcBuf.Length && srcLen == old(srcLen) - old(Dropped(chunkLen))
      ensures srcBuf[..srcLen] == old(srcBuf[..srcLen][Dropped(chunkLen)..])
      ensures Rebased(m, old(Dropped(chunkLen)), old(m.table[..]), old(m.chain[..]), old(m.table4[..]), old(m.chain4[..]))
    {
      hide EndsWith, Genuine, SettingsOkay, Rebased, MovedAll;
      NothingMoved(m);
      if srcLen + chunkLen <= srcBuf.Length {
        return;
      }
      var keep := if srcLen > Window() then Window() else srcLen;
      var drop := srcLen - keep;
      if drop > 0 {
        DropFront(drop);
        Rebase(m, drop);
      }
    }

    /** Takes the chunk into the buffer and the checksum. */
    method TakeIn(chunk: seq<Byte>)
      requires Valid() && srcLen + |chunk| <= srcBuf.Length && |input| + |chunk| <= room
      modifies this`srcLen, this`input, srcBuf, cks, cks.buf
      ensures Suits(m, s) && Buffers() && Hashes() && input == old(input) + chunk && srcLen == old(srcLen) + |chunk|
      ensures srcBuf[..srcLen] == old(srcBuf[..srcLen]) + chunk
    {
      hide EndsWith, Tracks, Genuine, Xxh.State.Valid, Xxh.Stripes, Suits, SettingsOkay;
      ghost var before := srcBuf[..];
      StoreBytes(srcBuf, srcLen, chunk);
      TakenIn(before, srcBuf[..], srcLen, chunk);
      srcLen := srcLen + |chunk|;
      assert srcBuf[..srcLen] == srcBuf[..][..srcLen];
      assert old(srcBuf[..srcLen]) == before[..old(srcLen)];
      EndGrows(input, before[..old(srcLen)], chunk);
      if checksum {
        cks.Update(chunk);
      }
      input := input + chunk;
    }

    /** The frame header, on the first call. */
    method PutHeader() returns (bytes: seq<Byte>)
      requires Valid()
      modifies this`headerEmitted, this`emitted
      ensures Valid() && headerEmitted && emitted == old(emitted) + bytes && |bytes| <= (if old(headerEmitted) then 0 else HEADER_SIZE)
    {
      hide Genuine, Run, NextMove, FrameHeader, Buffers, Hashes, Suits, Framing, AllOkay, EmissionOkay;
      if headerEmitted {
        assert emitted + [] == emitted;
        return [];
      }
      WindowRange();
      bytes := FrameHeader(FrameInfo(), ModeHint(s), 0);
      HeaderParses(FrameInfo(), ModeHint(s), 0);
      HeaderRun(c, room, bytes, FrameInfo());
      NoEmissions(c, FrameInfo(), s, bytes);
      headerEmitted, emitted := true, bytes;
      assert [] + bytes == bytes;
    }

    lemma WindowRange()
      requires Suits(m, s)
      ensures 10 <= m.wlog <= 24
    {
    }

    /** The chunk behind what is kept of the stream before it. */
    method Prepare(chunk: seq<Byte>) returns (data: seq<Byte>, start: nat)
      requires Valid() && |chunk| <= Frame.MAX_BLOCK && |input| + |chunk| <= room
      modifies this`srcLen, this`input, srcBuf, cks, cks.buf, m.Tables()
      ensures Suits(m, s) && Buffers() && Hashes() && input == old(input) + chunk
      ensures start <= |data| && data[start..] == chunk && EndsWith(old(input), data[..start])
      ensures start == |old(input)| || start >= Window()
    {
      hide Genuine, EndsWith, Hashes, Suits, SettingsOkay, Tracks;
      MakeRoom(|chunk|);
      start := srcLen;
      ghost var hist := srcBuf[..srcLen];
      TakeIn(chunk);
      data := srcBuf[..srcLen];
      assert data[..start] == hist && data[start..] == chunk;
    }

    /** The chunk's block. */
    method PutBlock(chunk: seq<Byte>, last: bool, cap: nat) returns (r: Written)
      requires Valid() && headerEmitted && 0 < |chunk| <= Frame.MAX_BLOCK && |input| + |chunk| <= room
      modifies Footprint()
      ensures r.Bytes? ==> |r.bytes| <= cap && input == old(input) + chunk && emitted == old(emitted) + r.bytes
      ensures if r.Bytes? then |r.bytes| <= 6 + |chunk| else cap < 6 + |chunk|
      ensures r.Bytes? ==> Suits(m, s) && Buffers() && Hashes() && TracksBlock(last)
      ensures r.Bytes? ==> Grown(s, m.Chains(), old(blocks), blocks, old(input), chunk, last, Window())
    {
      hide Spoils, Genuine, EndsWith, Fulfils, Follows, FollowsBlock, Hashes, Suits, SettingsOkay, Framing, Verdict, FrameHeader, Content,
        Writes, Chosen;
      WindowRange();
      ghost var was := input;
      var data, start := Prepare(chunk);
      ghost var fate, ch;
      var j := Job(data, start, last);
      r, fate, ch := EmitBlock(m, s, j, tmp, LitCoders.MAX_LITERALS, 2 * LitCoders.Bound(LitCoders.MAX_LITERALS),
                               cap, c, junk, FrameInfo());
      if r.Bytes? {
        WritesChosen(m.wlog, s, j, ch, cap, r);
        ghost var e := Emission(j, r.bytes, fate, ch);
        ContentIs(e, start, chunk);
        if Spoils(s, After(was, chunk)) {
          KeptSpoils(s, was, chunk, data, start, last);
        }
        assert GrownBy(s, m.Chains(), e, was, chunk, last, Window());
        Record(e, was);
      }
    }

    /** Adds a block to the frame, for what was just taken in after `was`. */
    ghost method Record(e: Emission, was: seq<Byte>)
      requires headerEmitted && Follows(c, room, FrameInfo(), emitted, was, Verdict(blocks)) && EmissionOkay(c, FrameInfo(), s, e)
      requires 10 <= m.wlog <= 24
      requires Framing(c, FrameInfo(), s, FrameHeader(FrameInfo(), ModeHint(s), 0), emitted, was, blocks)
      requires e.job.start <= |e.job.data| && EndsWith(was, e.job.data[..e.job.start]) && |was| + |Content(e)| <= room
      requires input == was + Content(e)
      modifies this`blocks, this`emitted
      ensures TracksBlock(e.job.last) && blocks == old(blocks) + [e] && emitted == old(emitted) + e.bytes
    {
      hide EndsWith, EmissionOkay, Follows, FollowsBlock, Framing, Verdict, FrameHeader, Content;
      AddBlock(c, room, FrameInfo(), s, FrameHeader(FrameInfo(), ModeHint(s), 0), emitted, was, blocks, e);
      blocks := blocks + [e];
      emitted := emitted + e.bytes;
    }

    /** The chunk's block, an empty last block, or nothing. */
    method PutBody(chunk: seq<Byte>, last: bool, cap: nat) returns (r: Written)
      requires Valid() && headerEmitted && |chunk| <= Frame.MAX_BLOCK && |input| + |chunk| <= room
      modifies Footprint()
      ensures r.Bytes? ==> |r.bytes| <= cap && input == old(input) + chunk && emitted == old(emitted) + r.bytes
      ensures if r.Bytes? then |r.bytes| <= 6 + |chunk| else cap < 6 + |chunk|
      ensures r.Bytes? ==> Suits(m, s) && Buffers() && Hashes() && TracksBlock(last) && (last || Valid())
      ensures r.Bytes? ==> Grown(s, m.Chains(), old(blocks), blocks, old(input), chunk, last, Window())
    {
      hide Spoils, Genuine, FollowsBlock, Follows, RawBlock, Buffers, Hashes, Suits, Framing, Verdict, Adds, FrameHeader, Content;
      WindowRange();
      if |chunk| > 0 {
        r := PutBlock(chunk, last, cap);
        if r.Bytes? && !last {
          FollowsOn(c, room, FrameInfo(), emitted, input, Verdict(blocks));
        }
        return;
      }
      assert input + chunk == input;
      if !last {
        assert emitted + [] == emitted;
        RestFollows(c, room, FrameInfo(), emitted, input, Verdict(blocks));
        return Bytes([]);
      }
      if cap < 4 {
        return NoRoom;
      }
      ghost var e := EmptyEmission(c, FrameInfo(), s, input);
      assert input + [] == input;
      NothingSpoils(s, input);
      assert GrownBy(s, m.Chains(), e, input, chunk, last, Window());
      Record(e, input);
      EmptyRaw();
      return Bytes(RawBlock(true, []));
    }

    /** `vv_cstream_compress_chunk`: header on the first call, a block for a chunk, an empty last
        block when there is none, the footer at the end. Between calls a decoder that has the frame
        so far has the stream so far, as long as the blocks are sound; after the last call it is done, with
        exactly the stream. A block whose literals were miscounted breaks it. */
    method CompressChunk(chunk: seq<Byte>, last: bool, dstCap: nat) returns (r: Written)
      requires Valid() && |chunk| <= Frame.MAX_BLOCK && |input| + |chunk| <= room
      modifies Footprint()
      ensures r.Bytes? ==> |r.bytes| <= dstCap && input == old(input) + chunk && emitted == old(emitted) + r.bytes
      ensures r.NoRoom? ==> dstCap < HEADER_SIZE + 6 + |chunk| + FOOTER_SIZE
      ensures r.Bytes? ==> Grown(s, m.Chains(), old(blocks), blocks, old(input), chunk, last, Window())
      ensures r.Bytes? && !last ==> Valid()
      ensures r.Bytes? && last ==> Ends()
    {
      hide Genuine, FollowsBlock, Suits, SettingsOkay, Buffers, Hashes, Framing, Verdict, Framed, Ends, Grown;
      if !headerEmitted && dstCap < HEADER_SIZE {
        return NoRoom;
      }
      var bytes := PutHeader();
      r := PutBody(chunk, last, dstCap - |bytes|);
      if r.NoRoom? {
        return;
      }
      bytes := bytes + r.bytes;
      if last {
        r := PutFooter(dstCap - |bytes|);
        if r.NoRoom? {
          return;
        }
        bytes := bytes + r.bytes;
      }
      return Bytes(bytes);
    }

    /** The frame is complete. */
    ghost predicate Ends()
      reads this`input, this`emitted, this`blocks
    {
      10 <= m.wlog <= 24 && Complete(c, room, FrameInfo(), s, FrameHeader(FrameInfo(), ModeHint(s), 0), emitted, input, blocks)
    }

    /** The footer, if the frame has one. */
    method PutFooter(cap: nat) returns (r: Written)
      requires Shaped() && Hashes() && TracksBlock(true) && |input| <= room
      modifies this`emitted
      ensures r.Bytes? ==> |r.bytes| <= cap && emitted == old(emitted) + r.bytes && Ends()
      ensures r.NoRoom? ==> cap < FOOTER_SIZE
    {
      hide FooterBytes, Xxh.Hash, Xxh.Stripes, Hash64, Codecs.Real, Framing, FollowsBlock, Verdict, FrameHeader, Complete;
      EndFrame(c, room, FrameInfo(), s, FrameHeader(FrameInfo(), ModeHint(s), 0), emitted, input, blocks);
      if !checksum {
        assert emitted + [] == emitted;
        return Bytes([]);
      }
      if cap < FOOTER_SIZE {
        return NoRoom;
      }
      var h := cks.Finalize();
      Codecs.RealHash(junk, input);
      emitted := emitted + FooterBytes(h as nat);
      return Bytes(FooterBytes(h as nat));
    }
  }

  /** A chunk, after the stream before it. */
  function After(before: seq<Byte>, chunk: seq<Byte>): Job {
    Job(before + chunk, |before|, false)
  }

  /** A chunk adds a block for it, with at least the last window of the stream before it as history. The block breaks if
      the chunk spoils after that stream. An empty chunk adds an empty block at the end, and none before. */
  ghost predicate Grown(s: Settings, chains: bool, was: seq<Emission>, now: seq<Emission>, before: seq<Byte>, chunk: seq<Byte>,
                        last: bool, window: nat)
  {
    || (now == was && chunk == [] && !last)
    || exists e :: now == was + [e] && GrownBy(s, chains, e, before, chunk, last, window)
  }

  ghost predicate GrownBy(s: Settings, chains: bool, e: Emission, before: seq<Byte>, chunk: seq<Byte>, last: bool, window: nat) {
    && Content(e) == chunk && e.job.last == last && (chunk != [] ==> Remembers(e, before, window))
    && (chains && Spoils(s, After(before, chunk)) ==> e.fate == Broken16)
  }

  /** The whole stream before the block or the last window of it is its history, and its buffers are those of the
      compressor. */
  ghost predicate Remembers(e: Emission, before: seq<Byte>, window: nat) {
    && e.job.start <= |e.job.data| && EndsWith(before, e.job.data[..e.job.start])
    && (e.job.start == |before| || e.job.start >= window)
    && e.choice.room == Frame.MAX_BLOCK + Frame.MAX_BLOCK / 255 + 1024
    && e.choice.litCap == LitCoders.MAX_LITERALS && e.choice.entCap == 2 * LitCoders.Bound(LitCoders.MAX_LITERALS)
  }

  /** The first block that is not sound decides. */
  lemma GrownVerdict(s: Settings, chains: bool, was: seq<Emission>, now: seq<Emission>, before: seq<Byte>, chunk: seq<Byte>,
                     last: bool, window: nat)
    requires Grown(s, chains, was, now, before, chunk, last, window)
    ensures !Verdict(was).Sound? ==> Verdict(now) == Verdict(was)
    ensures Verdict(was).Sound? && chains && Spoils(s, After(before, chunk)) ==> Verdict(now) == Broken16
  {
    hide Verdict, Spoils, Content, Remembers;
    if now == was && chunk == [] {
      NothingSpoils(s, before);
    } else {
      var e :| now == was + [e] && GrownBy(s, chains, e, before, chunk, last, window);
      EmissionNext(was, e);
    }
  }

  lemma NothingSpoils(s: Settings, before: seq<Byte>)
    ensures !Spoils(s, After(before, []))
  {
    hide LateMatch.Ends;
  }

  /** What spoils after the whole stream spoils after the end of it that is kept. */
  lemma KeptSpoils(s: Settings, before: seq<Byte>, chunk: seq<Byte>, data: seq<Byte>, start: nat, last: bool)
    requires start <= |data| && data[start..] == chunk && EndsWith(before, data[..start])
    requires Spoils(s, After(before, chunk))
    ensures Spoils(s, Job(data, start, last))
    ensures LateMatch.Room(|chunk|, 0) + 512 <= Frame.MAX_BLOCK + Frame.MAX_BLOCK / 255 + 1024
  {
    hide LateMatch.Ends, LateLiterals.Lasting;
    var all, drop := before + chunk, |before| - start;
    assert data == data[..start] + chunk;
    assert all[drop..] == before[drop..] + chunk == data;
    LateLiterals.SpoilsAfterLess(all, |before|, |all|, drop);
  }

  lemma {:induction false} JoinedNext(chunks: seq<seq<Byte>>, i: nat)
    requires i < |chunks|
    ensures Joined(chunks[..i + 1]) == Joined(chunks[..i]) + chunks[i]
    ensures |Joined(chunks[..i + 1])| <= |Joined(chunks)|
    decreases i
  {
    if i == 0 {
      assert chunks[..1] == [chunks[0]] && chunks[..1][1..] == [];
      assert chunks[..0] == [];
    } else {
      JoinedNext(chunks[1..], i - 1);
      assert chunks[..i + 1][1..] == chunks[1..][..i] && chunks[..i][1..] == chunks[1..][..i - 1];
    }
  }

  /** Chunk `i` spoils after those before it, none of which has more than 65535 bytes. */
  ghost predicate Fatal(s: Settings, chunks: seq<seq<Byte>>, i: nat)
    requires i < |chunks|
  {
    Spoils(s, After(Joined(chunks[..i]), chunks[i])) && forall k :: 0 <= k < i ==> |chunks[k]| <= 0xFFFF
  }

  /** How far a run has come: only small blocks as long as the chunks are, and broken once a chunk was fatal. */
  ghost predicate Come(s: Compressor, chunks: seq<seq<Byte>>, i: nat)
    requires i <= |chunks|
    reads s
  {
    && s.input == Joined(chunks[..i])
    && ((forall k :: 0 <= k < i ==> |chunks[k]| <= 0xFFFF) ==> Small(s.blocks))
    && forall k :: 0 <= k < i && s.m.Chains() && Fatal(s.s, chunks, k) ==> Verdict(s.blocks) == Broken16
  }

  lemma SoundSoFar(s: Compressor)
    requires s.Valid() && Small(s.blocks)
    ensures Verdict(s.blocks).Sound?
  {
    hide Framing, Follows, Verdict, Small, Suits, EndsWith, Genuine, SettingsOkay, Xxh.State.Valid, FrameHeader;
    if s.headerEmitted {
      SmallSound(s.c, s.FrameInfo(), s.s, FrameHeader(s.FrameInfo(), ModeHint(s.s), 0), s.emitted, s.input, s.blocks);
    } else {
      NoEmissions(s.c, s.FrameInfo(), s.s, []);
    }
  }

  /** One chunk of a run. */
  method FeedOne(s: Compressor, chunks: seq<seq<Byte>>, i: nat, last: bool, dstCap: nat) returns (w: Written)
    requires s.Valid() && i < |chunks| && |chunks[i]| <= Frame.MAX_BLOCK && |Joined(chunks)| <= s.room && Come(s, chunks, i)
    modifies s.Footprint()
    ensures w.NoRoom? ==> dstCap < HEADER_SIZE + 6 + |chunks[i]| + FOOTER_SIZE
    ensures w.Bytes? ==> s.emitted == old(s.emitted) + w.bytes && Come(s, chunks, i + 1) && if last then s.Ends() else s.Valid()
  {
    hide Joined, Compressor.Valid, Verdict, Grown, Small, Complete, Spoils;
    JoinedNext(chunks, i);
    ghost var was := s.blocks;
    if Small(was) {
      SoundSoFar(s);
    }
    w := s.CompressChunk(chunks[i], last, dstCap);
    if w.Bytes? {
      GrownVerdict(s.s, s.m.Chains(), was, s.blocks, Joined(chunks[..i]), chunks[i], last, s.Window());
      if Small(was) && |chunks[i]| <= 0xFFFF {
        StaysSmall(s.s, s.m.Chains(), was, s.blocks, Joined(chunks[..i]), chunks[i], last, s.Window());
      }
    }
  }

  /** Every run of the streaming compressor, over any chunks of at most 1 MB with all calls succeeding and the
      last one marked, makes one frame of blocks for the concatenated input.

      If every block is sound, decoding the frame at once, or in any pieces, gives that input. A block is not
      sound only if it holds more than 65535 coded literals: never in fast mode, in format v2, or when no chunk
      has more than 65535 bytes. If the first such block is a broken one, decoding the frame fails, at once or in any
      pieces; and so it does, in balanced mode, if a chunk spoils after smaller ones. */
  method CompressAll(s: Compressor, chunks: seq<seq<Byte>>, dstCap: nat) returns (ok: bool, frame: seq<Byte>)
    requires s.Valid() && s.input == [] && s.emitted == [] && s.blocks == [] && chunks != [] && |Joined(chunks)| <= s.room
    requires forall i :: 0 <= i < |chunks| ==> |chunks[i]| <= Frame.MAX_BLOCK
    modifies s.Footprint()
    ensures (forall i :: 0 <= i < |chunks| ==> dstCap >= HEADER_SIZE + 6 + |chunks[i]| + FOOTER_SIZE) ==> ok
    ensures ok ==> s.emitted == frame && s.input == Joined(chunks) && s.Ends()
    ensures ok && Verdict(s.blocks).Sound? ==> Decompress(s.c, s.room, frame) == Success(Joined(chunks))
    ensures ok && Verdict(s.blocks).Sound? ==> forall pieces: seq<seq<Byte>> :: Joined(pieces) == frame ==>
              FeedAll(s.c, s.room, Rest(AtHeader, []), pieces).st == Done(Joined(chunks))
    ensures ok && Verdict(s.blocks).Broken16? ==> Decompress(s.c, s.room, frame).Failure?
    ensures ok && Verdict(s.blocks).Broken16? ==> forall pieces: seq<seq<Byte>> :: Joined(pieces) == frame ==>
              FeedAll(s.c, s.room, Rest(AtHeader, []), pieces).st.Broken?
    ensures ok && (s.s.mode == GreedyParse.UltraFast || s.s.v2 || forall i :: 0 <= i < |chunks| ==> |chunks[i]| <= 0xFFFF) ==>
              Verdict(s.blocks).Sound?
    ensures ok && s.m.Chains() ==> forall i :: 0 <= i < |chunks| && Fatal(s.s, chunks, i) ==> Verdict(s.blocks).Broken16?
  {
    hide Run, Decompress, FeedAll, Joined, Compressor.Valid, Verdict, Grown, Small, Complete, Unfilter, Fatal;
    frame := [];
    var n := |chunks|;
    NoneBig();
    NothingJoined(chunks);
    for i := 0 to n - 1
      invariant s.Valid() && Come(s, chunks, i) && s.emitted == frame
    {
      var w := FeedOne(s, chunks, i, false, dstCap);
      if w.NoRoom? {
        return false, [];
      }
      frame := frame + w.bytes;
    }
    var w := FeedOne(s, chunks, n - 1, true, dstCap);
    if w.NoRoom? {
      return false, [];
    }
    frame := frame + w.bytes;
    ok := true;
    assert chunks[..n] == chunks;
    CompleteMeans(s.c, s.room, s.FrameInfo(), s.s, FrameHeader(s.FrameInfo(), ModeHint(s.s), 0), frame, Joined(chunks), s.blocks);
    PlainEnd(s.c, s.FrameInfo(), Joined(chunks));
  }

  lemma StaysSmall(s: Settings, chains: bool, was: seq<Emission>, now: seq<Emission>, before: seq<Byte>, chunk: seq<Byte>, last: bool,
                   window: nat)
    requires Small(was) && Grown(s, chains, was, now, before, chunk, last, window) && |chunk| <= 0xFFFF
    ensures Small(now)
  {
    hide Content, Spoils, Remembers;
  }

  lemma NothingJoined(chunks: seq<seq<Byte>>)
    ensures Joined(chunks[..0]) == []
  {
  }
}
