/** Huffman decoding (src/vv_huffman.c:84-119, 360-390, 642-900): a bit reader, the twelve-bit table
    with its list of longer codes, and one or four round-robin streams. */
module HuffDecode {
  import opened Arith
  import opened BitIo
  import opened Bits
  import opened Bytes
  import opened HuffCode
  import opened HuffLengths

  const DECODE_BITS: nat := 12
  const DECODE_SIZE: nat := 4096

  //////////////////////////////////////////////////////////////////////////////
  // One symbol
  //////////////////////////////////////////////////////////////////////////////

  datatype Hit = NoHit | Hit(sym: Byte, len: nat)
  datatype Slow = Slow(rev: nat, len: nat, sym: Byte)

  /** The table for codes of at most 12 bits, and the list of the longer ones. */
  datatype DecTable = DecTable(fast: seq<Hit>, slow: seq<Slow>)

  ghost predicate TableOkay(d: DecTable) {
    && |d.fast| == DECODE_SIZE
    && (forall i :: 0 <= i < DECODE_SIZE && d.fast[i].Hit? ==> 1 <= d.fast[i].len <= DECODE_BITS)
    && (forall i :: 0 <= i < |d.slow| ==> DECODE_BITS < d.slow[i].len <= MAX_CODE_LEN)
  }

  datatype Step = Bad | Got(sym: Byte, next: nat)

  ghost function SlowScan(slow: seq<Slow>, stream: seq<bool>, t: nat): Step {
    if slow == [] then Bad
    else if t + slow[0].len <= |stream| && Val(BitIo.Window(stream, t, slow[0].len)) == slow[0].rev
    then Got(slow[0].sym, t + slow[0].len)
    else SlowScan(slow[1..], stream, t)
  }

  ghost function Peek(stream: seq<bool>, t: nat): (i: nat)
    ensures i < DECODE_SIZE
  {
    ValBound(BitIo.Window(stream, t, DECODE_BITS));
    Pow2Small();
    Val(BitIo.Window(stream, t, DECODE_BITS))
  }

  /** The symbol at bit `t`, with every length checked against the end of the stream. */
  ghost function Decode(d: DecTable, stream: seq<bool>, t: nat): Step
    requires TableOkay(d)
  {
    match d.fast[Peek(stream, t)]
    case Hit(sym, len) => if t + len > |stream| then Bad else Got(sym, t + len)
    case NoHit => SlowScan(d.slow, stream, t)
  }

  //////////////////////////////////////////////////////////////////////////////
  // The reader
  //////////////////////////////////////////////////////////////////////////////

  /** `br_t`: `nbits` buffered bits in front of byte `pos`. */
  class Reader {
    var bits: nat
    var nbits: nat
    var pos: nat
    const src: seq<Byte>

    constructor (src: seq<Byte>)
      ensures Valid() && this.src == src && At() == 0
    {
      bits, nbits, pos := 0, 0, 0;
      this.src := src;
    }

    /** While the bulk load may still be used, fewer than 64 bits are buffered. */
    ghost predicate Valid()
      reads this
    {
      && pos <= |src| && nbits <= 64 && nbits <= 8 * pos && (pos + 8 <= |src| ==> nbits <= 63)
      && bits == Val(BitIo.Window(ByteBits(src), 8 * pos - nbits, nbits))
    }

    ghost function At(): nat
      requires Valid()
      reads this
    {
      8 * pos - nbits
    }

    /** `br_refill`: one masked eight-byte load, or bytes near the end. */
    method Refill()
      requires Valid()
      modifies this
      ensures Valid() && At() == old(At()) && nbits >= old(nbits)
      ensures nbits >= 56 || pos == |src|
      ensures old(pos) + 8 <= |src| ==> nbits >= 56
    {
      hide ByteBits, BitIo.Window, Val, Pow2;
      if pos + 8 <= |src| {
        var k := (63 - nbits) / 8;
        BufferBytes(src, pos, 8 * pos - nbits, nbits, k);
        bits := bits + Val(ByteBits(src[pos..pos + 8])) % Pow2(8 * k) * Pow2(nbits);
        pos := pos + k;
        nbits := nbits + 8 * k;
        return;
      }
      while nbits <= 56 && pos < |src|
        invariant Valid() && At() == old(At()) && nbits >= old(nbits) && pos + 8 > |src|
        decreases |src| - pos
      {
        BufferByte(src, pos, 8 * pos - nbits, nbits);
        bits := bits + src[pos] * Pow2(nbits);
        pos := pos + 1;
        nbits := nbits + 8;
      }
    }

    method PeekBits(n: nat) returns (v: nat)
      requires Valid() && (n <= nbits || pos == |src|)
      ensures v == Val(BitIo.Window(ByteBits(src), At(), n))
    {
      hide ByteBits, BitIo.Window, Val, Pow2;
      TakeBits(ByteBits(src), 8 * pos - nbits, bits, nbits, n, 8 * pos);
      v := bits % Pow2(n);
    }

    method Consume(n: nat)
      requires Valid() && n <= nbits
      modifies this
      ensures Valid() && At() == old(At()) + n && nbits == old(nbits) - n && pos == old(pos)
    {
      hide ByteBits, BitIo.Window, Val, Pow2;
      TakeBits(ByteBits(src), 8 * pos - nbits, bits, nbits, n, 8 * pos);
      bits := bits / Pow2(n);
      nbits := nbits - n;
    }
  }

  function Outcome(ok: bool, sym: Byte, next: nat): Step {
    if ok then Got(sym, next) else Bad
  }

  /** Looks through the longer codes. When `checked`, a code longer than what is buffered is passed
      over; otherwise enough is known to be buffered. */
  method ScanSlow(r: Reader, d: DecTable, checked: bool) returns (ok: bool, sym: Byte)
    requires r.Valid() && TableOkay(d) && (r.nbits >= MAX_CODE_LEN || (checked && r.pos == |r.src|))
    modifies r
    ensures r.Valid() && r.pos == old(r.pos) && r.nbits + MAX_CODE_LEN >= old(r.nbits)
    ensures SlowScan(d.slow, ByteBits(r.src), old(r.At())) == Outcome(ok, sym, r.At())
  {
    hide ByteBits, BitIo.Window, Val;
    ghost var t := r.At();
    assert d.slow[0..] == d.slow;
    for i := 0 to |d.slow|
      invariant r.Valid() && r.At() == t && r.nbits == old(r.nbits) && r.pos == old(r.pos)
      invariant SlowScan(d.slow, ByteBits(r.src), t) == SlowScan(d.slow[i..], ByteBits(r.src), t)
    {
      assert d.slow[i..][0] == d.slow[i] && d.slow[i..][1..] == d.slow[i + 1..];
      var len := d.slow[i].len;
      if !checked || r.nbits >= len {
        var v := r.PeekBits(len);
        if v == d.slow[i].rev {
          r.Consume(len);
          return true, d.slow[i].sym;
        }
      }
    }
    return false, 0;
  }

  /** `DEC_ONE`: refill when fewer than 15 bits are buffered, look up, check every length. */
  method DecodeChecked(r: Reader, d: DecTable) returns (ok: bool, sym: Byte)
    requires r.Valid() && TableOkay(d)
    modifies r
    ensures r.Valid() && Decode(d, ByteBits(r.src), old(r.At())) == Outcome(ok, sym, r.At())
  {
    hide ByteBits, BitIo.Window, Val, SlowScan;
    if r.nbits < MAX_CODE_LEN {
      r.Refill();
    }
    var peek := r.PeekBits(DECODE_BITS);
    assert peek == Peek(ByteBits(r.src), r.At());
    match d.fast[peek] {
      case Hit(s, len) =>
        if r.nbits < len {
          return false, 0;
        }
        r.Consume(len);
        return true, s;
      case NoHit =>
        ok, sym := ScanSlow(r, d, true);
    }
  }

  /** `DEC_ONE_NR`: no refill and no length checks, when 15 bits are known to be buffered. It
      decodes what the checked form decodes. */
  method DecodeBuffered(r: Reader, d: DecTable) returns (ok: bool, sym: Byte)
    requires r.Valid() && TableOkay(d) && r.nbits >= MAX_CODE_LEN
    modifies r
    ensures r.Valid() && r.pos == old(r.pos) && r.nbits + MAX_CODE_LEN >= old(r.nbits)
    ensures Decode(d, ByteBits(r.src), old(r.At())) == Outcome(ok, sym, r.At())
  {
    hide ByteBits, BitIo.Window, Val, SlowScan;
    var peek := r.PeekBits(DECODE_BITS);
    assert peek == Peek(ByteBits(r.src), r.At());
    match d.fast[peek] {
      case Hit(s, len) =>
        r.Consume(len);
        return true, s;
      case NoHit =>
        ok, sym := ScanSlow(r, d, false);
    }
  }

  //////////////////////////////////////////////////////////////////////////////
  // Round-robin streams
  //////////////////////////////////////////////////////////////////////////////

  /** The decoded bytes, and the bit position at which each stream was left. */
  datatype Decoded = Failed | Out(bytes: seq<Byte>, ends: seq<nat>)

  function After(done: seq<Byte>, rest: Decoded): Decoded {
    match rest
    case Failed => Failed
    case Out(bytes, ends) => Out(done + bytes, ends)
  }

  /** Symbols `i..n`, symbol `j` from stream `j % |streams|`, each checked. */
  ghost function RoundRobin(d: DecTable, streams: seq<seq<bool>>, ts: seq<nat>, i: nat, n: nat): (r: Decoded)
    requires TableOkay(d) && |streams| == |ts| > 0
    ensures r.Out? && i <= n ==> |r.bytes| == n - i
    decreases n - i
  {
    if i >= n then Out([], ts)
    else
      var k := i % |streams|;
      match Decode(d, streams[k], ts[k])
      case Bad => Failed
      case Got(sym, next) => After([sym], RoundRobin(d, streams, ts[k := next], i + 1, n))
  }

  /** What the decoder will return: what it has, then what the streams still hold. */
  ghost function Outlook(d: DecTable, streams: seq<seq<bool>>, ts: seq<nat>, done: seq<Byte>, n: nat): Decoded
    requires TableOkay(d) && |streams| == |ts| > 0
  {
    After(done, RoundRobin(d, streams, ts, |done|, n))
  }

  lemma OutlookStep(d: DecTable, streams: seq<seq<bool>>, ts: seq<nat>, done: seq<Byte>, n: nat)
    requires TableOkay(d) && |streams| == |ts| > 0 && |done| < n
    ensures var k := |done| % |streams|;
            var s := Decode(d, streams[k], ts[k]);
            Outlook(d, streams, ts, done, n) ==
            if s.Bad? then Failed else Outlook(d, streams, ts[k := s.next], done + [s.sym], n)
  {
    hide Decode, TableOkay;
    var k := |done| % |streams|;
    var s := Decode(d, streams[k], ts[k]);
    if s.Got? {
      AfterAfter(done, [s.sym], RoundRobin(d, streams, ts[k := s.next], |done| + 1, n));
    }
  }

  lemma AfterAfter(a: seq<Byte>, b: seq<Byte>, r: Decoded)
    ensures After(a, After(b, r)) == After(a + b, r)
  {
    if r.Out? {
      assert a + (b + r.bytes) == (a + b) + r.bytes;
    }
  }

  lemma OutlookDone(d: DecTable, streams: seq<seq<bool>>, ts: seq<nat>, done: seq<Byte>, n: nat)
    requires TableOkay(d) && |streams| == |ts| > 0 && |done| == n
    ensures Outlook(d, streams, ts, done, n) == Out(done, ts)
  {
    assert done + [] == done;
  }

  /** One symbol of one lane into `dst[i]`. */
  method TakeSymbol(r: Reader, d: DecTable, dst: array<Byte>, i: nat, buffered: bool) returns (ok: bool)
    requires r.Valid() && TableOkay(d) && i < dst.Length && (buffered ==> r.nbits >= MAX_CODE_LEN)
    modifies r, dst
    ensures r.Valid()
    ensures Decode(d, ByteBits(r.src), old(r.At())) == Outcome(ok, dst[i], r.At())
    ensures ok ==> dst[..i + 1] == old(dst[..i]) + [dst[i]]
    ensures buffered ==> r.pos == old(r.pos) && r.nbits + MAX_CODE_LEN >= old(r.nbits)
  {
    hide ByteBits, Decode, TableOkay;
    var sym;
    if buffered {
      ok, sym := DecodeBuffered(r, d);
    } else {
      ok, sym := DecodeChecked(r, d);
    }
    dst[i] := sym;
    assert dst[..i + 1] == dst[..i] + [dst[i]];
  }

  /** `vvh_decode`'s loop: one stream. */
  method DecodeOneStream(r: Reader, d: DecTable, n: nat) returns (ok: bool, dst: array<Byte>)
    requires r.Valid() && TableOkay(d)
    modifies r
    ensures fresh(dst) && dst.Length == n && r.Valid()
    ensures RoundRobin(d, [ByteBits(r.src)], [old(r.At())], 0, n) == if ok then Out(dst[..], [r.At()]) else Failed
  {
    hide ByteBits, TableOkay, RoundRobin, Outlook, Decode;
    dst := new Byte[n](_ => 0);
    ghost var streams := [ByteBits(r.src)];
    ghost var goal := RoundRobin(d, streams, [r.At()], 0, n);
    OutlookStart(d, streams, [r.At()], n);
    assert dst[..0] == [];
    for i := 0 to n
      invariant r.Valid() && goal == Outlook(d, streams, [r.At()], dst[..i], n)
    {
      ghost var t := r.At();
      OutlookStep(d, streams, [t], dst[..i], n);
      ok := TakeSymbol(r, d, dst, i, false);
      if !ok {
        return;
      }
      assert [t][0 := r.At()] == [r.At()];
    }
    OutlookDone(d, streams, [r.At()], dst[..n], n);
    assert dst[..n] == dst[..];
    ok := true;
  }

  lemma OutlookStart(d: DecTable, streams: seq<seq<bool>>, ts: seq<nat>, n: nat)
    requires TableOkay(d) && |streams| == |ts| > 0
    ensures Outlook(d, streams, ts, [], n) == RoundRobin(d, streams, ts, 0, n)
  {
    var r := RoundRobin(d, streams, ts, 0, n);
    if r.Out? {
      assert [] + r.bytes == r.bytes;
    }
  }

  /** The four lanes' readers, all different. */
  ghost predicate Lanes(r0: Reader, r1: Reader, r2: Reader, r3: Reader, streams: seq<seq<bool>>)
    reads r0, r1, r2, r3
  {
    && r0 != r1 && r0 != r2 && r0 != r3 && r1 != r2 && r1 != r3 && r2 != r3
    && r0.Valid() && r1.Valid() && r2.Valid() && r3.Valid()
    && streams == [ByteBits(r0.src), ByteBits(r1.src), ByteBits(r2.src), ByteBits(r3.src)]
  }

  ghost function Ats(r0: Reader, r1: Reader, r2: Reader, r3: Reader): seq<nat>
    requires r0.Valid() && r1.Valid() && r2.Valid() && r3.Valid()
    reads r0, r1, r2, r3
  {
    [r0.At(), r1.At(), r2.At(), r3.At()]
  }

  ghost predicate AllBuffered(r0: Reader, r1: Reader, r2: Reader, r3: Reader, n: nat)
    reads r0, r1, r2, r3
  {
    r0.nbits >= n && r1.nbits >= n && r2.nbits >= n && r3.nbits >= n
  }

  /** The lanes stand where `done` has been decoded, on the way to `goal`. */
  ghost predicate Poised(r0: Reader, r1: Reader, r2: Reader, r3: Reader, d: DecTable, streams: seq<seq<bool>>, goal: Decoded,
                         done: seq<Byte>, n: nat)
    requires TableOkay(d)
    reads r0, r1, r2, r3
  {
    Lanes(r0, r1, r2, r3, streams) && goal == Outlook(d, streams, Ats(r0, r1, r2, r3), done, n)
  }

  /** One symbol from lane `k`, the next in turn. */
  method LaneSymbol(r0: Reader, r1: Reader, r2: Reader, r3: Reader, k: nat, d: DecTable, dst: array<Byte>, i: nat,
                    buffered: bool, ghost streams: seq<seq<bool>>, ghost goal: Decoded)
    returns (ok: bool)
    requires TableOkay(d) && k < 4 && i % 4 == k && i < dst.Length
    requires Poised(r0, r1, r2, r3, d, streams, goal, dst[..i], dst.Length)
    requires buffered ==> [r0, r1, r2, r3][k].nbits >= MAX_CODE_LEN
    modifies r0, r1, r2, r3, dst
    ensures ok ==> Poised(r0, r1, r2, r3, d, streams, goal, dst[..i + 1], dst.Length)
    ensures !ok ==> goal == Failed && Lanes(r0, r1, r2, r3, streams)
    ensures buffered ==> r0.nbits + (if k == 0 then MAX_CODE_LEN else 0) >= old(r0.nbits)
    ensures buffered ==> r1.nbits + (if k == 1 then MAX_CODE_LEN else 0) >= old(r1.nbits)
    ensures buffered ==> r2.nbits + (if k == 2 then MAX_CODE_LEN else 0) >= old(r2.nbits)
    ensures buffered ==> r3.nbits + (if k == 3 then MAX_CODE_LEN else 0) >= old(r3.nbits)
  {
    hide ByteBits, TableOkay, Outlook, Decode;
    var r := [r0, r1, r2, r3][k];
    ghost var ts := Ats(r0, r1, r2, r3);
    OutlookStep(d, streams, ts, dst[..i], dst.Length);
    ok := TakeSymbol(r, d, dst, i, buffered);
    assert Ats(r0, r1, r2, r3) == ts[k := r.At()];
  }

  /** One symbol from each lane. */
  method Round(r0: Reader, r1: Reader, r2: Reader, r3: Reader, d: DecTable, dst: array<Byte>, i: nat, buffered: bool,
               ghost streams: seq<seq<bool>>, ghost goal: Decoded, ghost left: nat)
    returns (ok: bool)
    requires TableOkay(d) && i % 4 == 0 && i + 4 <= dst.Length
    requires Poised(r0, r1, r2, r3, d, streams, goal, dst[..i], dst.Length)
    requires buffered ==> AllBuffered(r0, r1, r2, r3, left + MAX_CODE_LEN)
    modifies r0, r1, r2, r3, dst
    ensures ok ==> Poised(r0, r1, r2, r3, d, streams, goal, dst[..i + 4], dst.Length)
    ensures !ok ==> goal == Failed && Lanes(r0, r1, r2, r3, streams)
    ensures buffered && ok ==> AllBuffered(r0, r1, r2, r3, left)
  {
    hide TableOkay, Poised;
    ok := LaneSymbol(r0, r1, r2, r3, 0, d, dst, i, buffered, streams, goal);
    if ok {
      ok := LaneSymbol(r0, r1, r2, r3, 1, d, dst, i + 1, buffered, streams, goal);
    }
    if ok {
      ok := LaneSymbol(r0, r1, r2, r3, 2, d, dst, i + 2, buffered, streams, goal);
    }
    if ok {
      ok := LaneSymbol(r0, r1, r2, r3, 3, d, dst, i + 3, buffered, streams, goal);
    }
  }

  /** A bulk refill in every lane. Where eight bytes are left, at least 56 bits are then buffered. */
  method RefillAll(r0: Reader, r1: Reader, r2: Reader, r3: Reader, ghost d: DecTable, ghost streams: seq<seq<bool>>,
                   ghost goal: Decoded, ghost done: seq<Byte>, ghost n: nat)
    requires TableOkay(d) && Poised(r0, r1, r2, r3, d, streams, goal, done, n)
    modifies r0, r1, r2, r3
    ensures Poised(r0, r1, r2, r3, d, streams, goal, done, n)
    ensures old(EightLeft(r0, r1, r2, r3)) ==> AllBuffered(r0, r1, r2, r3, 56)
  {
    hide ByteBits, TableOkay, Outlook;
    r0.Refill();
    r1.Refill();
    r2.Refill();
    r3.Refill();
  }

  predicate EightLeft(r0: Reader, r1: Reader, r2: Reader, r3: Reader)
    reads r0, r1, r2, r3
  {
    r0.pos + 8 <= |r0.src| && r1.pos + 8 <= |r1.src| && r2.pos + 8 <= |r2.src| && r3.pos + 8 <= |r3.src|
  }

  /** Three rounds on 56 buffered bits: at most 45 are used. */
  method ThreeRounds(r0: Reader, r1: Reader, r2: Reader, r3: Reader, d: DecTable, dst: array<Byte>, i: nat,
                     ghost streams: seq<seq<bool>>, ghost goal: Decoded)
    returns (ok: bool)
    requires TableOkay(d) && i % 4 == 0 && i + 12 <= dst.Length
    requires Poised(r0, r1, r2, r3, d, streams, goal, dst[..i], dst.Length) && AllBuffered(r0, r1, r2, r3, 56)
    modifies r0, r1, r2, r3, dst
    ensures ok ==> Poised(r0, r1, r2, r3, d, streams, goal, dst[..i + 12], dst.Length)
    ensures !ok ==> goal == Failed && Lanes(r0, r1, r2, r3, streams)
  {
    hide TableOkay, Poised, AllBuffered;
    assert AllBuffered(r0, r1, r2, r3, 41 + MAX_CODE_LEN);
    ok := Round(r0, r1, r2, r3, d, dst, i, true, streams, goal, 41);
    if ok {
      assert AllBuffered(r0, r1, r2, r3, 26 + MAX_CODE_LEN);
      ok := Round(r0, r1, r2, r3, d, dst, i + 4, true, streams, goal, 26);
    }
    if ok {
      assert AllBuffered(r0, r1, r2, r3, 11 + MAX_CODE_LEN);
      ok := Round(r0, r1, r2, r3, d, dst, i + 8, true, streams, goal, 11);
    }
  }

  /** The last one to three symbols. */
  method Tail(r0: Reader, r1: Reader, r2: Reader, r3: Reader, d: DecTable, dst: array<Byte>, done: nat,
              ghost streams: seq<seq<bool>>, ghost goal: Decoded)
    returns (ok: bool)
    requires TableOkay(d) && done % 4 == 0 && done <= dst.Length < done + 4
    requires Poised(r0, r1, r2, r3, d, streams, goal, dst[..done], dst.Length)
    modifies r0, r1, r2, r3, dst
    ensures ok ==> Poised(r0, r1, r2, r3, d, streams, goal, dst[..dst.Length], dst.Length)
    ensures !ok ==> goal == Failed && Lanes(r0, r1, r2, r3, streams)
  {
    hide TableOkay, Poised;
    ok := true;
    if done < dst.Length {
      ok := LaneSymbol(r0, r1, r2, r3, 0, d, dst, done, false, streams, goal);
    }
    if ok && done + 1 < dst.Length {
      ok := LaneSymbol(r0, r1, r2, r3, 1, d, dst, done + 1, false, streams, goal);
    }
    if ok && done + 2 < dst.Length {
      ok := LaneSymbol(r0, r1, r2, r3, 2, d, dst, done + 2, false, streams, goal);
    }
  }

  /** `vvh_decode4`'s loops. While every lane has eight bytes left, one refill buffers at least 56
      bits and three symbols use at most 45, so three rounds run without refill or length check;
      the rest is checked symbol by symbol. On any streams the result is that of checking
      throughout. */
  method DecodeFourStreams(r0: Reader, r1: Reader, r2: Reader, r3: Reader, d: DecTable, n: nat,
                           ghost streams: seq<seq<bool>>)
    returns (ok: bool, dst: array<Byte>)
    requires Lanes(r0, r1, r2, r3, streams) && TableOkay(d)
    modifies r0, r1, r2, r3
    ensures fresh(dst) && dst.Length == n && Lanes(r0, r1, r2, r3, streams)
    ensures RoundRobin(d, streams, old(Ats(r0, r1, r2, r3)), 0, n) ==
            if ok then Out(dst[..], Ats(r0, r1, r2, r3)) else Failed
  {
    hide TableOkay, RoundRobin, Outlook, Poised, AllBuffered, EightLeft;
    dst := new Byte[n](_ => 0);
    ghost var goal := RoundRobin(d, streams, Ats(r0, r1, r2, r3), 0, n);
    PoisedStart(r0, r1, r2, r3, d, streams, n);
    assert dst[..0] == [];
    RefillAll(r0, r1, r2, r3, d, streams, goal, dst[..0], n);
    var quads, i: nat := n / 4, 0;
    while i + 3 <= quads && EightLeft(r0, r1, r2, r3)
      invariant i <= quads && Poised(r0, r1, r2, r3, d, streams, goal, dst[..4 * i], n)
    {
      RefillAll(r0, r1, r2, r3, d, streams, goal, dst[..4 * i], n);
      ok := ThreeRounds(r0, r1, r2, r3, d, dst, 4 * i, streams, goal);
      if !ok {
        return;
      }
      i := i + 3;
    }
    while i < quads
      invariant i <= quads && Poised(r0, r1, r2, r3, d, streams, goal, dst[..4 * i], n)
    {
      ok := Round(r0, r1, r2, r3, d, dst, 4 * i, false, streams, goal, 0);
      if !ok {
        return;
      }
      i := i + 1;
    }
    ok := Tail(r0, r1, r2, r3, d, dst, 4 * i, streams, goal);
    if ok {
      PoisedEnd(r0, r1, r2, r3, d, streams, goal, dst[..n], n);
      assert dst[..n] == dst[..];
    }
  }

  lemma PoisedStart(r0: Reader, r1: Reader, r2: Reader, r3: Reader, d: DecTable, streams: seq<seq<bool>>, n: nat)
    requires TableOkay(d) && Lanes(r0, r1, r2, r3, streams)
    ensures Poised(r0, r1, r2, r3, d, streams, RoundRobin(d, streams, Ats(r0, r1, r2, r3), 0, n), [], n)
  {
    hide TableOkay, RoundRobin, Outlook;
    OutlookStart(d, streams, Ats(r0, r1, r2, r3), n);
  }

  lemma PoisedEnd(r0: Reader, r1: Reader, r2: Reader, r3: Reader, d: DecTable, streams: seq<seq<bool>>, goal: Decoded,
                  done: seq<Byte>, n: nat)
    requires TableOkay(d) && Poised(r0, r1, r2, r3, d, streams, goal, done, n) && |done| == n
    ensures Lanes(r0, r1, r2, r3, streams) && goal == Out(done, Ats(r0, r1, r2, r3))
  {
    hide TableOkay, RoundRobin, Outlook;
    OutlookDone(d, streams, Ats(r0, r1, r2, r3), done, n);
  }
}
