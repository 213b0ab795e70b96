/** The greedy and lazy block parser (`compress_block`, src/vv_encoder.c:1446-1653). */
module GreedyParse {
  import opened Bits
  import opened Bytes
  import opened HashChains
  import LateMatch
  import opened Lz
  import opened MatchFinder
  import opened ParseLog
  import opened Tokens

  datatype Mode = UltraFast | Balanced | Extreme

  //////////////////////////////////////////////////////////////////////////////
  // What a parse has covered
  //////////////////////////////////////////////////////////////////////////////

  /** The sequences are matches a token can carry, and after the history `data[..start]` they
      denote the data up to `lit`. */
  ghost predicate Covers(data: seq<Byte>, start: nat, lit: nat, seqs: seq<Sequence>, wlog: nat, maxMatch: nat, minMatch: nat) {
    && start <= lit <= |data|
    && (forall i :: 0 <= i < |seqs| ==> Usable(seqs[i], wlog, maxMatch, minMatch))
    && Lz.Valid(data[..start], seqs, Window(wlog))
    && Denote(data[..start], seqs, Window(wlog)) == data[..lit]
  }

  ghost predicate Usable(s: Sequence, wlog: nat, maxMatch: nat, minMatch: nat) {
    minMatch <= s.matchLen <= maxMatch && 1 <= s.offset <= Window(wlog)
  }

  lemma CoversNothing(data: seq<Byte>, start: nat, wlog: nat, maxMatch: nat, minMatch: nat)
    requires start <= |data|
    ensures Covers(data, start, start, [], wlog, maxMatch, minMatch)
  {
  }

  /** A literal run and a match extend what is covered. */
  lemma CoversMatch(data: seq<Byte>, start: nat, lit: nat, seqs: seq<Sequence>, wlog: nat, maxMatch: nat, minMatch: nat,
                    at: nat, off: nat, len: nat, end: nat)
    requires Covers(data, start, lit, seqs, wlog, maxMatch, minMatch) && lit <= at
    requires MatchAt(data, at, off, len, end) && 0 < minMatch <= len <= maxMatch && off <= Window(wlog)
    ensures Covers(data, start, at + len, seqs + [Sequence(data[lit..at], len, off)], wlog, maxMatch, minMatch)
  {
    hide MatchAt, Copy, Lz.Valid, Denote, Window;
    MatchInside(data, at, off, len, end);
    var one := Sequence(data[lit..at], len, off);
    MatchCopies(data, at, off, len, end);
    DenoteAppend(data[..start], seqs, [one], Window(wlog));
    assert data[..lit] + data[lit..at] == data[..at];
    assert [one] + [] == [one];
    DenoteOne(data[..lit], one, [], Window(wlog));
    DenoteNone(data[..at + len], Window(wlog));
    assert Lz.Emit(data[..lit], one) == data[..at + len];
    assert Usable(one, wlog, maxMatch, minMatch);
  }

  lemma MatchInside(data: seq<Byte>, at: nat, off: nat, len: nat, end: nat)
    requires MatchAt(data, at, off, len, end)
    ensures 1 <= off <= at && at + len <= end <= |data|
  {
  }

  /** The whole parse: matches, then the last literals. */
  ghost function Closed(data: seq<Byte>, lit: nat, end: nat, seqs: seq<Sequence>): seq<Sequence>
    requires lit <= end <= |data|
  {
    seqs + [Sequence(data[lit..end], 0, 0)]
  }

  lemma WideOffsets(wlog: nat)
    requires 10 <= wlog <= 24
    ensures Window(wlog) < Pow2(8 * OffBytes(wlog))
  {
    Pow2Monotone(wlog, 8 * OffBytes(wlog));
  }

  lemma CoversAll(data: seq<Byte>, start: nat, lit: nat, end: nat, seqs: seq<Sequence>, wlog: nat, maxMatch: nat, minMatch: nat)
    requires Covers(data, start, lit, seqs, wlog, maxMatch, minMatch) && lit <= end <= |data| && minMatch > 0
    requires 10 <= wlog <= 24
    ensures var all := Closed(data, lit, end, seqs);
            && Emittable(all, OffBytes(wlog), minMatch)
            && Lz.Valid(data[..start], all, Window(wlog))
            && Denote(data[..start], all, Window(wlog)) == data[..end]
  {
    hide Copy, Lz.Valid, Denote, Window, Pow2;
    WideOffsets(wlog);
    var one := Sequence(data[lit..end], 0, 0);
    DenoteAppend(data[..start], seqs, [one], Window(wlog));
    assert data[..lit] + data[lit..end] == data[..end];
    assert [one] + [] == [one];
    DenoteOne(data[..lit], one, [], Window(wlog));
    DenoteNone(data[..end], Window(wlog));
  }

  /** Larger offset bounds accept the same sequences. */
  lemma {:induction false} WiderValid(out: seq<Byte>, seqs: seq<Sequence>, narrow: nat, wide: nat)
    requires Lz.Valid(out, seqs, narrow) && narrow <= wide
    ensures Lz.Valid(out, seqs, wide) && Denote(out, seqs, wide) == Denote(out, seqs, narrow)
    decreases |seqs|
  {
    hide Copy;
    if seqs != [] {
      WiderValid(Lz.Emit(out, seqs[0]), seqs[1..], narrow, wide);
    }
  }

  /** A finished token block: decoding it after the history gives exactly the block, and its
      parse has only lengths and offsets within the matcher's bounds. */
  ghost predicate Encodes(block: seq<Byte>, data: seq<Byte>, start: nat, end: nat, seqs: seq<Sequence>,
                          wlog: nat, maxMatch: nat, minMatch: nat) {
    && start <= end <= |data| && block != []
    && ParseTokens(block, 0, OffBytes(wlog), minMatch, true) == Parsed(seqs)
    && (forall i :: 0 <= i < |seqs| && seqs[i].matchLen > 0 ==> Usable(seqs[i], wlog, maxMatch, minMatch))
    && forall limit: nat, maxOffset: nat :: end <= limit && Window(wlog) <= maxOffset ==>
         DecodeTokens(block, 0, data[..start], limit, maxOffset, OffBytes(wlog), minMatch) == BlockOk(data[..end])
  }

  lemma EncodedBlockDecodes(block: seq<Byte>, data: seq<Byte>, start: nat, end: nat, seqs: seq<Sequence>,
                            wlog: nat, maxMatch: nat, minMatch: nat, limit: nat, maxOffset: nat)
    requires Encodes(block, data, start, end, seqs, wlog, maxMatch, minMatch) && end <= limit && Window(wlog) <= maxOffset
    ensures DecodeTokens(block, 0, data[..start], limit, maxOffset, OffBytes(wlog), minMatch) == BlockOk(data[..end])
  {
    hide Window, ParseTokens;
  }

  lemma BlockEncodes(data: seq<Byte>, start: nat, lit: nat, end: nat, seqs: seq<Sequence>, wlog: nat, maxMatch: nat, minMatch: nat)
    requires Covers(data, start, lit, seqs, wlog, maxMatch, minMatch) && lit <= end <= |data| && minMatch > 0 && 10 <= wlog <= 24
    ensures Encodes(TokenStream(Closed(data, lit, end, seqs), OffBytes(wlog), minMatch), data, start, end,
                    Closed(data, lit, end, seqs), wlog, maxMatch, minMatch)
  {
    hide Lz.Valid, Denote, Window, Pow2, DecodeTokens, ParseTokens, Emittable, TokenBytes;
    var offBytes := OffBytes(wlog);
    var all := Closed(data, lit, end, seqs);
    CoversAll(data, start, lit, end, seqs, wlog, maxMatch, minMatch);
    var block := TokenStream(all, offBytes, minMatch);
    assert block[0..|block|] == block;
    ParseEmitted(block, 0, all, offBytes, minMatch, true);
    StreamAppend(seqs, Sequence(data[lit..end], 0, 0), offBytes, minMatch);
    SomeBytes(Sequence(data[lit..end], 0, 0), offBytes, minMatch);
    forall limit: nat, maxOffset: nat | end <= limit && Window(wlog) <= maxOffset
      ensures DecodeTokens(block, 0, data[..start], limit, maxOffset, offBytes, minMatch) == BlockOk(data[..end])
    {
      WiderValid(data[..start], all, Window(wlog), maxOffset);
      DecodeEmitted(all, data[..start], limit, maxOffset, offBytes, minMatch);
    }
  }

  lemma SomeBytes(one: Sequence, offBytes: nat, minMatch: nat)
    ensures |TokenBytes(one, offBytes, minMatch)| > 0
  {
  }

  //////////////////////////////////////////////////////////////////////////////
  // Choosing a match
  //////////////////////////////////////////////////////////////////////////////

  /** A length and offset the parser may use at `at`. */
  ghost predicate Found(m: Matcher, data: seq<Byte>, at: nat, end: nat, len: nat, off: nat)
  {
    len > 0 ==>
      && len <= m.maxMatch && MatchAt(data, at, off, len, end) && off <= m.MaxDist()
      && (len > 3 ==> Full(data, at, off, len, end, m.maxMatch))
  }

  /** What the matcher and the mode make of the limits of a run. */
  ghost function LimitsOf(m: Matcher, mode: Mode, minMatch: nat, end: nat): Limits {
    Limits(m.chainDepth, m.chain.Length, m.MaxDist(), m.accel, mode == UltraFast, !m.noRep, minMatch, m.maxMatch, m.Stores(end))
  }

  /** The main chain, as the mode's finder walks it. */
  ghost function Walked(m: Matcher, data: seq<Byte>, pos: nat, end: nat): seq<nat>
    requires m.Valid() && pos + 4 <= end <= |data|
    reads m, m.table, m.chain
  {
    if m.singleProbe then m.Probed(data, pos, end) else m.MainChain(data, pos, end)
  }

  /** It has nothing of four bytes. */
  ghost predicate NoneWalked(m: Matcher, data: seq<Byte>, pos: nat, end: nat)
    requires m.Valid() && pos + 4 <= end <= |data|
    reads m, m.table, m.chain
  {
    forall ref :: ref in Walked(m, data, pos, end) ==> !SameBytes(data, pos, ref, 4)
  }

  /** The finder the mode uses. */
  method Probe(m: Matcher, data: seq<Byte>, pos: nat, end: nat) returns (len: nat, off: nat)
    requires m.Valid() && end <= |data|
    ensures Found(m, data, pos, end, len, off)
    ensures !m.singleProbe && m.chainDepth > 0 && m.Headed(data, pos, end) ==> len >= 4
    ensures pos + 4 <= end && len < 4 ==> NoneWalked(m, data, pos, end)
    ensures pos + 4 <= end && len < 256 ==> AllWorse(data, pos, Walked(m, data, pos, end), len, off, Most(pos, end, m.maxMatch))
  {
    hide MatchAt, AllWorse, BestOf, SameBytes, Window, Matcher.Headed, Matcher.MainChain, Matcher.Probed, Full;
    if m.singleProbe {
      len, off := m.SingleProbeMatch(data, pos, end);
      if pos + 4 <= end && len < 256 {
        ProbedBefore(m, data, pos, end);
        BestWorse(data, pos, m.Probed(data, pos, end), len, off, Most(pos, end, m.maxMatch));
      }
      if pos + 4 <= end && len < 4 {
        BestNone(data, pos, m.Probed(data, pos, end), len, Most(pos, end, m.maxMatch));
      }
    } else {
      len, off := m.ChainMatch(data, pos, end);
      if pos + 4 <= end && len < 4 {
        WorseNone(data, pos, m.MainChain(data, pos, end), len, off, Most(pos, end, m.maxMatch));
      }
    }
  }

  lemma ProbedBefore(m: Matcher, data: seq<Byte>, pos: nat, end: nat)
    requires m.Valid() && pos + 4 <= end <= |data|
    ensures forall k :: 0 <= k < |m.Probed(data, pos, end)| ==> m.Probed(data, pos, end)[k] <= pos
  {
    hide Visited, HashSafe, Window;
    VisitedBefore(m.chain[..], m.table[HashSafe(data, pos, end)], if m.compact then 0xFFFF else -1, m.chainDepth,
                  if pos <= m.MaxDist() then 0 else pos - m.MaxDist(), pos);
  }

  /** A repeat match if it is long enough, unless the chains offer a longer one. `rep` tells a
      repeat match. */
  method FirstChoice(m: Matcher, data: seq<Byte>, pos: nat, end: nat, minMatch: nat) returns (len: nat, off: nat, rep: bool)
    requires m.Valid() && pos + 4 <= end <= |data|
    ensures Found(m, data, pos, end, len, off)
    ensures !m.singleProbe && m.chainDepth > 0 && m.Headed(data, pos, end) ==> len >= 4
    ensures len < minMatch <= 4 ==> NoneWalked(m, data, pos, end) && (m.noRep || m.NoRepeat(data, pos, 4))
    ensures 0 < len < 256 && off != m.rep.r0 && off != m.rep.r1 && off != m.rep.r2 ==>
              AllWorse(data, pos, Walked(m, data, pos, end), len, off, Most(pos, end, m.maxMatch))
  {
    hide MatchAt, Window, Matcher.Headed, NoneWalked, Matcher.NoRepeat, AllWorse, Walked, Longest;
    len, off, rep := 0, 0, false;
    if !m.noRep {
      var repLen, idx := m.TryRepMatch(data, pos, end);
      rep := repLen > 0;
      if repLen >= minMatch {
        len, off := repLen, m.RepAt(idx);
      }
    }
    if len < 8 {
      var chainLen, chainOff := Probe(m, data, pos, end);
      if chainLen > len {
        len, off, rep := chainLen, chainOff, false;
      }
    }
  }

  /** Then there is nothing near. */
  lemma NothingHere(m: Matcher, data: seq<Byte>, end: nat, mode: Mode, minMatch: nat, k: Mark)
    requires m.Valid() && k.pos + 4 <= end <= |data| && k.rep == m.rep && (m.Stores(end) ==> m.Keeps(data, end, k.ins, k.pos))
    requires NoneWalked(m, data, k.pos, end) && (m.noRep || m.NoRepeat(data, k.pos, 4))
    ensures Nothing(data, end, LimitsOf(m, mode, minMatch, end), k)
  {
    hide Matcher.MainChain, Matcher.Probed, Near, Window, Matcher.Stores;
    if m.Stores(end) {
      m.NearMain(data, end, k.pos, k.ins);
    }
    assert !m.noRep ==> !m.Repeats(data, k.pos, 0, 4) && !m.Repeats(data, k.pos, 1, 4) && !m.Repeats(data, k.pos, 2, 4);
  }

  lemma UnbeatenHere(m: Matcher, data: seq<Byte>, end: nat, mode: Mode, minMatch: nat, k: Mark, len: nat, off: nat)
    requires m.Valid() && k.pos + 4 <= end <= |data| && k.rep == m.rep && (m.Stores(end) ==> m.Keeps(data, end, k.ins, k.pos))
    requires len < 256 && off != m.rep.r0 && off != m.rep.r1 && off != m.rep.r2 ==>
               AllWorse(data, k.pos, Walked(m, data, k.pos, end), len, off, Most(k.pos, end, m.maxMatch))
    ensures Unbeaten(data, end, LimitsOf(m, mode, minMatch, end), k, len, off)
  {
    hide Matcher.MainChain, Matcher.Probed, Near, Window, Matcher.Stores, AllWorse;
    if m.Stores(end) && len < 256 && off != m.rep.r0 && off != m.rep.r1 && off != m.rep.r2 {
      m.NearMain(data, end, k.pos, k.ins);
      AllWorsePrefix(data, k.pos, Walked(m, data, k.pos, end), Near(data, end, k.pos, m.chainDepth, m.chain.Length, m.MaxDist(), k.ins),
                     len, off, Most(k.pos, end, m.maxMatch));
    }
  }

  /** Is a match at the next position cheaper per byte than this one? */
  predicate Cheaper(mode: Mode, len: nat, off: nat, rep: bool, nextLen: nat, nextOff: nat, nextRep: bool) {
    var cost := if mode == Extreme then 14 else 18;
    var bits := if rep then 2 else cost + Log2OrZero(off);
    var nextBits := if nextRep then 2 else cost + Log2OrZero(nextOff);
    (6 + nextBits) * len < bits * (nextLen + 1)
  }

  /** The longer of what the chains and the repeat offsets offer at the position behind. */
  method NextChoice(m: Matcher, data: seq<Byte>, pos: nat, end: nat) returns (len: nat, off: nat, rep: bool)
    requires m.Valid() && !m.compact && pos + 4 <= end <= |data|
    ensures Found(m, data, pos, end, len, off)
  {
    hide MatchAt, Window, Matcher.Headed, Matcher.NoRepeat, AllWorse, Longest, Matcher.MainChain, Matcher.ShortChain;
    len, off := m.ChainMatch(data, pos, end);
    rep := false;
    if !m.noRep {
      var repLen, idx := m.TryRepMatch(data, pos, end);
      rep := repLen > 0;
      if repLen > len {
        len, off := repLen, m.RepAt(idx);
      }
    }
  }

  /** The match taken near `pos`: at `pos`, or, when a short match there loses to the one after
      it, at `pos + 1`. */
  method ChooseMatch(m: Matcher, data: seq<Byte>, pos: nat, end: nat, mode: Mode, minMatch: nat, ghost k: Mark)
    returns (at: nat, len: nat, off: nat, inserted: bool)
    requires m.Valid() && minMatch >= 3 && pos + minMatch < end <= |data| && (m.compact ==> mode == UltraFast)
    requires k.pos == pos && k.rep == m.rep && (m.Stores(end) ==> m.Keeps(data, end, k.ins, pos))
    modifies m.Tables()
    ensures Found(m, data, at, end, len, off) && pos <= at <= pos + 1
    ensures len < minMatch ==> at == pos && !inserted
    ensures !m.singleProbe && m.chainDepth > 0 && minMatch <= 4 && old(m.Headed(data, pos, end)) ==> len >= minMatch
    ensures len < minMatch <= 4 ==> Nothing(data, end, LimitsOf(m, mode, minMatch, end), k)
    ensures inserted ==> at == pos && pos + 5 <= end
    ensures len > 0 && at == pos ==> Unbeaten(data, end, LimitsOf(m, mode, minMatch, end), k, len, off)
    ensures m.Stores(end) ==> m.Keeps(data, end, if inserted || at > pos then k.ins + [pos] else k.ins, if inserted || at > pos then pos + 1 else pos)
  {
    hide MatchAt, Window, Cheaper, Matcher.Headed, Matcher.Keeps, NoneWalked, Matcher.NoRepeat, Nothing, Matcher.Stores, Unbeaten,
      AllWorse, Walked, Found;
    var rep;
    at, inserted := pos, false;
    len, off, rep := FirstChoice(m, data, pos, end, minMatch);
    if len < minMatch <= 4 {
      NothingHere(m, data, end, mode, minMatch, k);
    }
    if len > 0 {
      UnbeatenHere(m, data, end, mode, minMatch, k, len, off);
    }
    if mode != UltraFast && minMatch <= len < 8 && pos + 1 + minMatch < end {
      m.Insert(data, pos, end, k.ins);
      inserted := true;
      var nextLen, nextOff, nextRep := NextChoice(m, data, pos + 1, end);
      if nextLen >= minMatch && Cheaper(mode, len, off, rep, nextLen, nextOff, nextRep) {
        at, len, off, inserted := pos + 1, nextLen, nextOff, false;
      }
    }
  }

  /** After a match: all its positions if it is short, its two ends if it is long. */
  method InsertMatch(m: Matcher, data: seq<Byte>, pos: nat, len: nat, inserted: bool, end: nat, ghost t: Turn)
    requires m.Valid() && end <= |data| && t.at == pos && t.len == len > 0 && t.mark.pos <= pos && (inserted ==> t.mark.pos == pos && pos + 5 <= end)
    requires var early := inserted || pos > t.mark.pos;
             m.Stores(end) ==> m.Keeps(data, end, if early then t.mark.ins + [t.mark.pos] else t.mark.ins, if inserted then pos + 1 else pos)
    modifies m.Tables()
    ensures m.Stores(end) ==> m.Keeps(data, end, t.mark.ins + ParseLog.Inserted(end, t), pos + len)
  {
    hide Matcher.Keeps, Range, Matcher.Stores;
    ghost var early := if inserted || pos > t.mark.pos then t.mark.ins + [t.mark.pos] else t.mark.ins;
    var first := if inserted then pos + 1 else pos;
    InsertedParts(end, t, inserted);
    if len >= 16 {
      m.InsertRange(data, first, pos + 3, end, early);
      ghost var some := early + Range(first, Clip(pos + 3, end));
      KeepsOn(m, data, end, some, pos + 3, pos + len - 3);
      m.InsertRange(data, pos + len - 3, pos + len, end, some);
    } else {
      KeepsOn(m, data, end, early, first, first);
      m.InsertRange(data, first, pos + len, end, early);
    }
  }

  lemma KeepsOn(m: Matcher, data: seq<Byte>, end: nat, ins: seq<nat>, lim: nat, later: nat)
    requires m.Valid() && end <= |data| && lim <= later && (m.Stores(end) ==> m.Keeps(data, end, ins, lim))
    ensures m.Stores(end) ==> m.Keeps(data, end, ins, later)
  {
    if m.Stores(end) {
      ChainedLater(Hashes(data, end), m.table[..], m.chain[..], ins, lim, later);
    }
  }

  /** The insertions of a match, in the order they are made. */
  lemma InsertedParts(end: nat, t: Turn, inserted: bool)
    requires t.len > 0 && t.mark.pos <= t.at && (inserted ==> t.mark.pos == t.at && t.at + 5 <= end)
    ensures var early := if inserted || t.at > t.mark.pos then t.mark.ins + [t.mark.pos] else t.mark.ins;
            var first := if inserted then t.at + 1 else t.at;
            t.mark.ins + ParseLog.Inserted(end, t) ==
            if t.len >= 16 then early + Range(first, Clip(t.at + 3, end)) + Range(t.at + t.len - 3, Clip(t.at + t.len, end))
            else early + Range(first, Clip(t.at + t.len, end))
  {
    hide Range;
    if inserted {
      RangeFirst(t.at, Clip(if t.len >= 16 then t.at + 3 else t.at + t.len, end));
    }
  }

  lemma {:induction false} RangeFirst(from: nat, stop: int)
    requires from < stop
    ensures Range(from, stop) == [from] + Range(from + 1, stop)
  {
    if from + 1 < stop {
      RangeFirst(from, stop - 1);
    }
  }

  //////////////////////////////////////////////////////////////////////////////
  // The parser
  //////////////////////////////////////////////////////////////////////////////

  /** The parser walks chains, in small steps, and has room for a block of this size that does not shrink. */
  ghost predicate Prompt(m: Matcher, mode: Mode, minMatch: nat, size: nat, room: nat) {
    && mode != UltraFast && minMatch == 4 && m.Chains()
    && size <= 0x2_0000 && LateMatch.Room(size, 0) + 512 <= room
  }

  /** Then a block that ends in a run after nothing repeated is not given up, and its first match is in the run. */
  ghost predicate Keeps(m: Matcher, data: seq<Byte>, start: nat, end: nat, mode: Mode, minMatch: nat, room: nat, n: nat,
                        seqs: seq<Sequence>) {
    start <= end && Prompt(m, mode, minMatch, end - start, room) && LateMatch.Ends(data, start, end) ==>
      0 < n <= LateMatch.Room(end - start, 0) + 200 && LateMatch.CaughtLate(data, start, end, seqs)
  }

  lemma Kept(m: Matcher, data: seq<Byte>, start: nat, end: nat, mode: Mode, minMatch: nat, room: nat, n: nat,
             seqs: seq<Sequence>, p: nat)
    requires LateMatch.Ending(data, start, end, p) && LateMatch.Late(start, p, seqs) && 0 < n <= LateMatch.Room(end - start, 0) + 200
    ensures Keeps(m, data, start, end, mode, minMatch, room, n, seqs)
  {
    hide LateMatch.Ending, LateMatch.Late;
  }

  /** Nothing is inserted in place of a position passed over. */
  method Pass(m: Matcher, data: seq<Byte>, start: nat, end: nat, mode: Mode, pos: nat, failures: nat, inserted: bool, seen: bool,
              ghost p: nat, ghost seqs: seq<Sequence>, ghost late: bool, ghost l: Limits, ghost k: Mark)
    returns (next: nat, tries: nat, stop: bool)
    requires m.Valid() && start <= pos && pos + 4 <= end <= |data| && !inserted
    requires k.pos == pos && k.tries == failures && k.rep == m.rep && (m.Stores(end) ==> m.Keeps(data, end, k.ins, pos))
    requires l.accel == m.accel && l.far == (mode == UltraFast)
    requires late ==> mode != UltraFast && !m.compact && !inserted && end - start <= 0x2_0000
    requires late ==> LateMatch.Ending(data, start, end, p) && (seqs == [] ==> pos < p + 8)
    requires seen <==> seqs != []
    modifies m.Tables()
    ensures pos < next && (m.accel == 0 ==> !stop)
    ensures stop ==> next >= start + 0x2_0000 && (mode == UltraFast || next <= pos + 8)
    ensures late ==> !stop
    ensures late && seqs == [] ==> LateMatch.Waiting(m, data, end, p, next)
    ensures ParseLog.After(end, l, Turn(k, pos, 0, 0)) == Mark(next, tries, m.rep, k.ins + [pos])
    ensures m.Stores(end) ==> m.Keeps(data, end, k.ins + [pos], next)
    ensures stop == (m.accel > 0 && !seen && next - start >= 0x2_0000)
  {
    hide HashSafe, Matcher.Stores, Matcher.Keeps;
    next, tries, stop := pos + 1, failures, false;
    if !inserted {
      m.Insert(data, pos, end, k.ins);
    }
    if m.accel > 0 {
      var step := 1 + failures * m.accel / 64;
      if mode != UltraFast && step > 8 {
        step := 8;
      }
      next, tries := pos + step, failures + 1;
      stop := !seen && next - start >= 0x2_0000;
    }
    if late && seqs == [] {
      LateMatch.StaysWaiting(m, data, start, end, p, pos, next);
    }
    KeepsOn(m, data, end, k.ins + [pos], pos + 1, next);
  }

  /** The token of a match, if there is room, and the insertion of its positions. */
  method TakeMatch(m: Matcher, data: seq<Byte>, start: nat, lit: nat, dst: array<Byte>, op: nat, at: nat, len: nat, off: nat,
                   inserted: bool, end: nat, minMatch: nat, ghost seqs: seq<Sequence>, ghost p: nat, ghost late: bool, ghost t: Turn)
    returns (ok: bool, next: nat)
    requires m.Valid() && minMatch >= 3 && end <= |data| && dst !in m.Tables() && start <= lit <= at
    requires t.at == at && t.len == len && t.off == off && t.mark.pos <= at && t.mark.rep == m.rep
    requires inserted ==> t.mark.pos == at && at + 5 <= end
    requires var early := inserted || at > t.mark.pos;
             m.Stores(end) ==> m.Keeps(data, end, if early then t.mark.ins + [t.mark.pos] else t.mark.ins, if inserted then at + 1 else at)
    requires Found(m, data, at, end, len, off) && len >= minMatch && op <= dst.Length && op <= Roomy(lit - start)
    requires Covers(data, start, lit, seqs, m.wlog, m.maxMatch, minMatch)
    requires dst[..op] == TokenStream(seqs, OffBytes(m.wlog), minMatch)
    requires late ==> minMatch == 4 && LateMatch.Ending(data, start, end, p) && LateMatch.Going(start, end, p, seqs, op, lit)
    requires late ==> LateMatch.Room(end - start, 0) + 512 <= dst.Length
    modifies m, m.Tables(), dst
    ensures m.Valid() && at + len <= end && (!ok ==> !late && dst.Length < Roomy(end - start) + 2)
    ensures ok == (op + NeededMatch(at - lit, len) <= dst.Length)
    ensures ok ==> m.rep == PushRep(old(m.rep), off)
    ensures ok && m.Stores(end) ==> m.Keeps(data, end, t.mark.ins + ParseLog.Inserted(end, t), at + len)
    ensures ok ==> next <= dst.Length && next <= Roomy(at + len - start)
    ensures var all := seqs + [Sequence(data[lit..at], len, off)];
            ok ==>
              && Covers(data, start, at + len, all, m.wlog, m.maxMatch, minMatch)
              && dst[..next] == TokenStream(all, OffBytes(m.wlog), minMatch)
              && (late ==> LateMatch.Going(start, end, p, all, next, at + len))
  {
    hide TokenBytes, NeededMatch, NeededRun, Window, Pow2, MatchAt, Roomy, Covers, TokenStream, LateMatch.Ending, LateMatch.Going,
      LateMatch.Room, Matcher.Keeps, Matcher.Stores, ParseLog.Inserted;
    MatchInside(data, at, off, len, end);
    ghost var one := Sequence(data[lit..at], len, off);
    TokenRoomy(one, OffBytes(m.wlog), minMatch, op, lit - start);
    RoomyGrows(at + len - start, end - start);
    CoversMatch(data, start, lit, seqs, m.wlog, m.maxMatch, minMatch, at, off, len, end);
    if late {
      LateMatch.TracksMatch(data, start, end, p, seqs, op, lit, at, off, len);
    }
    if op + NeededMatch(at - lit, len) > dst.Length {
      return false, op;
    }
    WideOffsets(m.wlog);
    StreamAppend(seqs, one, OffBytes(m.wlog), minMatch);
    next := EmitSeq(dst, op, data[lit..at], len, off, OffBytes(m.wlog), minMatch);
    if late {
      LateMatch.GoingLess(start, end, p, seqs + [one], op + NeededMatch(at - lit, len), at + len, next);
    }
    InsertMatch(m, data, at, len, inserted, end, t);
    ghost var ins := t.mark.ins + ParseLog.Inserted(end, t);
    m.UpdateRep(off);
    assert m.Stores(end) ==> m.Keeps(data, end, ins, at + len);
    ok := true;
  }

  /** Writes the final literals. */
  method LastToken(dst: array<Byte>, op: nat, lits: seq<Byte>, offBytes: nat, minMatch: nat, ghost seqs: seq<Sequence>)
    returns (next: nat)
    requires minMatch >= 3 && 2 <= offBytes <= 3 && op + NeededRun(|lits|) <= dst.Length
    requires dst[..op] == TokenStream(seqs, offBytes, minMatch)
    modifies dst
    ensures 0 < next <= dst.Length && next <= op + NeededRun(|lits|)
    ensures dst[..next] == TokenStream(seqs + [Sequence(lits, 0, 0)], offBytes, minMatch)
  {
    hide TokenBytes, TokenStream, NeededRun;
    SomeBytes(Sequence(lits, 0, 0), offBytes, minMatch);
    StreamAppend(seqs, Sequence(lits, 0, 0), offBytes, minMatch);
    next := EmitSeq(dst, op, lits, 0, 0, offBytes, minMatch);
  }

  /** Why nothing is returned: there was no room for a match the parser had chosen, or for the last literals; or 128 KB
      were skipped through without a match. */
  ghost predicate GaveUp(data: seq<Byte>, start: nat, end: nat, l: Limits, wlog: nat, room: nat, turns: seq<Turn>)
    requires start <= end <= |data|
  {
    if turns != [] && turns[|turns| - 1].len > 0 && TooLong(data, start, l, wlog, room, turns) then true
    else if l.accel > 0 && Bails(start, end, l, turns) then true
    else
      var lit := LitStart(start, turns);
      lit <= end && |TokenStream(Sequences(data, start, turns), OffBytes(wlog), l.minMatch)| + NeededRun(end - lit) > room
  }

  /** There was no room for the last match. */
  ghost predicate TooLong(data: seq<Byte>, start: nat, l: Limits, wlog: nat, room: nat, turns: seq<Turn>)
    requires turns != []
  {
    var before, t := turns[..|turns| - 1], turns[|turns| - 1];
    var lit := LitStart(start, before);
    lit <= t.at && |TokenStream(Sequences(data, start, before), OffBytes(wlog), l.minMatch)| + NeededMatch(t.at - lit, t.len) > room
  }

  /** The last turn leads 128 KB into the block, and there was no match. */
  ghost predicate Bails(start: nat, end: nat, l: Limits, turns: seq<Turn>) {
    && turns != [] && (forall k :: 0 <= k < |turns| ==> turns[k].len == 0)
    && ParseLog.After(end, l, turns[|turns| - 1]).pos >= start + 0x2_0000
  }

  /** A run over the whole block: from its start until fewer bytes are left than a match takes. */
  ghost predicate Whole(data: seq<Byte>, end: nat, l: Limits, first: Mark, turns: seq<Turn>, seqs: seq<Sequence>) {
    && first.pos <= end <= |data| && Here(end, l, first, turns).pos + l.minMatch >= end
    && LitStart(first.pos, turns) <= end
    && seqs == Closed(data, LitStart(first.pos, turns), end, Sequences(data, first.pos, turns))
  }

  /** The turns so far, where they lead, and what they make. */
  ghost predicate Tracked(data: seq<Byte>, end: nat, l: Limits, first: Mark, turns: seq<Turn>, k: Mark, seqs: seq<Sequence>, lit: nat) {
    && Log(data, end, l, first, turns) && Here(end, l, first, turns) == k
    && Sequences(data, first.pos, turns) == seqs && LitStart(first.pos, turns) == lit
    && (seqs == [] ==> forall i :: 0 <= i < |turns| ==> turns[i].len == 0)
  }

  lemma TrackedNothing(data: seq<Byte>, end: nat, l: Limits, first: Mark)
    ensures Tracked(data, end, l, first, [], first, [], first.pos)
  {
    NoTurns(data, end, l, first);
  }

  lemma TrackedNext(data: seq<Byte>, end: nat, l: Limits, first: Mark, turns: seq<Turn>, seqs: seq<Sequence>, lit: nat, t: Turn)
    requires Tracked(data, end, l, first, turns, t.mark, seqs, lit) && TurnOkay(data, end, l, t) && lit <= t.at <= |data|
    ensures t.len == 0 ==> Tracked(data, end, l, first, turns + [t], ParseLog.After(end, l, t), seqs, lit)
    ensures t.len > 0 ==>
              Tracked(data, end, l, first, turns + [t], ParseLog.After(end, l, t), seqs + [Sequence(data[lit..t.at], t.len, t.off)], t.at + t.len)
  {
    hide TurnOkay, After, Log, Here, LitStart, Sequences;
    OneMore(data, end, l, first, turns, t);
  }

  /** No room for the match chosen. */
  lemma TrackedTooLong(data: seq<Byte>, end: nat, l: Limits, first: Mark, turns: seq<Turn>, seqs: seq<Sequence>, lit: nat, t: Turn,
                       wlog: nat, room: nat)
    requires Tracked(data, end, l, first, turns, t.mark, seqs, lit) && t.len > 0 && lit <= t.at && first.pos <= end <= |data|
    requires |TokenStream(seqs, OffBytes(wlog), l.minMatch)| + NeededMatch(t.at - lit, t.len) > room
    ensures GaveUp(data, first.pos, end, l, wlog, room, turns + [t])
  {
    hide TokenStream, NeededMatch, LitStart, Sequences;
    assert (turns + [t])[..|turns|] == turns;
  }

  /** Skipped through. */
  lemma TrackedBails(data: seq<Byte>, end: nat, l: Limits, first: Mark, turns: seq<Turn>, t: Turn, lit: nat, wlog: nat, room: nat)
    requires Tracked(data, end, l, first, turns, t.mark, [], lit) && t.len == 0 && l.accel > 0 && first.pos <= end <= |data|
    requires ParseLog.After(end, l, t).pos >= first.pos + 0x2_0000
    ensures GaveUp(data, first.pos, end, l, wlog, room, turns + [t])
  {
    hide After;
  }

  /** No room for the last literals. */
  lemma TrackedFull(data: seq<Byte>, end: nat, l: Limits, first: Mark, turns: seq<Turn>, k: Mark, seqs: seq<Sequence>, lit: nat, wlog: nat, room: nat)
    requires Tracked(data, end, l, first, turns, k, seqs, lit) && first.pos <= end <= |data| && lit <= end
    requires |TokenStream(seqs, OffBytes(wlog), l.minMatch)| + NeededRun(end - lit) > room
    ensures GaveUp(data, first.pos, end, l, wlog, room, turns)
  {
    hide TokenStream, NeededRun, LitStart, Sequences;
  }

  lemma TrackedWhole(data: seq<Byte>, end: nat, l: Limits, first: Mark, turns: seq<Turn>, k: Mark, seqs: seq<Sequence>, lit: nat)
    requires Tracked(data, end, l, first, turns, k, seqs, lit) && first.pos <= end <= |data| && lit <= end && k.pos + l.minMatch >= end
    ensures Whole(data, end, l, first, turns, Closed(data, lit, end, seqs))
  {
    hide LitStart, Sequences, Here;
  }

  lemma TrackedLog(data: seq<Byte>, end: nat, l: Limits, first: Mark, turns: seq<Turn>, k: Mark, seqs: seq<Sequence>, lit: nat)
    requires Tracked(data, end, l, first, turns, k, seqs, lit)
    ensures Log(data, end, l, first, turns)
  {
  }

  /** The last literals, and the whole block. */
  method FinishBlock(m: Matcher, data: seq<Byte>, start: nat, end: nat, dst: array<Byte>, mode: Mode, minMatch: nat, op: nat, pos: nat,
                     lit: nat, ghost seqs: seq<Sequence>, ghost p: nat, ghost late: bool)
    returns (n: nat)
    requires m.Valid() && minMatch >= 3 && start <= lit <= end <= |data| && lit <= pos && end <= pos + minMatch && op <= dst.Length
    requires Covers(data, start, lit, seqs, m.wlog, m.maxMatch, minMatch) && dst[..op] == TokenStream(seqs, OffBytes(m.wlog), minMatch)
    requires op <= Roomy(lit - start)
    requires late ==> minMatch == 4 && LateMatch.Ending(data, start, end, p) && LateMatch.Going(start, end, p, seqs, op, lit)
    requires late && seqs == [] ==> LateMatch.Waiting(m, data, end, p, pos)
    requires late ==> LateMatch.Room(end - start, 0) + 512 <= dst.Length
    modifies dst
    ensures n <= dst.Length && (n == 0 <==> op + NeededRun(end - lit) > dst.Length)
    ensures var all := Closed(data, lit, end, seqs);
            n > 0 ==> Encodes(dst[..n], data, start, end, all, m.wlog, m.maxMatch, minMatch) && dst[..n] == TokenStream(all, OffBytes(m.wlog), minMatch)
    ensures late ==> Keeps(m, data, start, end, mode, minMatch, dst.Length, n, Closed(data, lit, end, seqs))
    ensures Roomy(end - start) + 2 <= dst.Length ==> n > 0
  {
    hide Roomy, Window, Covers, TokenStream, TokenBytes, Encodes, Pow2, NeededRun, HashSafe, LateMatch.Ending, LateMatch.Waiting,
      LateMatch.Going, LateMatch.Late, LateMatch.Room;
    if late {
      if seqs == [] {
        LateMatch.NotFar(m, data, end, p, pos);
      }
      LateMatch.TracksEnd(data, start, end, p, seqs, op, pos, lit);
    }
    RunRoomy(op, lit - start, end - start);
    if op + NeededRun(end - lit) > dst.Length {
      return 0;
    }
    WideOffsets(m.wlog);
    n := LastToken(dst, op, data[lit..end], OffBytes(m.wlog), minMatch, seqs);
    BlockEncodes(data, start, lit, end, seqs, m.wlog, m.maxMatch, minMatch);
    if late {
      LateMatch.LateClosed(start, p, seqs, Sequence(data[lit..end], 0, 0));
      Kept(m, data, start, end, mode, minMatch, dst.Length, n, Closed(data, lit, end, seqs), p);
    }
  }

  /** How far the parser has come: what it has written for, and the state of its tables. */
  ghost predicate Running(m: Matcher, data: seq<Byte>, start: nat, end: nat, minMatch: nat, tokens: seq<Byte>, seqs: seq<Sequence>,
                          pos: nat, lit: nat, k: Mark)
    requires m.Shaped() && end <= |data|
    reads m, m.table, m.chain
  {
    && m.Valid() && start <= lit <= pos && lit <= end
    && Covers(data, start, lit, seqs, m.wlog, m.maxMatch, minMatch)
    && tokens == TokenStream(seqs, OffBytes(m.wlog), minMatch) && |tokens| <= Roomy(lit - start)
    && k.pos == pos && k.rep == m.rep && (m.Stores(end) ==> m.Keeps(data, end, k.ins, pos))
  }

  lemma RunningStarts(m: Matcher, data: seq<Byte>, start: nat, end: nat, minMatch: nat)
    requires m.Valid() && start <= end <= |data|
    ensures Running(m, data, start, end, minMatch, [], [], start, start, Mark(start, 0, m.rep, []))
  {
    hide Covers, TokenStream, Roomy;
    CoversNothing(data, start, m.wlog, m.maxMatch, minMatch);
    NoTokens(OffBytes(m.wlog), minMatch);
    KeepsNothing(m, data, end, start);
  }

  /** A turn: a match taken, if there is room, or a position passed over. */
  method TakeTurn(m: Matcher, data: seq<Byte>, start: nat, end: nat, dst: array<Byte>, mode: Mode, minMatch: nat, op: nat, pos: nat,
                  lit: nat, failures: nat, seen: bool, ghost seqs: seq<Sequence>, ghost p: nat, ghost late: bool, ghost k: Mark)
    returns (ok: bool, now: nat, next: nat, rest: nat, tries: nat, more: bool, ghost t: Turn)
    requires m.Valid() && minMatch >= 3 && start <= end <= |data| && (m.compact ==> mode == UltraFast) && dst !in m.Tables()
    requires pos + minMatch < end && op <= dst.Length && k.tries == failures && (seen <==> seqs != [])
    requires Running(m, data, start, end, minMatch, dst[..op], seqs, pos, lit, k)
    requires late ==> Prompt(m, mode, minMatch, end - start, dst.Length) && LateMatch.Ending(data, start, end, p)
    requires late ==> LateMatch.Going(start, end, p, seqs, op, lit)
    requires late && seqs == [] ==> LateMatch.Waiting(m, data, end, p, pos)
    modifies m, m.Tables(), dst
    ensures m.Valid() && t.mark == k && lit <= t.at <= |data| && TurnOkay(data, end, LimitsOf(m, mode, minMatch, end), t) && (more <==> t.len > 0)
    ensures !ok ==> if more then op + NeededMatch(t.at - lit, t.len) > dst.Length && dst.Length < Roomy(end - start) + 2
                    else m.accel > 0 && !seen && ParseLog.After(end, LimitsOf(m, mode, minMatch, end), t).pos >= start + 0x2_0000
    ensures !ok ==> !late && (!more && mode != UltraFast ==> start + 0x2_0000 < end + 8)
    ensures ok ==> pos < next && now <= dst.Length && ParseLog.After(end, LimitsOf(m, mode, minMatch, end), t).tries == tries
    ensures ok ==>
              && rest == (if more then t.at + t.len else lit)
              && var all := if more then seqs + [Sequence(data[lit..t.at], t.len, t.off)] else seqs;
                 && Running(m, data, start, end, minMatch, dst[..now], all, next, rest, ParseLog.After(end, LimitsOf(m, mode, minMatch, end), t))
                 && (late ==> LateMatch.Going(start, end, p, all, now, rest))
                 && (late && all == [] ==> LateMatch.Waiting(m, data, end, p, next))
  {
    hide Roomy, Window, Covers, TokenStream, TokenBytes, MatchAt, Pow2, NeededMatch, Matcher.Headed, HashSafe, LateMatch.Ending,
      LateMatch.Waiting, LateMatch.Going, LateMatch.Late, LateMatch.Room, Matcher.Keeps, Matcher.Stores, ParseLog.Inserted, Nothing, TurnOkay, Unbeaten, Longest;
    if late && seqs == [] && pos >= p + 8 {
      LateMatch.Catches(m, data, start, end, p, pos);
    }
    now, rest, tries := op, lit, failures;
    var at, len, off, inserted := ChooseMatch(m, data, pos, end, mode, minMatch, k);
    more := len >= minMatch;
    t := if more then Turn(k, at, len, off) else Turn(k, pos, 0, 0);
    MatchFound(m, data, end, mode, minMatch, t);
    if more {
      ok, now := TakeMatch(m, data, start, lit, dst, op, at, len, off, inserted, end, minMatch, seqs, p, late, t);
      next, rest, tries := at + len, at + len, 0;
    } else {
      var stop;
      next, tries, stop := Pass(m, data, start, end, mode, pos, failures, inserted, seen, p, seqs, late,
                                LimitsOf(m, mode, minMatch, end), k);
      ok := !stop;
    }
  }

  /** `compress_block`. A nonzero result is the size of a token block that decodes, after the
      history, to exactly the block. The tables may hold anything. `seqs` is the parse, and `turns` is how it came about:
      what the turns took, and no turn passed over a position that had anything to take. The result is 0 only where the
      run gave up, which needs less room than half as much again as the block, or 128 KB skipped through without a match. */
  method CompressBlock(m: Matcher, data: seq<Byte>, start: nat, end: nat, dst: array<Byte>, mode: Mode, minMatch: nat)
    returns (n: nat, ghost seqs: seq<Sequence>, ghost turns: seq<Turn>)
    requires m.Valid() && minMatch >= 3 && start <= end <= |data| && (m.compact ==> mode == UltraFast)
    requires dst !in m.Tables()
    modifies m, m.Tables(), dst
    ensures m.Valid() && n <= dst.Length
    ensures n > 0 ==> Encodes(dst[..n], data, start, end, seqs, m.wlog, m.maxMatch, minMatch)
    ensures n > 0 ==> dst[..n] == TokenStream(seqs, OffBytes(m.wlog), minMatch)
    ensures Log(data, end, LimitsOf(m, mode, minMatch, end), Mark(start, 0, old(m.rep), []), turns)
    ensures n > 0 ==> Whole(data, end, LimitsOf(m, mode, minMatch, end), Mark(start, 0, old(m.rep), []), turns, seqs)
    ensures n == 0 ==> GaveUp(data, start, end, LimitsOf(m, mode, minMatch, end), m.wlog, dst.Length, turns)
    ensures Keeps(m, data, start, end, mode, minMatch, dst.Length, n, seqs)
    ensures Roomy(end - start) + 2 <= dst.Length && (m.accel == 0 || (mode != UltraFast && end - start + 8 <= 0x2_0000)) ==> n > 0
  {
    hide Running, LateMatch.Ending, LateMatch.Waiting, LateMatch.Going, LateMatch.Late, LateMatch.Room, Log, After, TurnOkay, Tracked,
      GaveUp, Whole, Encodes, TokenStream, NeededMatch, NeededRun, Roomy, Pow2, Window, HashSafe;
    var op: nat, pos: nat, lit: nat := 0, start, start;
    var failures: nat, seen := 0, false;
    seqs, turns := [], [];
    ghost var late := Prompt(m, mode, minMatch, end - start, dst.Length) && LateMatch.Ends(data, start, end);
    ghost var p: nat := 0;
    if late {
      p :| LateMatch.Ending(data, start, end, p);
      LateMatch.StartsWaiting(m, data, start, end, p);
    }
    RunningStarts(m, data, start, end, minMatch);
    ghost var l, k := LimitsOf(m, mode, minMatch, end), Mark(start, 0, m.rep, []);
    ghost var first := k;
    TrackedNothing(data, end, l, first);
    assert dst[..0] == [];
    while pos + minMatch < end
      invariant m.Valid() && op <= dst.Length && k.tries == failures && (seen <==> seqs != [])
      invariant Running(m, data, start, end, minMatch, dst[..op], seqs, pos, lit, k)
      invariant late ==> LateMatch.Going(start, end, p, seqs, op, lit)
      invariant late && seqs == [] ==> LateMatch.Waiting(m, data, end, p, pos)
      invariant Tracked(data, end, l, first, turns, k, seqs, lit)
      decreases end - pos
    {
      RunningTokens(m, data, start, end, minMatch, dst[..op], seqs, pos, lit, k);
      ghost var before := op;
      var ok, rest, more;
      ghost var t;
      ok, op, pos, rest, failures, more, t := TakeTurn(m, data, start, end, dst, mode, minMatch, op, pos, lit, failures, seen, seqs, p, late, k);
      TrackedNext(data, end, l, first, turns, seqs, lit, t);
      ghost var all := if more then seqs + [Sequence(data[lit..t.at], t.len, t.off)] else seqs;
      if !ok {
        if more {
          TrackedTooLong(data, end, l, first, turns, seqs, lit, t, m.wlog, dst.Length);
        } else {
          TrackedBails(data, end, l, first, turns, t, lit, m.wlog, dst.Length);
        }
        TrackedLog(data, end, l, first, turns + [t], ParseLog.After(end, l, t), all, if more then t.at + t.len else lit);
        return 0, seqs, turns + [t];
      }
      seqs, turns, k := all, turns + [t], ParseLog.After(end, l, t);
      lit, seen := rest, seen || more;
    }
    TrackedLog(data, end, l, first, turns, k, seqs, lit);
    RunningTokens(m, data, start, end, minMatch, dst[..op], seqs, pos, lit, k);
    n := FinishBlock(m, data, start, end, dst, mode, minMatch, op, pos, lit, seqs, p, late);
    if n == 0 {
      TrackedFull(data, end, l, first, turns, k, seqs, lit, m.wlog, dst.Length);
    } else {
      TrackedWhole(data, end, l, first, turns, k, seqs, lit);
      seqs := Closed(data, lit, end, seqs);
    }
  }

  lemma RunningTokens(m: Matcher, data: seq<Byte>, start: nat, end: nat, minMatch: nat, tokens: seq<Byte>, seqs: seq<Sequence>,
                      pos: nat, lit: nat, k: Mark)
    requires m.Shaped() && end <= |data| && Running(m, data, start, end, minMatch, tokens, seqs, pos, lit, k)
    ensures tokens == TokenStream(seqs, OffBytes(m.wlog), minMatch) && |tokens| <= Roomy(lit - start) && k.pos == pos
    ensures start <= lit <= pos && lit <= end && Covers(data, start, lit, seqs, m.wlog, m.maxMatch, minMatch)
  {
  }

  /** What a turn took is a match within bounds. */
  lemma MatchFound(m: Matcher, data: seq<Byte>, end: nat, mode: Mode, minMatch: nat, t: Turn)
    requires m.Valid() && minMatch >= 3 && t.mark.pos + minMatch < end <= |data| && t.mark.pos <= t.at <= t.mark.pos + 1
    requires t.len > 0 ==> t.len >= minMatch && Found(m, data, t.at, end, t.len, t.off)
    requires t.len > 0 && t.at == t.mark.pos ==> Unbeaten(data, end, LimitsOf(m, mode, minMatch, end), t.mark, t.len, t.off)
    requires t.len == 0 ==> t.at == t.mark.pos && (minMatch <= 4 ==> Nothing(data, end, LimitsOf(m, mode, minMatch, end), t.mark))
    ensures TurnOkay(data, end, LimitsOf(m, mode, minMatch, end), t)
    ensures t.len > 0 ==> t.at + t.len <= end
  {
    hide Nothing, Window, Matcher.Stores, SameBytes, Unbeaten, Longest;
  }

  lemma KeepsNothing(m: Matcher, data: seq<Byte>, end: nat, lim: nat)
    requires m.Valid() && end <= |data|
    ensures m.Keeps(data, end, [], lim)
  {
    ChainedNothing(Hashes(data, end), m.table[..], m.chain[..], lim);
  }

  lemma AfterMatch(end: nat, l: Limits, t: Turn)
    requires t.len > 0
    ensures ParseLog.After(end, l, t) == Mark(t.at + t.len, 0, PushRep(t.mark.rep, t.off), t.mark.ins + ParseLog.Inserted(end, t))
  {
  }
}
