/** Blocks whose first match comes late: no four bytes occur twice before a run of equal bytes at the end. The
    lazy parser of src/vv_encoder.c:1446-1693 takes everything before the run as literals, and cannot miss
    the run. */
module LateMatch {
  import opened Bytes
  import opened Lz
  import opened MatchFinder
  import opened Tokens

  const RUN_LEAST: nat := 40
  const RUN_MOST: nat := 128

  ghost function Gram(data: seq<Byte>, i: nat): seq<Byte>
    requires i + 4 <= |data|
  {
    data[i..i + 4]
  }

  /** The bytes from `p` to the end are equal, and no four bytes before them have occurred earlier. */
  ghost predicate Ending(data: seq<Byte>, start: nat, end: nat, p: nat) {
    && start <= p && p + RUN_LEAST <= end <= p + RUN_MOST && end <= |data|
    && (forall i :: p <= i < end ==> data[i] == data[p])
    && forall at, ref :: start <= at < p && 0 <= ref < at ==> Gram(data, at) != Gram(data, ref)
  }

  /** The same without some of the bytes before `start`. */
  lemma EndingLess(data: seq<Byte>, start: nat, end: nat, p: nat, drop: nat)
    requires Ending(data, start, end, p) && drop <= start
    ensures Ending(data[drop..], start - drop, end - drop, p - drop)
  {
    var less := data[drop..];
    forall at, ref | start - drop <= at < p - drop && 0 <= ref < at
      ensures Gram(less, at) != Gram(less, ref)
    {
      assert Gram(less, at) == Gram(data, at + drop) && Gram(less, ref) == Gram(data, ref + drop);
    }
    assert forall i :: p - drop <= i < end - drop ==> less[i] == data[i + drop];
    assert less[p - drop] == data[p];
  }

  ghost predicate Ends(data: seq<Byte>, start: nat, end: nat) {
    exists p :: Ending(data, start, end, p)
  }

  /** The first match is in the run. */
  ghost predicate CaughtLate(data: seq<Byte>, start: nat, end: nat, seqs: seq<Sequence>) {
    exists p :: Ending(data, start, end, p) && Late(start, p, seqs)
  }

  /** So no match starts before the run. */
  lemma NoneBefore(data: seq<Byte>, start: nat, end: nat, p: nat, at: nat, off: nat, len: nat)
    requires Ending(data, start, end, p) && start <= at && len >= 4 && MatchAt(data, at, off, len, end)
    ensures at >= p
  {
    var ref := at - off;
    assert data[at..at + len][..4] == Gram(data, at);
    assert data[ref..ref + len][..4] == Gram(data, ref);
  }

  /** A position of the run, at most eight before `pos`, heads its bucket. */
  ghost predicate Primed(m: Matcher, data: seq<Byte>, end: nat, p: nat, pos: nat)
    requires m.Valid() && end <= |data|
    reads m, m.table
  {
    exists q: nat :: p <= q < pos <= q + 8 && q + 4 <= end && m.table[HashSafe(data, q, end)] == q
  }

  /** Inside the run the head of the bucket is then a match. */
  lemma PrimedHeads(m: Matcher, data: seq<Byte>, start: nat, end: nat, p: nat, pos: nat)
    requires m.Valid() && Ending(data, start, end, p) && p <= pos && pos + 5 <= end && Primed(m, data, end, p, pos)
    ensures m.Headed(data, pos, end)
  {
    hide LittleEndian;
    var q: nat :| p <= q < pos <= q + 8 && q + 4 <= end && m.table[HashSafe(data, q, end)] == q;
    assert data[q..q + 5] == data[pos..pos + 5];
    EqualValues(data, q, pos, 5);
    assert HashSafe(data, q, end) == Hash5(data, q) == Hash5(data, pos) == HashSafe(data, pos, end);
    assert data[q..q + 4] == data[pos..pos + 4];
    WideWindow(m.wlog);
  }

  lemma WideWindow(wlog: nat)
    requires 10 <= wlog
    ensures Window(wlog) >= 8
  {
    Bits.Pow2Monotone(4, wlog);
    assert Bits.Pow2(4) == 16;
  }

  /** Room for tokens that take `n` bytes of the block, `k` of them matches. */
  function Room(n: nat, k: nat): nat {
    n + n / 255 + 4 * k
  }

  lemma RoomFor(n: nat, k: nat, ll: nat, ml: nat)
    requires ml >= 4
    ensures Room(n, k) + NeededMatch(ll, ml) <= Room(n + ll + ml, k + 1)
  {
    assert n / 255 + ll / 255 <= (n + ll) / 255;
    assert (n + ll) / 255 <= (n + ll + ml) / 255;
  }

  lemma RoomLast(n: nat, k: nat, ll: nat)
    ensures Room(n, k) + NeededRun(ll) <= Room(n + ll, k) + 3
  {
  }

  /** Before the first match: not beyond the start of the run, or just primed in it. */
  ghost predicate Waiting(m: Matcher, data: seq<Byte>, end: nat, p: nat, pos: nat)
    requires m.Valid() && end <= |data|
    reads m, m.table
  {
    pos < p + 16 && (pos < p + 8 || Primed(m, data, end, p, pos))
  }

  /** The tokens so far: none, or the first match is in the run and they take no more room than they need. */
  ghost predicate Going(start: nat, end: nat, p: nat, seqs: seq<Sequence>, op: nat, lit: nat) {
    if seqs == [] then lit == start && op == 0
    else Late(start, p, seqs) && p + 4 * |seqs| <= lit <= end && op <= Room(lit - start, |seqs|)
  }

  /** The first match is behind everything before the run. */
  ghost predicate Late(start: nat, p: nat, seqs: seq<Sequence>) {
    start <= p && seqs != [] && seqs[0].matchLen > 0 && |seqs[0].lits| >= p - start
  }

  lemma StartsWaiting(m: Matcher, data: seq<Byte>, start: nat, end: nat, p: nat)
    requires m.Valid() && Ending(data, start, end, p)
    ensures Waiting(m, data, end, p, start) && Going(start, end, p, [], 0, start)
  {
  }

  lemma GoingLess(start: nat, end: nat, p: nat, seqs: seq<Sequence>, op: nat, lit: nat, less: nat)
    requires Going(start, end, p, seqs, op, lit) && less <= op && seqs != []
    ensures Going(start, end, p, seqs, less, lit)
  {
  }

  lemma NotFar(m: Matcher, data: seq<Byte>, end: nat, p: nat, pos: nat)
    requires m.Valid() && end <= |data| && Waiting(m, data, end, p, pos)
    ensures pos < p + 16
  {
  }

  /** A primed position in the run is not passed over. */
  lemma Catches(m: Matcher, data: seq<Byte>, start: nat, end: nat, p: nat, pos: nat)
    requires m.Valid() && Ending(data, start, end, p) && Waiting(m, data, end, p, pos)
    requires p + 8 <= pos && pos + 5 <= end
    ensures m.Headed(data, pos, end)
  {
    PrimedHeads(m, data, start, end, p, pos);
  }

  /** A position that heads its bucket is followed by one at most eight further on. */
  lemma StaysWaiting(m: Matcher, data: seq<Byte>, start: nat, end: nat, p: nat, pos: nat, next: nat)
    requires m.Valid() && Ending(data, start, end, p) && pos < next <= pos + 8
    requires pos < p + 8 && pos + 4 <= end && m.table[HashSafe(data, pos, end)] == pos
    ensures Waiting(m, data, end, p, next)
  {
  }

  lemma RoomGrows(n: nat, k: nat, total: nat)
    requires n <= total
    ensures Room(n, k) <= Room(total, 0) + 4 * k
  {
  }

  lemma LateStarts(data: seq<Byte>, start: nat, p: nat, seqs: seq<Sequence>, lit: nat, at: nat, len: nat, off: nat)
    requires lit <= at <= |data| && len > 0 && p <= at && start <= p
    requires if seqs == [] then lit == start else Late(start, p, seqs)
    ensures Late(start, p, seqs + [Sequence(data[lit..at], len, off)])
  {
    assert (seqs + [Sequence(data[lit..at], len, off)])[0] == if seqs == [] then Sequence(data[lit..at], len, off) else seqs[0];
  }

  /** A match found is on track, and there is room for it. */
  lemma TracksMatch(data: seq<Byte>, start: nat, end: nat, p: nat, seqs: seq<Sequence>, op: nat, lit: nat, at: nat, off: nat, len: nat)
    requires Ending(data, start, end, p) && Going(start, end, p, seqs, op, lit)
    requires start <= lit <= at && len >= 4 && MatchAt(data, at, off, len, end)
    ensures at + len <= end && op + NeededMatch(at - lit, len) <= Room(end - start, 0) + 512
    ensures var one := Sequence(data[lit..at], len, off);
            Going(start, end, p, seqs + [one], op + NeededMatch(at - lit, len), at + len)
  {
    hide NeededMatch, MatchAt, Room, Late;
    MatchEnds(data, at, off, len, end);
    NoneBefore(data, start, end, p, at, off, len);
    LateStarts(data, start, p, seqs, lit, at, len, off);
    NoRoomYet();
    RoomFor(lit - start, |seqs|, at - lit, len);
    RoomGrows(at + len - start, |seqs| + 1, end - start);
  }

  lemma NoRoomYet()
    ensures Room(0, 0) == 0
  {
  }

  lemma LateClosed(start: nat, p: nat, seqs: seq<Sequence>, one: Sequence)
    requires Late(start, p, seqs)
    ensures Late(start, p, seqs + [one])
  {
  }

  lemma MatchEnds(data: seq<Byte>, at: nat, off: nat, len: nat, end: nat)
    requires MatchAt(data, at, off, len, end)
    ensures at + len <= end <= |data|
  {
  }

  /** What is left fits as well, and the whole is little longer than the block. */
  lemma TracksEnd(data: seq<Byte>, start: nat, end: nat, p: nat, seqs: seq<Sequence>, op: nat, pos: nat, lit: nat)
    requires Ending(data, start, end, p) && Going(start, end, p, seqs, op, lit)
    requires pos + 4 >= end && lit <= end && (seqs == [] ==> pos < p + 16)
    ensures Late(start, p, seqs) && op + NeededRun(end - lit) <= Room(end - start, 0) + 200
  {
    hide NeededRun;
    assert seqs != [];
    RoomLast(lit - start, |seqs|, end - lit);
  }
}
