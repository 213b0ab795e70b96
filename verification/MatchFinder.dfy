/** Match finding (src/vv_encoder.c:102-210, 262-300, 445-905): hash tables and chains suggest
    positions, and every suggestion is checked against the bytes, so that what is found is a match
    whatever the tables hold. */
module MatchFinder {
  import Bits
  import opened Bytes
  import opened HashChains
  import opened Lz
  import opened SeqCodes

  const HC_SIZE: nat := 0x4_0000
  const HC4_SIZE: nat := 0x1_0000
  const HC3_SIZE: nat := 0x4000

  /** `n` bytes at `a` equal the `n` bytes at `b`. */
  ghost predicate SameBytes(data: seq<Byte>, a: nat, b: nat, n: nat) {
    a + n <= |data| && b + n <= |data| && data[a..a + n] == data[b..b + n]
  }

  /** A match of `len` bytes at `pos`, `off` back, ending by `end`. */
  ghost predicate MatchAt(data: seq<Byte>, pos: nat, off: nat, len: nat, end: nat) {
    1 <= off <= pos && pos + len <= end <= |data| && SameBytes(data, pos, pos - off, len)
  }

  lemma SameJoin(data: seq<Byte>, a: nat, b: nat, m: nat, n: nat)
    requires SameBytes(data, a, b, m) && SameBytes(data, a + m, b + m, n)
    ensures SameBytes(data, a, b, m + n)
  {
    assert data[a..a + m + n] == data[a..a + m] + data[a + m..a + m + n];
    assert data[b..b + m + n] == data[b..b + m] + data[b + m..b + m + n];
  }

  /** A match is what the decoder's copy makes of it. */
  lemma MatchCopies(data: seq<Byte>, pos: nat, off: nat, len: nat, end: nat)
    requires MatchAt(data, pos, off, len, end)
    ensures Copy(data[..pos], off, len) == data[..pos + len]
  {
    var r := data[..pos + len];
    forall k | pos <= k < pos + len
      ensures r[k] == r[k - off]
    {
      assert data[k] == data[pos..pos + len][k - pos];
      assert data[k - off] == data[pos - off..pos - off + len][k - pos];
    }
    CopyUnique(data[..pos], off, len, r);
  }

  //////////////////////////////////////////////////////////////////////////////
  // Hashes
  //////////////////////////////////////////////////////////////////////////////

  function Hash5(data: seq<Byte>, p: nat): (h: nat)
    requires p + 5 <= |data|
    ensures h < HC_SIZE
  {
    LittleEndian(data, p, 5) * 889523592379 % 0x1_0000_0000_0000_0000 / 0x4000_0000_0000
  }

  function Hash4(data: seq<Byte>, p: nat): (h: nat)
    requires p + 4 <= |data|
    ensures h < HC_SIZE
  {
    LittleEndian(data, p, 4) * 2654435761 % 0x1_0000_0000 / 0x4000
  }

  function HashSafe(data: seq<Byte>, p: nat, end: nat): (h: nat)
    requires p + 4 <= end <= |data|
    ensures h < HC_SIZE
  {
    if end - p >= 5 then Hash5(data, p) else Hash4(data, p)
  }

  function Hash4Short(data: seq<Byte>, p: nat): (h: nat)
    requires p + 4 <= |data|
    ensures h < HC4_SIZE
  {
    LittleEndian(data, p, 4) * 2654435761 % 0x1_0000_0000 / 0x1_0000
  }

  function Hash3Short(data: seq<Byte>, p: nat): (h: nat)
    requires p + 3 <= |data|
    ensures h < HC3_SIZE
  {
    LittleEndian(data, p, 3) * 2654435761 % 0x1_0000_0000 / 0x4_0000
  }

  function Log2OrZero(v: nat): nat {
    if v == 0 then 0 else FloorLog2(v)
  }

  //////////////////////////////////////////////////////////////////////////////
  // Extending a match
  //////////////////////////////////////////////////////////////////////////////

  /** Compares eight bytes; if they differ, finds the lowest byte in which they do. */
  method CompareWord(data: seq<Byte>, a: nat, b: nat) returns (k: nat)
    requires a + 8 <= |data| && b + 8 <= |data|
    ensures k <= 8 && SameBytes(data, a, b, k)
    ensures k < 8 ==> data[a + k] != data[b + k]
  {
    if data[a..a + 8] == data[b..b + 8] {
      return 8;
    }
    hide SameBytes;
    k := 0;
    SameNone(data, a, b);
    while k < 8 && data[a + k] == data[b + k]
      invariant k <= 8 && SameBytes(data, a, b, k)
    {
      SameOne(data, a + k, b + k);
      SameJoin(data, a, b, k, 1);
      k := k + 1;
    }
  }

  /** The length of the longest common prefix, at most `maxLen`: eight bytes at a time, then one. */
  method ExtendMatch(data: seq<Byte>, a: nat, b: nat, maxLen: nat) returns (len: nat)
    requires a + maxLen <= |data| && b + maxLen <= |data|
    ensures len <= maxLen && SameBytes(data, a, b, len)
    ensures len < maxLen ==> data[a + len] != data[b + len]
  {
    hide SameBytes;
    len := 0;
    SameNone(data, a, b);
    while len + 8 <= maxLen
      invariant len <= maxLen && SameBytes(data, a, b, len)
    {
      var k := CompareWord(data, a + len, b + len);
      SameJoin(data, a, b, len, k);
      len := len + k;
      if k < 8 {
        return;
      }
    }
    len := ExtendBytes(data, a, b, len, maxLen);
  }

  /** The rest, one byte at a time. */
  method ExtendBytes(data: seq<Byte>, a: nat, b: nat, have: nat, maxLen: nat) returns (len: nat)
    requires a + maxLen <= |data| && b + maxLen <= |data| && have <= maxLen && SameBytes(data, a, b, have)
    ensures len <= maxLen && SameBytes(data, a, b, len)
    ensures len < maxLen ==> data[a + len] != data[b + len]
  {
    hide SameBytes;
    len := have;
    while len < maxLen && data[a + len] == data[b + len]
      invariant len <= maxLen && SameBytes(data, a, b, len)
    {
      SameOne(data, a + len, b + len);
      SameJoin(data, a, b, len, 1);
      len := len + 1;
    }
  }

  lemma SameNone(data: seq<Byte>, a: nat, b: nat)
    requires a <= |data| && b <= |data|
    ensures SameBytes(data, a, b, 0)
  {
  }

  lemma SameOne(data: seq<Byte>, a: nat, b: nat)
    requires a < |data| && b < |data| && data[a] == data[b]
    ensures SameBytes(data, a, b, 1)
  {
  }

  /** `len` bytes are as far as a match against `ref` goes. */
  ghost predicate Longest(data: seq<Byte>, pos: nat, ref: nat, len: nat, end: nat, maxMatch: nat) {
    len < maxMatch && pos + len < end <= |data| && ref <= pos ==> data[pos + len] != data[ref + len]
  }

  /** A match goes as far as the bytes agree. */
  ghost predicate Full(data: seq<Byte>, pos: nat, off: nat, len: nat, end: nat, maxMatch: nat) {
    off <= pos && Longest(data, pos, pos - off, len, end, maxMatch)
  }

  /** `ref` shares more than `len` bytes, at least `least` and at most `most`. */
  ghost predicate Beaten(data: seq<Byte>, pos: nat, ref: nat, len: nat, least: nat, most: nat) {
    var n := if len + 1 > least then len + 1 else least;
    n <= most && SameBytes(data, pos, ref, n)
  }

  /** No position of a chain shares more. */
  ghost predicate BestOf(data: seq<Byte>, pos: nat, refs: seq<nat>, len: nat, least: nat, most: nat) {
    forall k :: 0 <= k < |refs| ==> !Beaten(data, pos, refs[k], len, least, most)
  }

  function Most(pos: nat, end: nat, maxMatch: nat): nat
    requires pos <= end
  {
    if end - pos > maxMatch then maxMatch else end - pos
  }

  /** A match against `ref` is not longer, or costs more than it gains at six bits a byte. */
  ghost predicate Worse(data: seq<Byte>, pos: nat, ref: nat, len: nat, off: nat, most: nat)
    requires ref <= pos
  {
    forall n: nat :: 4 <= n <= most && n > len && SameBytes(data, pos, ref, n) ==>
      len >= 4 && (n - len) * 6 < Log2OrZero(pos - ref) - Log2OrZero(off)
  }

  /** The match `off` back is one with a position of the chain. */
  ghost predicate OnChain(refs: seq<nat>, pos: nat, off: nat) {
    off <= pos && pos - off in refs
  }

  ghost predicate AllWorse(data: seq<Byte>, pos: nat, refs: seq<nat>, len: nat, off: nat, most: nat) {
    forall k :: 0 <= k < |refs| ==> refs[k] <= pos && Worse(data, pos, refs[k], len, off, most)
  }

  lemma BestLonger(data: seq<Byte>, pos: nat, refs: seq<nat>, len: nat, longer: nat, least: nat, most: nat)
    requires BestOf(data, pos, refs, len, least, most) && len <= longer
    ensures BestOf(data, pos, refs, longer, least, most)
  {
    forall k | 0 <= k < |refs|
      ensures !Beaten(data, pos, refs[k], longer, least, most)
    {
      assert !Beaten(data, pos, refs[k], len, least, most);
      if Beaten(data, pos, refs[k], longer, least, most) {
        SamePrefix(data, pos, refs[k], if longer + 1 > least then longer + 1 else least, if len + 1 > least then len + 1 else least);
      }
    }
  }

  lemma SamePrefix(data: seq<Byte>, a: nat, b: nat, n: nat, k: nat)
    requires SameBytes(data, a, b, n) && k <= n
    ensures SameBytes(data, a, b, k)
  {
    assert data[a..a + k] == data[a..a + n][..k] && data[b..b + k] == data[b..b + n][..k];
  }

  /** A position compared at one place where a longer match would agree does not share more. */
  lemma Unequal(data: seq<Byte>, pos: nat, ref: nat, len: nat, least: nat, best: nat, k: nat, most: nat)
    requires ref < pos <= |data| && best + 1 == (if len + 1 > least then len + 1 else least) && most <= |data| - pos
    requires best >= most || (k <= best && pos + k < |data| && data[ref + k] != data[pos + k])
    ensures !Beaten(data, pos, ref, len, least, most)
  {
    if best < most {
      Differ(data, pos, ref, k, best + 1);
    }
  }

  lemma AsFarAsItGoes(data: seq<Byte>, pos: nat, ref: nat, len: nat, least: nat, most: nat)
    requires ref < pos && pos + most <= |data| && least <= len <= most && (len < most ==> data[ref + len] != data[pos + len])
    ensures !Beaten(data, pos, ref, len, least, most)
  {
    if len < most {
      Differ(data, pos, ref, len, len + 1);
    }
  }

  /** One more position, which does not share more. */
  lemma BestNext(data: seq<Byte>, pos: nat, refs: seq<nat>, len: nat, longer: nat, least: nat, most: nat, ref: nat)
    requires BestOf(data, pos, refs, len, least, most) && len <= longer && !Beaten(data, pos, ref, longer, least, most)
    ensures BestOf(data, pos, refs + [ref], longer, least, most)
  {
    hide Beaten;
    BestLonger(data, pos, refs, len, longer, least, most);
  }

  lemma SameAt(data: seq<Byte>, a: nat, b: nat, n: nat, k: nat)
    requires SameBytes(data, a, b, n)
    ensures k < n ==> data[a + k] == data[b + k]
  {
    if k < n {
      assert data[a..a + n][k] == data[a + k] && data[b..b + n][k] == data[b + k];
    }
  }

  lemma Differ(data: seq<Byte>, a: nat, b: nat, k: nat, n: nat)
    requires k < n && a + n <= |data| && b + n <= |data| && data[a + k] != data[b + k]
    ensures !SameBytes(data, a, b, n)
  {
    assert data[a..a + n][k] == data[a + k] && data[b..b + n][k] == data[b + k];
  }

  /** The match at `pos` against `ref`, both already known to share `have` bytes. */
  method MatchLength(data: seq<Byte>, pos: nat, ref: nat, have: nat, end: nat, maxMatch: nat) returns (len: nat)
    requires ref < pos && have <= maxMatch && pos + have <= end <= |data| && SameBytes(data, pos, ref, have)
    ensures have <= len <= maxMatch && MatchAt(data, pos, pos - ref, len, end)
    ensures Longest(data, pos, ref, len, end, maxMatch)
  {
    var max := if end - pos > maxMatch then maxMatch else end - pos;
    var more := ExtendMatch(data, pos + have, ref + have, max - have);
    SameJoin(data, pos, ref, have, more);
    len := have + more;
  }

  //////////////////////////////////////////////////////////////////////////////
  // The matcher
  //////////////////////////////////////////////////////////////////////////////

  /** Links position `pos` in front of its bucket. */
  method Link(table: array<int>, chain: array<int>, h: nat, pos: nat)
    requires table != chain && h < table.Length && chain.Length > 0
    modifies table, chain
    ensures table[..] == old(table[..])[h := pos]
    ensures chain[..] == old(chain[..])[pos % chain.Length := old(table[h])]
  {
    chain[pos % chain.Length] := table[h];
    table[h] := pos;
  }

  /** The hashes of all positions with four bytes left. */
  ghost function Hashes(data: seq<Byte>, end: nat): (hs: seq<nat>)
    requires end <= |data|
    ensures |hs| == if end < 4 then 0 else end - 3
    ensures forall p :: 0 <= p < |hs| ==> hs[p] == HashSafe(data, p, end)
  {
    seq(if end < 4 then 0 else end - 3, (p: nat) requires p + 4 <= end => HashSafe(data, p, end))
  }

  /** The positions inserted last with the hash of `pos`: as many as a chain is walked for, in the window, and not longer
      ago than its ring of links holds. */
  ghost function Near(data: seq<Byte>, end: nat, pos: nat, depth: nat, ring: nat, window: nat, ins: seq<nat>): seq<nat>
    requires pos + 4 <= end <= |data| && InOrder(Hashes(data, end), ins, pos)
  {
    var reach := if ring < window then ring else window;
    Recent(Hashes(data, end), ins, |ins|, HashSafe(data, pos, end), depth, if pos <= reach then 0 else pos - reach)
  }

  /** A walk meets them. */
  lemma NearWalked(data: seq<Byte>, end: nat, ht: seq<int>, ch: seq<int>, ins: seq<nat>, pos: nat, none: int, depth: nat, window: nat)
    requires pos + 4 <= end <= |data| && Chained(Hashes(data, end), ht, ch, ins, pos) && |ht| == HC_SIZE
    requires forall k :: 0 <= k < |ins| ==> ins[k] != none
    ensures InOrder(Hashes(data, end), ins, pos)
    ensures Near(data, end, pos, depth, |ch|, window, ins) <=
            Visited(ch, ht[HashSafe(data, pos, end)], none, depth, if pos <= window then 0 else pos - window, pos)
  {
    hide Recent, Visited, HashSafe, Links;
    var hs, h := Hashes(data, end), HashSafe(data, pos, end);
    var reach := if |ch| < window then |ch| else window;
    assert Heads(hs, ht, ins, h);
    RecentVisited(hs, ht, ch, ins, pos, |ins|, h, ht[h], none, depth, if pos <= window then 0 else pos - window,
                  if pos <= reach then 0 else pos - reach, pos);
  }

  /** The positions `from..stop`. */
  ghost function Range(from: nat, stop: int): (r: seq<nat>)
    ensures forall k :: k in r <==> from <= k < stop
  {
    if stop <= from then [] else Range(from, stop - 1) + [stop - 1]
  }

  lemma RangeNone(from: nat)
    ensures Range(from, from) == []
  {
  }

  lemma RangeNext(from: nat, j: nat)
    requires from <= j
    ensures Range(from, j + 1) == Range(from, j) + [j]
  {
  }

  lemma RangeStops(start: nat, end: nat, most: nat, j: nat)
    requires start <= j <= end && (j == end || j >= most) && (j > start ==> j <= most)
    ensures Range(start, if end <= most then end else most) == Range(start, j)
  {
    if j == start {
      RangeNone(start);
    }
  }

  lemma RangeEmpty(from: nat, stop: nat, end: nat, j: nat)
    requires from <= j && (j >= stop || j + 5 > end) && (j <= stop || j == from) && (j > from ==> j + 4 <= end)
    ensures Range(from, if stop + 4 <= end then stop else end - 4) == Range(from, j)
  {
    if j == from {
      RangeNone(from);
    }
  }

  class Matcher {
    const table: array<int>
    const chain: array<int>
    const table4: array<int>
    const chain4: array<int>
    const table3: array<int>
    const chain3: array<int>
    /** The tables hold 16-bit positions, 0xFFFF for none. */
    const compact: bool
    const wlog: nat
    const chainDepth: nat
    const maxMatch: nat
    const accel: nat
    const noRep: bool
    const useHash4: bool
    const useHash3: bool
    const singleProbe: bool
    var rep: Rep

    constructor (table: array<int>, chain: array<int>, table4: array<int>, chain4: array<int>, table3: array<int>,
                 chain3: array<int>, compact: bool, wlog: nat, chainDepth: nat, maxMatch: nat, accel: nat, noRep: bool,
                 useHash4: bool, useHash3: bool, singleProbe: bool)
      requires table.Length == HC_SIZE && table4.Length == HC4_SIZE && table3.Length == HC3_SIZE
      requires chain.Length > 0 && chain4.Length > 0 && chain3.Length > 0
      requires table != chain && table4 != chain4 && table3 != chain3 && table != chain4 && table != chain3
      requires chain != table4 && chain != chain4 && chain != table3 && chain != chain3
      requires compact ==> singleProbe && !useHash4 && !useHash3
      requires 10 <= wlog <= 24 && maxMatch >= 4
      ensures Valid() && rep == NO_REP
      ensures this.wlog == wlog && this.maxMatch == maxMatch && this.compact == compact && this.singleProbe == singleProbe
      ensures Tables() == {table, chain, table4, chain4, table3, chain3}
    {
      this.table, this.chain := table, chain;
      this.table4, this.chain4 := table4, chain4;
      this.table3, this.chain3 := table3, chain3;
      this.compact, this.wlog, this.chainDepth, this.maxMatch, this.accel := compact, wlog, chainDepth, maxMatch, accel;
      this.noRep, this.useHash4, this.useHash3, this.singleProbe := noRep, useHash4, useHash3, singleProbe;
      this.rep := NO_REP;
    }

    ghost function Tables(): set<object> {
      {table, chain, table4, chain4, table3, chain3}
    }

    ghost predicate Shaped() {
      && table.Length == HC_SIZE && table4.Length == HC4_SIZE && table3.Length == HC3_SIZE
      && chain.Length > 0 && chain4.Length > 0 && chain3.Length > 0
      && table != chain && table4 != chain4 && table3 != chain3 && table != chain4 && table != chain3
      && chain != table4 && chain != chain4 && chain != table3 && chain != chain3
      && (compact ==> singleProbe && !useHash4 && !useHash3)
      && 10 <= wlog <= 24 && maxMatch >= 4
    }

    /** Nothing is asked of the tables' contents; the repeat offsets lie in the window. */
    ghost predicate Valid()
      reads this
    {
      Shaped() && rep.r0 <= MaxDist() && rep.r1 <= MaxDist() && rep.r2 <= MaxDist()
    }

    /** Matches are looked for by walking chains, not by a single probe of compact tables. */
    ghost predicate Chains() {
      !compact && !singleProbe && chainDepth > 0
    }

    function MaxDist(): (d: nat) {
      Window(wlog)
    }

    /** Positions are stored as they are: also in compact tables, for data that 16 bits can address. */
    ghost predicate Stores(end: nat) {
      !compact || end <= 0x1_0000
    }

    /** The main chain links the positions inserted. */
    ghost predicate Keeps(data: seq<Byte>, end: nat, ins: seq<nat>, lim: nat)
      requires Shaped() && end <= |data|
      reads table, chain
    {
      Chained(Hashes(data, end), table[..], chain[..], ins, lim)
    }

    /** What the walks of the main chain meet. */
    lemma NearMain(data: seq<Byte>, end: nat, pos: nat, ins: seq<nat>)
      requires Valid() && pos + 4 <= end <= |data| && Keeps(data, end, ins, pos)
      ensures InOrder(Hashes(data, end), ins, pos)
      ensures Near(data, end, pos, chainDepth, chain.Length, MaxDist(), ins) <= MainChain(data, pos, end)
      ensures Stores(end) ==> Near(data, end, pos, chainDepth, chain.Length, MaxDist(), ins) <= Probed(data, pos, end)
    {
      hide Recent, Visited, HashSafe, Window, Heads, Links, Near;
      NearWalked(data, end, table[..], chain[..], ins, pos, -1, chainDepth, MaxDist());
      if Stores(end) {
        NearWalked(data, end, table[..], chain[..], ins, pos, if compact then 0xFFFF else -1, chainDepth, MaxDist());
      }
    }

    /** Without the boundary check; `end` is where the data ends for the other kind of insertion. */
    method InsertFast(data: seq<Byte>, pos: nat, ghost end: nat, ghost ins: seq<nat>)
      requires Valid() && pos + 5 <= end <= |data|
      requires Stores(end) ==> Keeps(data, end, ins, pos)
      modifies Tables()
      ensures Stores(end) ==> Keeps(data, end, ins + [pos], pos + 1)
    {
      hide Hash5, Hash4, Hash4Short, Hash3Short, Window, Chained;
      var h := Hash5(data, pos);
      if Stores(end) {
        ChainedInsert(Hashes(data, end), table[..], chain[..], ins, pos, pos);
      }
      if compact {
        Link(table, chain, h, pos % 0x1_0000);
        return;
      }
      Link(table, chain, h, pos);
      if useHash4 {
        Link(table4, chain4, Hash4Short(data, pos), pos);
      }
      if useHash3 {
        Link(table3, chain3, Hash3Short(data, pos), pos);
      }
    }

    /** Makes `pos` the head of its bucket, if four bytes are left there. */
    method Insert(data: seq<Byte>, pos: nat, end: nat, ghost ins: seq<nat>)
      requires Valid() && end <= |data|
      requires Stores(end) ==> Keeps(data, end, ins, pos)
      modifies Tables()
      ensures !compact && pos + 4 <= end ==> table[HashSafe(data, pos, end)] == pos
      ensures Stores(end) ==> Keeps(data, end, if pos + 4 <= end then ins + [pos] else ins, pos + 1)
    {
      hide HashSafe, Hash4Short, Hash3Short, Window, Chained;
      if pos + 4 > end {
        if Stores(end) {
          ChainedLater(Hashes(data, end), table[..], chain[..], ins, pos, pos + 1);
        }
        return;
      }
      if Stores(end) {
        ChainedInsert(Hashes(data, end), table[..], chain[..], ins, pos, pos);
      }
      if compact {
        Link(table, chain, HashSafe(data, pos, end), pos % 0x1_0000);
        return;
      }
      Link(table, chain, HashSafe(data, pos, end), pos);
      if useHash4 {
        Link(table4, chain4, Hash4Short(data, pos), pos);
      }
      if useHash3 {
        Link(table3, chain3, Hash3Short(data, pos), pos);
      }
    }

    /** Inserts `from..stop`, stopping where fewer than five bytes remain. */
    method InsertRange(data: seq<Byte>, from: nat, stop: nat, end: nat, ghost ins: seq<nat>)
      requires Valid() && end <= |data|
      requires Stores(end) ==> Keeps(data, end, ins, from)
      modifies Tables()
      ensures Stores(end) ==> Keeps(data, end, ins + Range(from, if stop + 4 <= end then stop else end - 4), if from <= stop then stop else from)
    {
      hide Chained;
      var j := from;
      RangeNone(from);
      assert ins + [] == ins;
      while j < stop && j + 5 <= end
        invariant from <= j && (j <= stop || j == from)
        invariant j > from ==> j + 4 <= end
        invariant Stores(end) ==> Keeps(data, end, ins + Range(from, j), j)
        decreases stop - j
      {
        InsertFast(data, j, end, ins + Range(from, j));
        RangeNext(from, j);
        assert ins + Range(from, j) + [j] == ins + Range(from, j + 1);
        j := j + 1;
      }
      RangeEmpty(from, stop, end, j);
      if Stores(end) && from <= stop {
        ChainedLater(Hashes(data, end), table[..], chain[..], ins + Range(from, j), j, stop);
      }
    }

    method UpdateRep(offset: nat)
      requires Valid() && 1 <= offset <= MaxDist()
      modifies this
      ensures Valid() && rep == PushRep(old(rep), offset)
    {
      if offset != rep.r0 {
        rep := Rep(offset, rep.r0, rep.r1);
      }
    }

    function RepAt(i: nat): nat
      requires i < 3
      reads this
    {
      if i == 0 then rep.r0 else if i == 1 then rep.r1 else rep.r2
    }

    /** `n` bytes at `pos` are those at repeat offset `i` before it. */
    predicate Repeats(data: seq<Byte>, pos: nat, i: nat, n: nat)
      requires i < 3 && pos + n <= |data|
      reads this
    {
      var d := RepAt(i);
      d != 0 && d <= pos && data[pos..pos + n] == data[pos - d..pos - d + n]
    }

    /** `i` is the first repeat offset that shares `n` bytes. */
    ghost predicate FirstRepeat(data: seq<Byte>, pos: nat, i: nat, n: nat)
      requires i < 3 && pos + n <= |data|
      reads this
    {
      Repeats(data, pos, i, n) && forall k :: 0 <= k < i ==> !Repeats(data, pos, k, n)
    }

    ghost predicate NoRepeat(data: seq<Byte>, pos: nat, n: nat)
      requires pos + n <= |data|
      reads this
    {
      forall k :: 0 <= k < 3 ==> !Repeats(data, pos, k, n)
    }

    /** A match at one of the repeat offsets: the first that shares four bytes, as far as it goes; else, with the
        three-byte hash on, the first that shares three, taken as three; else none. */
    method TryRepMatch(data: seq<Byte>, pos: nat, end: nat) returns (len: nat, idx: nat)
      requires Valid() && pos + 4 <= end <= |data|
      ensures idx < 3 && len <= maxMatch
      ensures len > 0 ==> len >= 3 && MatchAt(data, pos, RepAt(idx), len, end) && RepAt(idx) <= MaxDist()
      ensures len >= 4 ==> FirstRepeat(data, pos, idx, 4) && Longest(data, pos, pos - RepAt(idx), len, end, maxMatch)
      ensures len < 4 ==> NoRepeat(data, pos, 4)
      ensures 0 < len < 4 ==> useHash3 && FirstRepeat(data, pos, idx, 3)
      ensures len == 0 && useHash3 ==> NoRepeat(data, pos, 3)
    {
      hide Window, SameBytes;
      for i := 0 to 3
        invariant forall k :: 0 <= k < i ==> !Repeats(data, pos, k, 4)
      {
        var d := RepAt(i);
        if Repeats(data, pos, i, 4) {
          SameHere(data, pos, pos - d, 4);
          len := MatchLength(data, pos, pos - d, 4, end, maxMatch);
          return len, i;
        }
      }
      if useHash3 {
        for i := 0 to 3
          invariant forall k :: 0 <= k < i ==> !Repeats(data, pos, k, 3)
        {
          if Repeats(data, pos, i, 3) {
            SameHere(data, pos, pos - RepAt(i), 3);
            return 3, i;
          }
        }
      }
      return 0, 0;
    }

    /** Walks a chain from `root`, keeping the longest match that is worth its offset: unless one of 256 bytes ends the
        walk, no match on the chain is longer and also at least as good at six bits a byte. */
    method Walk(links: array<int>, root: int, depth0: nat, data: seq<Byte>, pos: nat, end: nat, limit: nat)
      returns (bestLen: nat, bestOff: nat)
      requires Valid() && links.Length > 0 && limit <= pos && pos + 4 <= end <= |data|
      ensures bestLen <= maxMatch
      ensures bestLen > 0 ==> bestLen >= 4 && MatchAt(data, pos, bestOff, bestLen, end) && bestOff <= pos - limit
      ensures bestLen > 0 ==> Full(data, pos, bestOff, bestLen, end, maxMatch)
      ensures bestLen < 256 ==> AllWorse(data, pos, Visited(links[..], root, -1, depth0, limit, pos), bestLen, bestOff, Most(pos, end, maxMatch))
      ensures bestLen > 0 ==> OnChain(Visited(links[..], root, -1, depth0, limit, pos), pos, bestOff)
    {
      hide OnChain, MatchAt, SameBytes, Visited, AllWorse, Worse, Beaten, Window, Full;
      bestLen, bestOff := 0, 0;
      var ref, depth := root, depth0;
      ghost var most, seen: seq<nat> := Most(pos, end, maxMatch), [];
      ghost var all := Visited(links[..], root, -1, depth, limit, pos);
      assert AllWorse(data, pos, [], 0, 0, most) by { NoneWorse(data, pos, most); }
      while limit <= ref < pos && depth > 0
        invariant bestLen <= maxMatch
        invariant bestLen > 0 ==> bestLen >= 4 && MatchAt(data, pos, bestOff, bestLen, end) && bestOff <= pos - limit
        invariant bestLen > 0 ==> Full(data, pos, bestOff, bestLen, end, maxMatch)
        invariant all == seen + Visited(links[..], ref, -1, depth, limit, pos) && AllWorse(data, pos, seen, bestLen, bestOff, most)
        invariant bestLen > 0 ==> OnChain(all, pos, bestOff)
        decreases depth
      {
        VisitedOne(links[..], ref, -1, depth, limit, pos);
        depth := depth - 1;
        var next := links[ref % links.Length];
        var len := Compare(data, pos, ref, end);
        if len > bestLen && (bestLen < 4 || (len - bestLen) * 6 >= Log2OrZero(pos - ref) - Log2OrZero(bestOff)) {
          WorseBetter(data, pos, seen, bestLen, bestOff, most, ref, len);
          HereOnChain(seen, ref, Visited(links[..], next, -1, depth, limit, pos), all, pos);
          bestLen, bestOff := len, pos - ref;
          if len >= 256 {
            return;
          }
        } else {
          WorseNext(data, pos, seen, bestLen, bestOff, most, ref, len);
        }
        seen, ref := seen + [ref], next;
      }
      VisitedDone(links[..], ref, -1, depth, limit, pos);
      assert seen + [] == seen;
    }

    /** The positions `chain_match` walks on its main chain. */
    ghost function MainChain(data: seq<Byte>, pos: nat, end: nat): seq<nat>
      requires Valid() && pos + 4 <= end <= |data|
      reads this, table, chain
    {
      Visited(chain[..], table[HashSafe(data, pos, end)], -1, chainDepth, if pos <= MaxDist() then 0 else pos - MaxDist(), pos)
    }

    /** The three-byte chain: at most four steps, no far match of length three. */
    method Walk3(data: seq<Byte>, pos: nat, end: nat, limit: nat) returns (bestLen: nat, bestOff: nat)
      requires Valid() && limit <= pos && pos + 3 <= end <= |data|
      ensures bestLen <= maxMatch
      ensures bestLen > 0 ==> bestLen >= 3 && MatchAt(data, pos, bestOff, bestLen, end) && bestOff <= pos - limit
      ensures bestLen > 0 ==> Full(data, pos, bestOff, bestLen, end, maxMatch)
    {
      hide MatchAt, SameBytes, Hash3Short, Window, Longest;
      bestLen, bestOff := 0, 0;
      var ref, depth := table3[Hash3Short(data, pos)], 4;
      while limit <= ref < pos && depth > 0
        invariant bestLen <= maxMatch
        invariant bestLen > 0 ==> bestLen >= 3 && MatchAt(data, pos, bestOff, bestLen, end) && bestOff <= pos - limit
        invariant bestLen > 0 ==> Full(data, pos, bestOff, bestLen, end, maxMatch)
        decreases depth
      {
        depth := depth - 1;
        var next := chain3[ref % chain3.Length];
        if data[ref..ref + 3] == data[pos..pos + 3] {
          SameHere(data, pos, ref, 3);
          var len := MatchLength(data, pos, ref, 3, end, maxMatch);
          if !(len == 3 && pos - ref > 4096) && len > bestLen {
            bestLen, bestOff := len, pos - ref;
            if len >= 8 {
              break;
            }
          }
        }
        ref := next;
      }
    }

    /** `pos` shares its first four bytes with the head of its bucket, which lies in the window. */
    ghost predicate Headed(data: seq<Byte>, pos: nat, end: nat)
      requires Valid() && end <= |data|
      reads this, table
    {
      && pos + 4 <= end
      && var ref := table[HashSafe(data, pos, end)];
         0 <= ref < pos <= ref + MaxDist() && data[ref..ref + 4] == data[pos..pos + 4]
    }

    /** The positions it walks on the chain of short hashes. */
    ghost function ShortChain(data: seq<Byte>, pos: nat, end: nat): seq<nat>
      requires Valid() && pos + 4 <= end <= |data|
      reads this, table4, chain4
    {
      Visited(chain4[..], table4[Hash4Short(data, pos)], -1, 8, if pos <= MaxDist() then 0 else pos - MaxDist(), pos)
    }

    /** `chain_match`. No match on the main chain is longer and also at least as good, unless one of 256 bytes ended
        the walk; the head of the bucket, for one, is not missed. Where the match is not from the main chain, the same
        holds of the chain of short hashes. */
    method ChainMatch(data: seq<Byte>, pos: nat, end: nat) returns (bestLen: nat, bestOff: nat)
      requires Valid() && !compact && end <= |data|
      ensures bestLen <= maxMatch
      ensures chainDepth > 0 && Headed(data, pos, end) ==> bestLen >= 4
      ensures bestLen > 0 ==> bestLen >= 3 && MatchAt(data, pos, bestOff, bestLen, end) && bestOff <= MaxDist()
      ensures bestLen > 0 ==> Full(data, pos, bestOff, bestLen, end, maxMatch)
      ensures pos + 4 <= end && bestLen < 256 ==>
                AllWorse(data, pos, MainChain(data, pos, end), bestLen, bestOff, Most(pos, end, maxMatch))
      ensures pos + 4 <= end && bestLen < 256 && useHash4 ==>
                || OnChain(MainChain(data, pos, end), pos, bestOff)
                || AllWorse(data, pos, ShortChain(data, pos, end), bestLen, bestOff, Most(pos, end, maxMatch))
    {
      hide OnChain, MatchAt, SameBytes, HashSafe, Hash4Short, Window, AllWorse, Visited, Full;
      bestLen, bestOff := 0, 0;
      if pos + (if useHash3 then 3 else 4) > end {
        return;
      }
      var limit := if pos <= MaxDist() then 0 else pos - MaxDist();
      if pos + 4 <= end {
        if Headed(data, pos, end) {
          SameHere(data, pos, table[HashSafe(data, pos, end)], 4);
        }
        bestLen, bestOff := Walk(chain, table[HashSafe(data, pos, end)], chainDepth, data, pos, end, limit);
        if bestLen < 256 {
          HeadTaken(chain[..], table[HashSafe(data, pos, end)], chainDepth, limit, data, pos, bestLen, bestOff, Most(pos, end, maxMatch));
        }
        if bestLen < 4 {
          NothingLonger(data, pos, MainChain(data, pos, end), bestLen, bestOff, Most(pos, end, maxMatch));
        }
        if useHash4 && bestLen == 0 {
          bestLen, bestOff := Walk(chain4, table4[Hash4Short(data, pos)], 8, data, pos, end, limit);
          if bestLen < 4 {
            NothingLonger(data, pos, ShortChain(data, pos, end), bestLen, bestOff, Most(pos, end, maxMatch));
          }
        }
      }
      if useHash3 && bestLen < 4 {
        bestLen, bestOff := Walk3(data, pos, end, limit);
      }
    }

    /** `single_probe_match`: the longest match on one chain, unless one of 256 bytes ends the walk. */
    method SingleProbeMatch(data: seq<Byte>, pos: nat, end: nat) returns (bestLen: nat, bestOff: nat)
      requires Valid() && end <= |data|
      ensures bestLen <= maxMatch
      ensures bestLen > 0 ==> bestLen >= 4 && MatchAt(data, pos, bestOff, bestLen, end) && bestOff <= MaxDist()
      ensures bestLen > 0 ==> Full(data, pos, bestOff, bestLen, end, maxMatch)
      ensures pos + 4 <= end && bestLen < 256 ==>
                BestOf(data, pos, Probed(data, pos, end), bestLen, 4, Most(pos, end, maxMatch))
    {
      hide MatchAt, SameBytes, HashSafe, Window, Visited, BestOf, Beaten, Full;
      bestLen, bestOff := 0, 0;
      if pos + 4 > end {
        return;
      }
      var limit := if pos <= MaxDist() then 0 else pos - MaxDist();
      var ref, depth := table[HashSafe(data, pos, end)], chainDepth;
      ghost var most, none, seen: seq<nat> := Most(pos, end, maxMatch), if compact then 0xFFFF else -1, [];
      ghost var all := Visited(chain[..], ref, none, depth, limit, pos);
      assert BestOf(data, pos, [], 0, 4, most) by { NoneSeen(data, pos, 4, most); }
      if compact && ref == 0xFFFF {
        ref := -1;
      }
      VisitedEnds(chain[..], none, depth, limit, pos);
      while limit <= ref < pos && depth > 0
        invariant bestLen <= maxMatch
        invariant bestLen > 0 ==> bestLen >= 4 && MatchAt(data, pos, bestOff, bestLen, end) && bestOff <= pos - limit
        invariant bestLen > 0 ==> Full(data, pos, bestOff, bestLen, end, maxMatch)
        invariant all == seen + Visited(chain[..], ref, none, depth, limit, pos) && BestOf(data, pos, seen, bestLen, 4, most)
        invariant ref != none || ref == -1
        decreases depth
      {
        VisitedOne(chain[..], ref, none, depth, limit, pos);
        depth := depth - 1;
        var next := chain[ref % chain.Length];
        VisitedEnds(chain[..], none, depth, limit, pos);
        if compact && next == 0xFFFF {
          next := -1;
        }
        var len := Compare(data, pos, ref, end);
        BestNext(data, pos, seen, bestLen, if len > bestLen then len else bestLen, 4, most, ref) by {
          BeatenLess(data, pos, ref, len, if len > bestLen then len else bestLen, 4, most);
        }
        if len > bestLen {
          bestLen, bestOff := len, pos - ref;
          if len >= 256 {
            break;
          }
        }
        seen, ref := seen + [ref], next;
      }
      if bestLen < 256 {
        VisitedDone(chain[..], ref, none, depth, limit, pos);
        assert seen + [] == seen;
      }
    }

    /** How far the bytes at `ref` agree, if four do. */
    method Compare(data: seq<Byte>, pos: nat, ref: nat, end: nat) returns (len: nat)
      requires Valid() && ref < pos && pos + 4 <= end <= |data|
      ensures len <= maxMatch && (len > 0 ==> len >= 4 && MatchAt(data, pos, pos - ref, len, end))
      ensures len > 0 ==> Full(data, pos, pos - ref, len, end, maxMatch)
      ensures !Beaten(data, pos, ref, len, 4, Most(pos, end, maxMatch))
    {
      hide MatchAt, SameBytes, Beaten, Longest;
      len := 0;
      if data[ref..ref + 4] == data[pos..pos + 4] {
        SameHere(data, pos, ref, 4);
        len := MatchLength(data, pos, ref, 4, end, maxMatch);
        MatchFits(data, pos, pos - ref, len, end);
        LongestBeats(data, pos, ref, len, end, maxMatch);
      } else {
        FourDiffer(data, pos, ref, 0, Most(pos, end, maxMatch));
      }
    }

    /** The positions `single_probe_match` walks. */
    ghost function Probed(data: seq<Byte>, pos: nat, end: nat): seq<nat>
      requires Valid() && pos + 4 <= end <= |data|
      reads this, table, chain
    {
      Visited(chain[..], table[HashSafe(data, pos, end)], if compact then 0xFFFF else -1, chainDepth,
              if pos <= MaxDist() then 0 else pos - MaxDist(), pos)
    }
  }

  lemma MatchFits(data: seq<Byte>, pos: nat, off: nat, len: nat, end: nat)
    requires MatchAt(data, pos, off, len, end)
    ensures pos + len <= end <= |data|
  {
  }

  lemma HereOnChain(seen: seq<nat>, ref: nat, later: seq<nat>, all: seq<nat>, pos: nat)
    requires all == seen + ([ref] + later) && ref < pos
    ensures OnChain(all, pos, pos - ref)
  {
    assert all[|seen|] == ref;
  }

  lemma NoneWorse(data: seq<Byte>, pos: nat, most: nat)
    ensures AllWorse(data, pos, [], 0, 0, most)
  {
  }

  /** A position compared and not taken. */
  lemma WorseNext(data: seq<Byte>, pos: nat, refs: seq<nat>, len: nat, off: nat, most: nat, ref: nat, shared: nat)
    requires AllWorse(data, pos, refs, len, off, most) && ref < pos && !Beaten(data, pos, ref, shared, 4, most)
    requires shared <= len || (len >= 4 && (shared - len) * 6 < Log2OrZero(pos - ref) - Log2OrZero(off))
    ensures AllWorse(data, pos, refs + [ref], len, off, most)
  {
    hide SameBytes, Log2OrZero, Beaten;
    assert Worse(data, pos, ref, len, off, most) by { WorseOne(data, pos, ref, len, off, most, shared); }
    forall k | 0 <= k < |refs| + 1
      ensures Worse(data, pos, (refs + [ref])[k], len, off, most)
    {
      assert k < |refs| ==> Worse(data, pos, refs[k], len, off, most);
    }
  }

  lemma WorseOne(data: seq<Byte>, pos: nat, ref: nat, len: nat, off: nat, most: nat, shared: nat)
    requires ref < pos && !Beaten(data, pos, ref, shared, 4, most)
    requires shared <= len || (len >= 4 && (shared - len) * 6 < Log2OrZero(pos - ref) - Log2OrZero(off))
    ensures Worse(data, pos, ref, len, off, most)
  {
    hide Log2OrZero;
    forall n: nat | 4 <= n <= most && n > len && SameBytes(data, pos, ref, n)
      ensures len >= 4 && (n - len) * 6 < Log2OrZero(pos - ref) - Log2OrZero(off)
    {
      if n > shared {
        SamePrefix(data, pos, ref, n, if shared + 1 > 4 then shared + 1 else 4);
      }
    }
  }

  /** A better one is taken: what was worse before is worse than it. */
  lemma WorseBetter(data: seq<Byte>, pos: nat, refs: seq<nat>, len: nat, off: nat, most: nat, ref: nat, shared: nat)
    requires AllWorse(data, pos, refs, len, off, most) && ref < pos && !Beaten(data, pos, ref, shared, 4, most)
    requires shared > len && shared >= 4 && (len < 4 || (shared - len) * 6 >= Log2OrZero(pos - ref) - Log2OrZero(off))
    ensures AllWorse(data, pos, refs + [ref], shared, pos - ref, most)
  {
    hide SameBytes, Log2OrZero, Beaten;
    assert Worse(data, pos, ref, shared, pos - ref, most) by { WorseOne(data, pos, ref, shared, pos - ref, most, shared); }
    forall k | 0 <= k < |refs| + 1
      ensures Worse(data, pos, (refs + [ref])[k], shared, pos - ref, most)
    {
      assert k < |refs| ==> Worse(data, pos, refs[k], len, off, most);
    }
  }

  /** Where nothing of four bytes was found, no position walked shares four. */
  lemma WorseNone(data: seq<Byte>, pos: nat, refs: seq<nat>, len: nat, off: nat, most: nat)
    requires AllWorse(data, pos, refs, len, off, most) && len < 4 <= most
    ensures forall ref :: ref in refs ==> !SameBytes(data, pos, ref, 4)
  {
    hide SameBytes, Log2OrZero;
    forall ref | ref in refs ensures !SameBytes(data, pos, ref, 4) {
      var k :| 0 <= k < |refs| && refs[k] == ref;
      assert Worse(data, pos, refs[k], len, off, most);
    }
  }

  lemma BestNone(data: seq<Byte>, pos: nat, refs: seq<nat>, len: nat, most: nat)
    requires BestOf(data, pos, refs, len, 4, most) && len < 4 <= most
    ensures forall ref :: ref in refs ==> !SameBytes(data, pos, ref, 4)
  {
    hide SameBytes;
    forall ref | ref in refs ensures !SameBytes(data, pos, ref, 4) {
      var k :| 0 <= k < |refs| && refs[k] == ref;
      assert !Beaten(data, pos, refs[k], len, 4, most);
    }
  }

  /** The longest of all is not worse than any. */
  lemma BestWorse(data: seq<Byte>, pos: nat, refs: seq<nat>, len: nat, off: nat, most: nat)
    requires BestOf(data, pos, refs, len, 4, most) && forall k :: 0 <= k < |refs| ==> refs[k] <= pos
    ensures AllWorse(data, pos, refs, len, off, most)
  {
    hide SameBytes, Log2OrZero;
    forall k | 0 <= k < |refs| ensures Worse(data, pos, refs[k], len, off, most) {
      assert !Beaten(data, pos, refs[k], len, 4, most);
      forall n: nat | 4 <= n <= most && n > len && SameBytes(data, pos, refs[k], n) ensures false {
        SamePrefix(data, pos, refs[k], n, if len + 1 > 4 then len + 1 else 4);
      }
    }
  }

  lemma {:induction false} VisitedBefore(links: seq<int>, root: int, none: int, depth: nat, limit: nat, pos: nat)
    requires links != []
    ensures forall k :: 0 <= k < |Visited(links, root, none, depth, limit, pos)| ==> Visited(links, root, none, depth, limit, pos)[k] < pos
    decreases depth
  {
    if depth > 0 && root != none && limit <= root < pos {
      VisitedBefore(links, links[root % |links|], none, depth - 1, limit, pos);
    }
  }

  lemma AllWorsePrefix(data: seq<Byte>, pos: nat, refs: seq<nat>, some: seq<nat>, len: nat, off: nat, most: nat)
    requires AllWorse(data, pos, refs, len, off, most) && some <= refs
    ensures AllWorse(data, pos, some, len, off, most)
  {
    hide Worse;
    forall k | 0 <= k < |some| ensures some[k] <= pos && Worse(data, pos, some[k], len, off, most) {
      assert some[k] == refs[k];
    }
  }

  /** Where nothing of four bytes was found, nothing on the chain beats what is found elsewhere. */
  lemma NothingLonger(data: seq<Byte>, pos: nat, refs: seq<nat>, len: nat, off: nat, most: nat)
    requires AllWorse(data, pos, refs, len, off, most) && len < 4
    ensures forall l: nat, o: nat :: AllWorse(data, pos, refs, l, o, most)
  {
    hide SameBytes, Log2OrZero;
    forall l: nat, o: nat, k | 0 <= k < |refs|
      ensures Worse(data, pos, refs[k], l, o, most)
    {
      assert Worse(data, pos, refs[k], len, off, most);
    }
  }

  /** The first position of a chain, if four bytes agree there. */
  lemma HeadTaken(links: seq<int>, root: int, depth: nat, limit: nat, data: seq<Byte>, pos: nat, len: nat, off: nat, most: nat)
    requires links != [] && AllWorse(data, pos, Visited(links, root, -1, depth, limit, pos), len, off, most) && most >= 4
    ensures depth > 0 && limit <= root < pos && SameBytes(data, pos, root, 4) ==> len >= 4
  {
    hide SameBytes, Log2OrZero;
    if depth > 0 && limit <= root < pos {
      VisitedOne(links, root, -1, depth, limit, pos);
      assert Worse(data, pos, Visited(links, root, -1, depth, limit, pos)[0], len, off, most);
    }
  }

  lemma NoneSeen(data: seq<Byte>, pos: nat, least: nat, most: nat)
    ensures BestOf(data, pos, [], 0, least, most)
  {
  }

  lemma LongestBeats(data: seq<Byte>, pos: nat, ref: nat, len: nat, end: nat, maxMatch: nat)
    requires ref < pos && 4 <= len <= maxMatch && pos + len <= end <= |data| && Longest(data, pos, ref, len, end, maxMatch)
    ensures !Beaten(data, pos, ref, len, 4, Most(pos, end, maxMatch))
  {
    if len < maxMatch && pos + len < end {
      Differ(data, pos, ref, len, len + 1);
    }
  }

  lemma BeatenLess(data: seq<Byte>, pos: nat, ref: nat, len: nat, best: nat, least: nat, most: nat)
    requires len <= best && !Beaten(data, pos, ref, len, least, most)
    ensures !Beaten(data, pos, ref, best, least, most)
  {
    assert BestOf(data, pos, [ref], len, least, most);
    BestLonger(data, pos, [ref], len, best, least, most);
    assert !Beaten(data, pos, [ref][0], best, least, most);
  }

  lemma FourDiffer(data: seq<Byte>, pos: nat, ref: nat, best: nat, most: nat)
    requires pos + 4 <= |data| && ref < pos && data[ref..ref + 4] != data[pos..pos + 4]
    ensures !Beaten(data, pos, ref, best, 4, most)
  {
    if Beaten(data, pos, ref, best, 4, most) {
      SamePrefix(data, pos, ref, if best + 1 > 4 then best + 1 else 4, 4);
    }
  }

  function Window(wlog: nat): nat {
    Bits.Pow2(wlog) - 1
  }

  lemma SameHere(data: seq<Byte>, a: nat, b: nat, n: nat)
    requires a + n <= |data| && b + n <= |data| && data[b..b + n] == data[a..a + n]
    ensures SameBytes(data, a, b, n)
  {
  }
}
