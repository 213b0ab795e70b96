/** The whole-block optimal parser (`opt_collect`, `opt_match_price`, `opt_rep_push`,
    `compress_block_optimal`, src/vv_encoder.c:955-1435). */
module OptimalParse {
  import opened Bits
  import opened Bytes
  import opened GreedyParse
  import opened HashChains
  import opened Lz
  import opened MatchFinder
  import opened ParseLog
  import opened SeqCodes
  import opened Tokens

  const PRICE_INF: nat := 0x3FFF_FFFF
  const MAX_CAND: nat := 16
  const LONG_MATCH: nat := 512
  const VV_MIN_MATCH: nat := 4
  const MAX_BLOCK: nat := 0x10_0000

  //////////////////////////////////////////////////////////////////////////////
  // Prices
  //////////////////////////////////////////////////////////////////////////////

  /** Bit prices of literals and of offset codes. */
  datatype Prices = Prices(lit: seq<nat>, of: seq<nat>)

  ghost predicate PricesOkay(p: Prices) {
    && |p.lit| == 256 && (forall b :: 0 <= b < 256 ==> p.lit[b] <= 14)
    && |p.of| == 27 && (forall x :: 0 <= x < 27 ==> p.of[x] <= 12)
  }

  /** `opt_match_price`: a repeat offset pays no extra bits. */
  function MatchPrice(p: Prices, rep: Rep, off: nat, len: nat): (price: nat)
    requires PricesOkay(p)
  {
    var log := Log2OrZero(off);
    var x := if off == rep.r0 then 0 else if off == rep.r1 then 1 else if off == rep.r2 then 2
             else if 3 + log > 26 then 26 else 3 + log;
    8 + p.of[x] + (if x >= 3 then log else 0) +
    (if len >= VV_MIN_MATCH + 15 then 8 * ((len - VV_MIN_MATCH) / 255 + 1) else 0)
  }

  function LitCost(p: Prices, lits: seq<Byte>): nat
    requires PricesOkay(p)
  {
    if lits == [] then 0 else LitCost(p, lits[..|lits| - 1]) + p.lit[lits[|lits| - 1]]
  }

  function RepAfter(seqs: seq<Sequence>): Rep {
    if seqs == [] then NO_REP else NextRep(RepAfter(seqs[..|seqs| - 1]), seqs[|seqs| - 1])
  }

  function SequenceCost(p: Prices, rep: Rep, s: Sequence): nat
    requires PricesOkay(p)
  {
    LitCost(p, s.lits) + (if s.matchLen > 0 then MatchPrice(p, rep, s.offset, s.matchLen) else 0)
  }

  /** What a parse costs, each match priced against the history the wire has at that point. */
  function ParseCost(p: Prices, seqs: seq<Sequence>): nat
    requires PricesOkay(p)
  {
    if seqs == [] then 0
    else ParseCost(p, seqs[..|seqs| - 1]) + SequenceCost(p, RepAfter(seqs[..|seqs| - 1]), seqs[|seqs| - 1])
  }

  lemma CostAppend(p: Prices, seqs: seq<Sequence>, one: Sequence)
    requires PricesOkay(p)
    ensures ParseCost(p, seqs + [one]) == ParseCost(p, seqs) + SequenceCost(p, RepAfter(seqs), one)
    ensures RepAfter(seqs + [one]) == NextRep(RepAfter(seqs), one)
  {
    assert (seqs + [one])[..|seqs|] == seqs;
  }

  //////////////////////////////////////////////////////////////////////////////
  // The graph
  //////////////////////////////////////////////////////////////////////////////

  /** A block to parse: `data[base..end]`, with prices and the limits on matches; how far chains are walked, and how many
      links they have room for. */
  datatype Task = Task(data: seq<Byte>, base: nat, end: nat, prices: Prices, wlog: nat, maxMatch: nat, minMatch: nat,
                       depth: nat, ring: nat)

  ghost predicate TaskOkay(t: Task) {
    && t.base <= t.end <= |t.data| && t.end - t.base <= MAX_BLOCK && PricesOkay(t.prices)
    && 3 <= t.minMatch <= VV_MIN_MATCH
  }

  function Size(t: Task): nat
    requires t.base <= t.end
  {
    t.end - t.base
  }

  /** A step of a parse from offset `from`: a literal (`off == 0`) or a match. */
  datatype Edge = Edge(from: nat, len: nat, off: nat)

  ghost predicate ValidEdge(t: Task, e: Edge): (ok: bool)
    requires TaskOkay(t)
    ensures ok ==> e.from + e.len <= Size(t)
  {
    && e.from + e.len <= Size(t)
    && if e.off == 0 then e.len == 1
       else MatchAt(t.data, t.base + e.from, e.off, e.len, t.end) && t.minMatch <= e.len <= t.maxMatch && e.off <= Window(t.wlog)
  }

  function EdgeCost(t: Task, rep: Rep, e: Edge): nat
    requires TaskOkay(t) && ValidEdge(t, e)
  {
    if e.off == 0 then t.prices.lit[t.data[t.base + e.from]] else MatchPrice(t.prices, rep, e.off, e.len)
  }

  function EdgeRep(rep: Rep, off: nat): Rep {
    if off == 0 then rep else PushRep(rep, off)
  }

  /** Best known price to reach an offset, the edge into it, and the offset history there. */
  datatype Node = Node(price: nat, len: nat, off: nat, rep: Rep)

  const FAR: Node := Node(PRICE_INF, 0, 0, NO_REP)

  ghost predicate InWindow(rep: Rep, wlog: nat) {
    rep.r0 <= Window(wlog) && rep.r1 <= Window(wlog) && rep.r2 <= Window(wlog)
  }

  /** Node `j` was reached from a processed node, at that node's final price and history. */
  ghost predicate Linked(t: Task, nodes: seq<Node>, seen: set<nat>, j: nat)
    requires TaskOkay(t) && |nodes| == Size(t) + 1 && j <= Size(t)
  {
    var n := nodes[j];
    && 1 <= n.len <= j
    && var i := j - n.len;
       && i in seen && nodes[i].price < PRICE_INF
       && ValidEdge(t, Edge(i, n.len, n.off))
       && n.price == nodes[i].price + EdgeCost(t, nodes[i].rep, Edge(i, n.len, n.off))
       && n.rep == EdgeRep(nodes[i].rep, n.off) && InWindow(n.rep, t.wlog)
  }

  /** Everything reached so far is linked back to the start; only nodes up to `i` are processed. */
  ghost predicate Sound(t: Task, nodes: seq<Node>, seen: set<nat>, i: nat)
    requires TaskOkay(t)
  {
    && |nodes| == Size(t) + 1 && nodes[0] == Node(0, 0, 0, NO_REP)
    && (forall s :: s in seen ==> s <= i)
    && (forall j :: 0 < j <= Size(t) && nodes[j].price < PRICE_INF ==> Linked(t, nodes, seen, j))
  }

  /** No explored edge can lower a price. */
  ghost predicate Settled(t: Task, nodes: seq<Node>, explored: set<Edge>, i: nat)
    requires TaskOkay(t) && |nodes| == Size(t) + 1
  {
    forall e :: e in explored ==>
      && e.from <= i && ValidEdge(t, e)
      && nodes[e.from + e.len].price <= nodes[e.from].price + EdgeCost(t, nodes[e.from].rep, e)
  }

  ghost function Relaxed(t: Task, nodes: seq<Node>, e: Edge): (r: seq<Node>)
    requires TaskOkay(t) && |nodes| == Size(t) + 1 && ValidEdge(t, e)
    ensures |r| == |nodes|
  {
    var price := nodes[e.from].price + EdgeCost(t, nodes[e.from].rep, e);
    if price < nodes[e.from + e.len].price
    then nodes[e.from + e.len := Node(price, e.len, e.off, EdgeRep(nodes[e.from].rep, e.off))]
    else nodes
  }

  /** Nodes up to `i` are as before, and no price has risen. */
  ghost predicate Later(t: Task, nodes: seq<Node>, now: seq<Node>, i: nat)
    requires TaskOkay(t)
  {
    && i <= Size(t) && |nodes| == |now| == Size(t) + 1
    && (forall j :: 0 <= j <= i ==> now[j] == nodes[j])
    && (forall j :: i < j <= Size(t) ==> now[j].price <= nodes[j].price)
  }

  lemma RelaxLater(t: Task, nodes: seq<Node>, e: Edge)
    requires TaskOkay(t) && |nodes| == Size(t) + 1 && e.len > 0 && ValidEdge(t, e)
    ensures Later(t, nodes, Relaxed(t, nodes, e), e.from)
  {
    hide ValidEdge, EdgeCost, PricesOkay;
  }

  /** Processed prices and histories never change: every edge leads forward. */
  lemma LinkedLater(t: Task, nodes: seq<Node>, now: seq<Node>, seen: set<nat>, i: nat, j: nat)
    requires TaskOkay(t) && Sound(t, nodes, seen, i) && Later(t, nodes, now, i)
    requires 0 < j <= Size(t) && now[j] == nodes[j] && nodes[j].price < PRICE_INF
    ensures Linked(t, now, seen, j)
  {
    hide ValidEdge, EdgeCost, PricesOkay, InWindow;
    assert Linked(t, nodes, seen, j);
  }

  lemma RelaxSound(t: Task, nodes: seq<Node>, seen: set<nat>, e: Edge)
    requires TaskOkay(t) && Sound(t, nodes, seen, e.from) && e.len > 0 && ValidEdge(t, e)
    requires e.from in seen && nodes[e.from].price < PRICE_INF && InWindow(nodes[e.from].rep, t.wlog)
    ensures Sound(t, Relaxed(t, nodes, e), seen, e.from)
  {
    hide ValidEdge, EdgeCost, PricesOkay, InWindow, Linked;
    RelaxLater(t, nodes, e);
    var r, k := Relaxed(t, nodes, e), e.from + e.len;
    forall j | 0 < j <= Size(t) && r[j].price < PRICE_INF
      ensures Linked(t, r, seen, j)
    {
      if r[j] == nodes[j] {
        LinkedLater(t, nodes, r, seen, e.from, j);
      } else {
        NewLink(t, nodes, seen, e);
      }
    }
  }

  lemma NewLink(t: Task, nodes: seq<Node>, seen: set<nat>, e: Edge)
    requires TaskOkay(t) && |nodes| == Size(t) + 1 && e.len > 0 && ValidEdge(t, e)
    requires e.from in seen && nodes[e.from].price < PRICE_INF && InWindow(nodes[e.from].rep, t.wlog)
    requires Relaxed(t, nodes, e) != nodes
    ensures Linked(t, Relaxed(t, nodes, e), seen, e.from + e.len)
  {
    hide MatchAt, EdgeCost, PricesOkay;
    assert ValidEdge(t, e) && e == Edge(e.from, e.len, e.off);
  }

  lemma RelaxSettled(t: Task, nodes: seq<Node>, explored: set<Edge>, e: Edge)
    requires TaskOkay(t) && |nodes| == Size(t) + 1 && Settled(t, nodes, explored, e.from) && e.len > 0 && ValidEdge(t, e)
    ensures Settled(t, Relaxed(t, nodes, e), explored + {e}, e.from)
  {
    hide ValidEdge, EdgeCost, PricesOkay;
    RelaxLater(t, nodes, e);
  }

  //////////////////////////////////////////////////////////////////////////////
  // Candidates
  //////////////////////////////////////////////////////////////////////////////

  datatype Cand = Cand(off: nat, len: nat)

  ghost predicate CandOkay(t: Task, i: nat, c: Cand)
    requires TaskOkay(t)
  {
    && VV_MIN_MATCH <= c.len <= t.maxMatch && 1 <= c.off <= Window(t.wlog)
    && MatchAt(t.data, t.base + i, c.off, c.len, t.end)
    && MatchFinder.Longest(t.data, t.base + i, t.base + i - c.off, c.len, t.end, t.maxMatch)
  }

  ghost predicate CandsOkay(t: Task, i: nat, cands: seq<Cand>)
    requires TaskOkay(t)
  {
    |cands| <= MAX_CAND && forall k :: 0 <= k < |cands| ==> CandOkay(t, i, cands[k])
  }

  /** The matcher works on this task. */
  ghost predicate Serves(m: Matcher, t: Task)
    reads m
  {
    && m.Valid() && !m.compact && m.wlog == t.wlog && m.maxMatch == t.maxMatch
    && m.chainDepth == t.depth && m.chain.Length == t.ring
  }

  /** Adds a match, or lengthens the one with the same offset. */
  function AddCand(cands: seq<Cand>, c: Cand): (r: seq<Cand>)
    ensures |cands| <= |r| <= |cands| + 1
  {
    if cands == [] then [c]
    else if cands[0].off == c.off then [if cands[0].len < c.len then c else cands[0]] + cands[1..]
    else [cands[0]] + AddCand(cands[1..], c)
  }

  lemma {:induction false} AddOkay(t: Task, i: nat, cands: seq<Cand>, c: Cand)
    requires TaskOkay(t) && CandOkay(t, i, c) && forall k :: 0 <= k < |cands| ==> CandOkay(t, i, cands[k])
    ensures forall k :: 0 <= k < |AddCand(cands, c)| ==> CandOkay(t, i, AddCand(cands, c)[k])
    decreases |cands|
  {
    hide CandOkay;
    if cands != [] && cands[0].off != c.off {
      AddOkay(t, i, cands[1..], c);
    }
  }

  ghost predicate Has(cands: seq<Cand>, off: nat) {
    exists k :: 0 <= k < |cands| && cands[k].off == off
  }

  /** A candidate that is taken at once. */
  ghost predicate Long(cands: seq<Cand>) {
    exists k :: 0 <= k < |cands| && cands[k].len >= LONG_MATCH
  }

  lemma {:induction false} AddHas(cands: seq<Cand>, c: Cand, off: nat)
    requires Has(cands, off) || off == c.off
    ensures Has(AddCand(cands, c), off)
    decreases |cands|
  {
    var r := AddCand(cands, c);
    if cands == [] || cands[0].off == off {
      assert r[0].off == off;
    } else if cands[0].off == c.off {
      var k :| 0 <= k < |cands| && cands[k].off == off;
      assert r[k] == cands[k];
    } else {
      if Has(cands, off) {
        var k :| 0 <= k < |cands| && cands[k].off == off;
        assert cands[1..][k - 1].off == off;
      }
      AddHas(cands[1..], c, off);
      var k :| 0 <= k < |r| - 1 && AddCand(cands[1..], c)[k].off == off;
      assert r[k + 1].off == off;
    }
  }

  lemma {:induction false} AddHere(cands: seq<Cand>, c: Cand)
    requires forall k :: 0 <= k < |cands| && cands[k].off == c.off ==> cands[k].len <= c.len
    ensures c in AddCand(cands, c) || exists k :: 0 <= k < |cands| && cands[k] == c
    decreases |cands|
  {
    if cands != [] && cands[0].off != c.off {
      AddHere(cands[1..], c);
      if c !in AddCand(cands[1..], c) {
        var k :| 0 <= k < |cands[1..]| && cands[1..][k] == c;
        assert cands[k + 1] == c;
      }
    }
  }

  /** Four bytes at node `i` are found at `ref` as well. */
  ghost predicate Four(t: Task, i: nat, ref: nat)
    requires TaskOkay(t)
  {
    SameBytes(t.data, t.base + i, ref, 4)
  }

  function RepAt(rep: Rep, r: nat): nat {
    if r == 0 then rep.r0 else if r == 1 then rep.r1 else rep.r2
  }

  ghost predicate Repeats(t: Task, i: nat, rep: Rep, r: nat)
    requires TaskOkay(t)
  {
    0 < RepAt(rep, r) <= t.base + i && Four(t, i, t.base + i - RepAt(rep, r))
  }

  /** Every match there is to find is a candidate: at the repeat offsets, unless a long one made the rest needless, and
      with the positions near, unless one was long or there are already sixteen. */
  ghost predicate Collected(t: Task, i: nat, rep: Rep, cands: seq<Cand>, ins: seq<nat>)
    requires TaskOkay(t)
  {
    if t.base + i + 4 > t.end then cands == []
    else
      && InOrder(Hashes(t.data, t.end), ins, t.base + i)
      && (forall r :: 0 <= r < 3 && Repeats(t, i, rep, r) ==> Has(cands, RepAt(rep, r)) || Long(cands))
      && forall ref :: ref in Near(t.data, t.end, t.base + i, t.depth, t.ring, Window(t.wlog), ins) && Four(t, i, ref) ==>
           (ref <= t.base + i && Has(cands, t.base + i - ref)) || Long(cands) || |cands| == MAX_CAND
  }

  /** Matches at the path's repeat offsets. */
  method CollectRepeats(m: Matcher, t: Task, i: nat, rep: Rep) returns (cands: seq<Cand>, done: bool)
    requires TaskOkay(t) && Serves(m, t) && InWindow(rep, t.wlog) && t.base + i + 4 <= t.end
    ensures CandsOkay(t, i, cands) && |cands| <= 3 && (done ==> Long(cands))
    ensures forall r :: 0 <= r < 3 && Repeats(t, i, rep, r) ==> Has(cands, RepAt(rep, r)) || done
  {
    hide MatchAt, SameBytes, Window, PricesOkay, Four, Has, Long;
    var pos := t.base + i;
    cands := [];
    for r := 0 to 3
      invariant |cands| <= r && CandsOkay(t, i, cands)
      invariant forall q :: 0 <= q < r && Repeats(t, i, rep, q) ==> Has(cands, RepAt(rep, q))
    {
      var off := RepAt(rep, r);
      if 0 < off <= pos {
        SameNone(t.data, pos, pos - off);
        var len := MatchLength(t.data, pos, pos - off, 0, t.end, t.maxMatch);
        MatchInside(t.data, pos, off, len, t.end);
        if len >= VV_MIN_MATCH {
          HasMore(cands, Cand(off, len));
          cands := cands + [Cand(off, len)];
        } else {
          NotFour(t, i, pos - off, len);
        }
        if len >= LONG_MATCH {
          LongLast(cands);
          return cands, true;
        }
      }
    }
    done := false;
  }

  lemma HasMore(cands: seq<Cand>, c: Cand)
    ensures Has(cands + [c], c.off) && forall off :: Has(cands, off) ==> Has(cands + [c], off)
  {
    var r := cands + [c];
    assert r[|cands|] == c;
    forall off | Has(cands, off) ensures Has(r, off) {
      var k :| 0 <= k < |cands| && cands[k].off == off;
      assert r[k].off == off;
    }
  }

  lemma LongLast(cands: seq<Cand>)
    requires cands != [] && cands[|cands| - 1].len >= LONG_MATCH
    ensures Long(cands)
  {
  }

  lemma NotFour(t: Task, i: nat, ref: nat, len: nat)
    requires TaskOkay(t) && t.base + i + 4 <= t.end && ref < t.base + i && len < 4 <= t.maxMatch
    requires MatchFinder.Longest(t.data, t.base + i, ref, len, t.end, t.maxMatch)
    ensures !Four(t, i, ref)
  {
    hide PricesOkay;
    Differ(t.data, t.base + i, ref, len, 4);
  }

  /** One position that shares four bytes. */
  method CollectOne(t: Task, i: nat, ref: nat, cands: seq<Cand>) returns (r: seq<Cand>, long: bool)
    requires TaskOkay(t) && t.base + i + 4 <= t.end && ref < t.base + i <= ref + Window(t.wlog) && t.maxMatch >= 4
    requires t.data[ref..ref + 4] == t.data[t.base + i..t.base + i + 4]
    requires |cands| < MAX_CAND && CandsOkay(t, i, cands)
    ensures CandsOkay(t, i, r) && |r| <= MAX_CAND && Has(r, t.base + i - ref) && (long ==> Long(r))
    ensures forall off :: Has(cands, off) ==> Has(r, off)
  {
    hide MatchAt, SameBytes, Window, PricesOkay, Has, Long, CandOkay, AddCand, MatchFinder.Longest;
    var pos := t.base + i;
    SameHere(t.data, pos, ref, 4);
    var len := MatchLength(t.data, pos, ref, 4, t.end, t.maxMatch);
    var c := Cand(pos - ref, len);
    CandHere(t, i, c);
    AddOkay(t, i, cands, c);
    forall off | Has(cands, off) || off == c.off ensures Has(AddCand(cands, c), off) {
      AddHas(cands, c, off);
    }
    r, long := AddCand(cands, c), len >= LONG_MATCH;
    if long {
      LongAdded(t, i, cands, c);
    }
  }

  /** Then along the chain; a very long match ends the search. */
  method CollectChain(m: Matcher, t: Task, i: nat, first: seq<Cand>) returns (cands: seq<Cand>)
    requires TaskOkay(t) && Serves(m, t) && t.base + i + 4 <= t.end && CandsOkay(t, i, first) && |first| <= 3
    ensures CandsOkay(t, i, cands) && forall off :: Has(first, off) ==> Has(cands, off)
    ensures forall ref :: ref in m.MainChain(t.data, t.base + i, t.end) && Four(t, i, ref) ==>
              (ref <= t.base + i && Has(cands, t.base + i - ref)) || Long(cands) || |cands| == MAX_CAND
  {
    hide MatchAt, SameBytes, Window, PricesOkay, HashSafe, Four, Has, Long, CandsOkay, Visited;
    var pos := t.base + i;
    cands := first;
    var maxDist := m.MaxDist();
    var limit := if pos <= maxDist then 0 else pos - maxDist;
    var ref, depth := m.table[HashSafe(t.data, pos, t.end)], m.chainDepth;
    ghost var all, seen: seq<nat> := m.MainChain(t.data, pos, t.end), [];
    while limit <= ref < pos && depth > 0 && |cands| < MAX_CAND
      invariant CandsOkay(t, i, cands) && |cands| <= MAX_CAND && forall off :: Has(first, off) ==> Has(cands, off)
      invariant all == seen + Visited(m.chain[..], ref, -1, depth, limit, pos)
      invariant forall r :: r in seen && Four(t, i, r) ==> r <= pos && Has(cands, pos - r)
      decreases depth
    {
      VisitedOne(m.chain[..], ref, -1, depth, limit, pos);
      depth := depth - 1;
      if t.data[ref..ref + 4] == t.data[pos..pos + 4] {
        var long;
        cands, long := CollectOne(t, i, ref, cands);
        if long {
          return;
        }
      } else {
        FourApart(t, i, ref);
      }
      seen, ref := seen + [ref], m.chain[ref % m.chain.Length];
    }
    if |cands| < MAX_CAND {
      VisitedDone(m.chain[..], ref, -1, depth, limit, pos);
      assert seen + [] == seen;
    }
  }

  lemma CandHere(t: Task, i: nat, c: Cand)
    requires TaskOkay(t) && VV_MIN_MATCH <= c.len <= t.maxMatch && 1 <= c.off <= Window(t.wlog)
    requires MatchAt(t.data, t.base + i, c.off, c.len, t.end)
    requires c.off <= t.base + i ==> MatchFinder.Longest(t.data, t.base + i, t.base + i - c.off, c.len, t.end, t.maxMatch)
    ensures CandOkay(t, i, c)
  {
  }

  lemma FourApart(t: Task, i: nat, ref: nat)
    requires TaskOkay(t) && t.base + i + 4 <= t.end && ref < t.base + i
    requires t.data[ref..ref + 4] != t.data[t.base + i..t.base + i + 4]
    ensures !Four(t, i, ref)
  {
  }

  /** What is added is as long as any with its offset, as that is as far as the bytes agree. */
  lemma LongAdded(t: Task, i: nat, cands: seq<Cand>, c: Cand)
    requires TaskOkay(t) && CandOkay(t, i, c) && c.len >= LONG_MATCH && forall k :: 0 <= k < |cands| ==> CandOkay(t, i, cands[k])
    ensures Long(AddCand(cands, c))
  {
    hide MatchAt, PricesOkay;
    forall k | 0 <= k < |cands| && cands[k].off == c.off ensures cands[k].len <= c.len {
      OneLength(t, i, c, cands[k]);
    }
    AddHere(cands, c);
    if c in AddCand(cands, c) {
      var k :| 0 <= k < |AddCand(cands, c)| && AddCand(cands, c)[k] == c;
    } else {
      AddKeepsLong(cands, c);
    }
  }

  lemma {:induction false} AddKeepsLong(cands: seq<Cand>, c: Cand)
    requires Long(cands) && c.len >= LONG_MATCH
    ensures Long(AddCand(cands, c))
    decreases |cands|
  {
    var k :| 0 <= k < |cands| && cands[k].len >= LONG_MATCH;
    var r := AddCand(cands, c);
    if cands[0].off == c.off {
      assert r[k].len >= LONG_MATCH;
    } else if k == 0 {
      assert r[0].len >= LONG_MATCH;
    } else {
      assert cands[1..][k - 1].len >= LONG_MATCH;
      AddKeepsLong(cands[1..], c);
      var l :| 0 <= l < |r| - 1 && AddCand(cands[1..], c)[l].len >= LONG_MATCH;
      assert r[l + 1].len >= LONG_MATCH;
    }
  }

  /** One offset, one length. */
  lemma OneLength(t: Task, i: nat, a: Cand, b: Cand)
    requires TaskOkay(t) && CandOkay(t, i, a) && CandOkay(t, i, b) && a.off == b.off
    ensures a.len >= b.len
  {
    hide PricesOkay;
    SameAt(t.data, t.base + i, t.base + i - a.off, b.len, a.len);
  }

  /** `opt_collect`. */
  method OptCollect(m: Matcher, t: Task, i: nat, rep: Rep, ghost ins: seq<nat>) returns (cands: seq<Cand>)
    requires TaskOkay(t) && Serves(m, t) && InWindow(rep, t.wlog) && m.Keeps(t.data, t.end, ins, t.base + i)
    ensures CandsOkay(t, i, cands) && Collected(t, i, rep, cands, ins)
  {
    hide PricesOkay, Four, Has, Long, CandOkay, Near, Window, Repeats, HashSafe, Chained, Visited;
    if t.base + i + 4 > t.end {
      return [];
    }
    m.NearMain(t.data, t.end, t.base + i, ins);
    var done;
    cands, done := CollectRepeats(m, t, i, rep);
    if !done {
      cands := CollectChain(m, t, i, cands);
    }
  }

  /** The first longest candidate; length 0 when there is none. */
  function Best(cands: seq<Cand>): (c: Cand)
    ensures cands == [] || exists k :: 0 <= k < |cands| && c == cands[k]
  {
    if cands == [] then Cand(0, 0)
    else
      var b := Best(cands[..|cands| - 1]);
      if |cands| == 1 || cands[|cands| - 1].len > b.len then cands[|cands| - 1] else b
  }

  /** The lengths of a candidate that are priced: its longest two, and the shortest ones. */
  predicate PricedLength(len: nat, longest: nat, minMatch: nat) {
    minMatch <= len <= longest && (len + 1 >= longest || len <= minMatch + 8)
  }

  /** The edges tried at a node: the literal, then the long match alone or every candidate at
      every priced length. */
  ghost predicate TriedAll(t: Task, explored: set<Edge>, i: nat, cands: seq<Cand>) {
    && Edge(i, 1, 0) in explored
    && (Best(cands).len >= LONG_MATCH ==> Edge(i, Best(cands).len, Best(cands).off) in explored)
    && (Best(cands).len < LONG_MATCH ==>
          forall k, len :: 0 <= k < |cands| && PricedLength(len, cands[k].len, t.minMatch) ==>
            Edge(i, len, cands[k].off) in explored)
  }

  //////////////////////////////////////////////////////////////////////////////
  // Relaxation in place
  //////////////////////////////////////////////////////////////////////////////

  method Relax(t: Task, dp: array<Node>, e: Edge)
    requires TaskOkay(t) && dp.Length == Size(t) + 1 && ValidEdge(t, e)
    modifies dp
    ensures dp[..] == Relaxed(t, old(dp[..]), e)
  {
    hide ValidEdge, EdgeCost, PricesOkay;
    var n, j := dp[e.from], e.from + e.len;
    var price := n.price + EdgeCost(t, n.rep, e);
    if price < dp[j].price {
      dp[j] := Node(price, e.len, e.off, EdgeRep(n.rep, e.off));
    }
  }

  /** Node `i` is being processed. */
  ghost predicate Active(t: Task, nodes: seq<Node>, seen: set<nat>, explored: set<Edge>, i: nat)
    requires TaskOkay(t)
  {
    && i <= Size(t) && Sound(t, nodes, seen, i) && Settled(t, nodes, explored, i)
    && i in seen && nodes[i].price <= 14 * i && InWindow(nodes[i].rep, t.wlog)
  }

  method Try(t: Task, dp: array<Node>, e: Edge, ghost seen: set<nat>, ghost explored: set<Edge>)
    requires TaskOkay(t) && e.len > 0 && ValidEdge(t, e) && Active(t, dp[..], seen, explored, e.from)
    modifies dp
    ensures Active(t, dp[..], seen, explored + {e}, e.from) && Later(t, old(dp[..]), dp[..], e.from)
    ensures dp[..] == Relaxed(t, old(dp[..]), e)
  {
    hide ValidEdge, EdgeCost, PricesOkay, InWindow, Linked, Settled, Relaxed;
    RelaxLater(t, dp[..], e);
    RelaxSound(t, dp[..], seen, e);
    RelaxSettled(t, dp[..], explored, e);
    Relax(t, dp, e);
  }

  lemma LaterTrans(t: Task, a: seq<Node>, b: seq<Node>, c: seq<Node>, i: nat)
    requires TaskOkay(t) && Later(t, a, b, i) && Later(t, b, c, i)
    ensures Later(t, a, c, i)
  {
    hide PricesOkay;
  }

  lemma CandEdge(t: Task, i: nat, c: Cand, len: nat)
    requires TaskOkay(t) && CandOkay(t, i, c) && t.minMatch <= len <= c.len
    ensures ValidEdge(t, Edge(i, len, c.off))
  {
    hide PricesOkay;
    var p := t.base + i;
    assert t.data[p..p + len] == t.data[p..p + c.len][..len];
    assert t.data[p - c.off..p - c.off + len] == t.data[p - c.off..p - c.off + c.len][..len];
  }

  /** One candidate, from its longest length down, with a jump over the middle lengths. */
  method TryLengths(t: Task, dp: array<Node>, i: nat, c: Cand, ghost seen: set<nat>, ghost explored: set<Edge>)
    returns (ghost tried: set<Edge>)
    requires TaskOkay(t) && CandOkay(t, i, c) && Active(t, dp[..], seen, explored, i)
    modifies dp
    ensures Active(t, dp[..], seen, tried, i) && Later(t, old(dp[..]), dp[..], i) && explored <= tried
    ensures forall len :: PricedLength(len, c.len, t.minMatch) ==> Edge(i, len, c.off) in tried
  {
    hide ValidEdge, EdgeCost, PricesOkay, Active, Later, CandOkay, Relaxed;
    tried := explored;
    var len: int := c.len;
    LaterSelf(t, dp[..], seen, explored, i);
    while len >= t.minMatch
      invariant len <= c.len && explored <= tried
      invariant Active(t, dp[..], seen, tried, i) && Later(t, old(dp[..]), dp[..], i)
      invariant forall l: nat :: l > len && PricedLength(l, c.len, t.minMatch) ==> Edge(i, l, c.off) in tried
    {
      ghost var mid := dp[..];
      CandEdge(t, i, c, len);
      Try(t, dp, Edge(i, len, c.off), seen, tried);
      LaterTrans(t, old(dp[..]), mid, dp[..], i);
      tried := tried + {Edge(i, len, c.off)};
      if len > t.minMatch + 8 && len < c.len {
        len := t.minMatch + 9;
      }
      len := len - 1;
    }
  }

  lemma LaterSelf(t: Task, nodes: seq<Node>, seen: set<nat>, explored: set<Edge>, i: nat)
    requires TaskOkay(t) && Active(t, nodes, seen, explored, i)
    ensures Later(t, nodes, nodes, i)
  {
    hide PricesOkay;
  }

  /** Every candidate at every priced length. */
  method TryCands(t: Task, dp: array<Node>, i: nat, cands: seq<Cand>, ghost seen: set<nat>, ghost explored: set<Edge>)
    returns (ghost tried: set<Edge>)
    requires TaskOkay(t) && CandsOkay(t, i, cands) && Active(t, dp[..], seen, explored, i)
    modifies dp
    ensures Active(t, dp[..], seen, tried, i) && Later(t, old(dp[..]), dp[..], i) && explored <= tried
    ensures forall k, len :: 0 <= k < |cands| && PricedLength(len, cands[k].len, t.minMatch) ==>
              Edge(i, len, cands[k].off) in tried
  {
    hide PricesOkay, Active, Later, CandOkay, PricedLength;
    tried := explored;
    LaterSelf(t, dp[..], seen, explored, i);
    for c := 0 to |cands|
      invariant explored <= tried
      invariant Active(t, dp[..], seen, tried, i) && Later(t, old(dp[..]), dp[..], i)
      invariant forall k, len :: 0 <= k < c && PricedLength(len, cands[k].len, t.minMatch) ==>
                  Edge(i, len, cands[k].off) in tried
    {
      ghost var mid := dp[..];
      tried := TryLengths(t, dp, i, cands[c], seen, tried);
      LaterTrans(t, old(dp[..]), mid, dp[..], i);
    }
  }

  method Longest(cands: seq<Cand>) returns (c: Cand)
    ensures c == Best(cands)
  {
    c := Cand(0, 0);
    for k := 0 to |cands|
      invariant c == Best(cands[..k])
    {
      assert cands[..k + 1][..k] == cands[..k];
      if k == 0 || cands[k].len > c.len {
        c := cands[k];
      }
    }
    assert cands[..|cands|] == cands;
  }

  lemma LongMatchPrice(p: Prices, rep: Rep, off: nat, len: nat)
    requires PricesOkay(p) && len >= LONG_MATCH && off < Pow2(24)
    ensures MatchPrice(p, rep, off, len) <= 14 * len
  {
    hide FloorLog2;
    if off > 0 && FloorLog2(off) >= 24 {
      Pow2Monotone(24, FloorLog2(off));
    }
  }

  lemma LiteralEdge(t: Task, i: nat)
    requires TaskOkay(t) && i < Size(t)
    ensures ValidEdge(t, Edge(i, 1, 0))
    ensures forall rep: Rep :: EdgeCost(t, rep, Edge(i, 1, 0)) <= 14
  {
  }

  lemma RelaxBound(t: Task, nodes: seq<Node>, e: Edge)
    requires TaskOkay(t) && |nodes| == Size(t) + 1 && ValidEdge(t, e)
    requires nodes[e.from].price <= 14 * e.from && EdgeCost(t, nodes[e.from].rep, e) <= 14 * e.len
    ensures Relaxed(t, nodes, e)[e.from + e.len].price <= 14 * (e.from + e.len)
  {
    hide EdgeCost, ValidEdge, PricesOkay;
  }

  /** Where the search goes on: behind a long match, or at the next position. */
  function Next(i: nat, cands: seq<Cand>): nat {
    if Best(cands).len >= LONG_MATCH then i + Best(cands).len else i + 1
  }

  /** Both ends of a long match, or the position alone, are inserted. */
  ghost function NodeInserts(t: Task, i: nat, cands: seq<Cand>): seq<nat> {
    if Best(cands).len >= LONG_MATCH then
      Range(t.base + i, Clip(t.base + i + 3, t.end)) + Range(t.base + Next(i, cands) - 3, Clip(t.base + Next(i, cands), t.end))
    else if t.base + i + 4 <= t.end then [t.base + i]
    else []
  }

  /** The position itself is among them. */
  lemma InsertsNode(t: Task, i: nat, cands: seq<Cand>)
    requires t.base + i + 4 <= t.end && (Best(cands).len >= LONG_MATCH ==> t.base + Next(i, cands) <= t.end)
    ensures t.base + i in NodeInserts(t, i, cands)
  {
  }

  /** Inserts what a node inserts. */
  method InsertNode(m: Matcher, t: Task, i: nat, cands: seq<Cand>, ghost ins: seq<nat>)
    requires TaskOkay(t) && Serves(m, t) && m.Keeps(t.data, t.end, ins, t.base + i)
    modifies m.Tables()
    ensures m.Keeps(t.data, t.end, ins + NodeInserts(t, i, cands), t.base + Next(i, cands))
  {
    hide PricesOkay, Matcher.Keeps, Range, Best;
    var next := Next(i, cands);
    var best := Longest(cands);
    if best.len >= LONG_MATCH {
      m.InsertRange(t.data, t.base + i, t.base + i + 3, t.end, ins);
      ghost var some := ins + Range(t.base + i, Clip(t.base + i + 3, t.end));
      KeepsOn(m, t.data, t.end, some, t.base + i + 3, t.base + next - 3);
      m.InsertRange(t.data, t.base + next - 3, t.base + next, t.end, some);
      assert ins + NodeInserts(t, i, cands) == some + Range(t.base + next - 3, Clip(t.base + next, t.end));
    } else {
      m.Insert(t.data, t.base + i, t.end, ins);
      assert ins + [] == ins;
    }
  }

  /** Tries what was collected. */
  method TryFound(t: Task, dp: array<Node>, i: nat, cands: seq<Cand>, wlog: nat, ghost seen: set<nat>, ghost explored: set<Edge>)
    returns (next: nat, ghost tried: set<Edge>)
    requires TaskOkay(t) && 10 <= t.wlog <= 24 && i < Size(t) && Active(t, dp[..], seen, explored, i) && CandsOkay(t, i, cands)
    requires dp.Length == Size(t) + 1 && dp[i + 1].price <= 14 * (i + 1) && Edge(i, 1, 0) in explored
    modifies dp
    ensures next == Next(i, cands) <= Size(t) && dp[next].price <= 14 * next
    ensures Active(t, dp[..], seen, tried, i) && Later(t, old(dp[..]), dp[..], i) && explored <= tried && TriedAll(t, tried, i, cands)
  {
    hide ValidEdge, EdgeCost, PricesOkay, Active, Later, CandOkay, Relaxed, MatchPrice, Window, PricedLength;
    ActiveMeans(t, dp[..], seen, explored, i);
    LaterSelf(t, dp[..], seen, explored, i);
    var best := Longest(cands);
    if best.len >= LONG_MATCH {
      BestOkay(t, i, cands);
      CandEdge(t, i, best, best.len);
      LongEdge(t, i, best, dp[i].rep);
      RelaxBound(t, dp[..], Edge(i, best.len, best.off));
      next := i + best.len;
      assert next <= Size(t) by { assert ValidEdge(t, Edge(i, best.len, best.off)); }
      Try(t, dp, Edge(i, best.len, best.off), seen, explored);
      tried := explored + {Edge(i, best.len, best.off)};
      assert dp[..][next].price <= 14 * next;
      return;
    }
    next := i + 1;
    ghost var mid := dp[..];
    tried := TryCands(t, dp, i, cands, seen, explored);
    LaterPrice(t, mid, dp[..], i, next);
    assert dp[..][next].price <= 14 * next;
  }

  /** Processes a node that has been reached, and returns the next one to process: the next
      position, or the far end of a long match. That node has then been reached as well. */
  method ProcessNode(m: Matcher, t: Task, dp: array<Node>, i: nat, ghost seen: set<nat>, ghost explored: set<Edge>, ghost ins: seq<nat>)
    returns (next: nat, ghost tried: set<Edge>, ghost cands: seq<Cand>)
    requires TaskOkay(t) && Serves(m, t) && i < Size(t) && Active(t, dp[..], seen, explored, i) && dp !in m.Tables()
    requires m.Keeps(t.data, t.end, ins, t.base + i)
    modifies dp, m.Tables()
    ensures i < next == Next(i, cands) <= Size(t) && dp.Length == Size(t) + 1 && dp[next].price <= 14 * next
    ensures Active(t, dp[..], seen, tried, i) && Later(t, old(dp[..]), dp[..], i) && explored <= tried
    ensures TriedAll(t, tried, i, cands) && CandsOkay(t, i, cands) && Collected(t, i, dp[i].rep, cands, ins)
    ensures m.Keeps(t.data, t.end, ins + NodeInserts(t, i, cands), t.base + next)
  {
    hide ValidEdge, EdgeCost, PricesOkay, Active, Later, CandOkay, Relaxed, MatchPrice, Window, PricedLength, Hash5, HashSafe, Matcher.Keeps,
      Collected, TriedAll, Best, NodeInserts, Repeats, Four;
    tried := explored;
    ActiveMeans(t, dp[..], seen, explored, i);
    LiteralEdge(t, i);
    RelaxBound(t, dp[..], Edge(i, 1, 0));
    Try(t, dp, Edge(i, 1, 0), seen, tried);
    tried := tried + {Edge(i, 1, 0)};
    ActiveMeans(t, dp[..], seen, tried, i);
    assert dp[..][i + 1].price <= 14 * (i + 1);
    ghost var mid := dp[..];
    var found := [];
    if t.base + i + t.minMatch <= t.end {
      found := OptCollect(m, t, i, dp[i].rep, ins);
    } else {
      NoneCollected(t, i, dp[i].rep, ins);
    }
    cands := found;
    next, tried := TryFound(t, dp, i, found, m.wlog, seen, tried);
    LaterTrans(t, old(dp[..]), mid, dp[..], i);
    LaterSame(t, mid, dp[..], i);
    InsertNode(m, t, i, found, ins);
  }

  lemma NoneCollected(t: Task, i: nat, rep: Rep, ins: seq<nat>)
    requires TaskOkay(t) && t.base + i + t.minMatch > t.end
    ensures Collected(t, i, rep, [], ins)
  {
  }

  lemma LaterSame(t: Task, nodes: seq<Node>, now: seq<Node>, i: nat)
    requires TaskOkay(t) && Later(t, nodes, now, i)
    ensures |now| == |nodes| == Size(t) + 1 && forall j :: 0 <= j <= i ==> now[j] == nodes[j]
  {
    hide PricesOkay;
  }

  lemma ActiveMeans(t: Task, nodes: seq<Node>, seen: set<nat>, explored: set<Edge>, i: nat)
    requires TaskOkay(t) && Active(t, nodes, seen, explored, i)
    ensures i <= Size(t) && |nodes| == Size(t) + 1 && nodes[i].price <= 14 * i && InWindow(nodes[i].rep, t.wlog)
  {
    hide PricesOkay;
  }

  lemma BestOkay(t: Task, i: nat, cands: seq<Cand>)
    requires TaskOkay(t) && CandsOkay(t, i, cands) && Best(cands).len > 0
    ensures CandOkay(t, i, Best(cands))
  {
    hide CandOkay, PricesOkay;
  }

  lemma LongEdge(t: Task, i: nat, c: Cand, rep: Rep)
    requires TaskOkay(t) && CandOkay(t, i, c) && c.len >= LONG_MATCH && 10 <= t.wlog <= 24
    requires ValidEdge(t, Edge(i, c.len, c.off))
    ensures EdgeCost(t, rep, Edge(i, c.len, c.off)) <= 14 * c.len
  {
    hide MatchPrice;
    Pow2Monotone(t.wlog, 24);
    LongMatchPrice(t.prices, rep, c.off, c.len);
  }

  lemma LaterPrice(t: Task, nodes: seq<Node>, now: seq<Node>, i: nat, j: nat)
    requires TaskOkay(t) && Later(t, nodes, now, i) && j <= Size(t)
    ensures |now| == |nodes| == Size(t) + 1 && now[j].price <= nodes[j].price
  {
    hide PricesOkay;
  }

  //////////////////////////////////////////////////////////////////////////////
  // The forward pass
  //////////////////////////////////////////////////////////////////////////////

  /** What was found at a node, and the positions inserted before. */
  datatype Search = Search(cands: seq<Cand>, ins: seq<nat>)

  /** What the forward pass leaves: final nodes, the nodes processed, the edges tried, and the search at each processed
      node. */
  datatype Solution = Solution(nodes: seq<Node>, seen: set<nat>, explored: set<Edge>, searches: map<nat, Search>)

  /** At every processed node all that was to be found was found, among the processed positions before it for one, and
      was tried. */
  ghost predicate Explored(t: Task, s: Solution)
    requires TaskOkay(t) && |s.nodes| == Size(t) + 1
  {
    forall i :: i in s.seen ==>
      && i in s.searches && i <= Size(t) && CandsOkay(t, i, s.searches[i].cands) && TriedAll(t, s.explored, i, s.searches[i].cands)
      && Collected(t, i, s.nodes[i].rep, s.searches[i].cands, s.searches[i].ins)
      && Remembers(t, s.searches[i].ins, s.seen, i)
  }

  ghost predicate Remembers(t: Task, ins: seq<nat>, seen: set<nat>, i: nat) {
    forall j :: j in seen && j < i && t.base + j + 4 <= t.end ==> t.base + j in ins
  }

  /** The nodes processed before `i`: from the start, each one the next of another. */
  ghost predicate Passed(s: Solution, i: nat) {
    && (i == 0 || 0 in s.seen)
    && forall j :: j in s.seen ==>
         j < i && j in s.searches && (Next(j, s.searches[j].cands) == i || Next(j, s.searches[j].cands) in s.seen)
  }

  /** Every price is the cost of the path behind it, no tried edge lowers any price, and the end
      has been reached. */
  ghost predicate Solved(t: Task, s: Solution)
    requires TaskOkay(t)
  {
    && Sound(t, s.nodes, s.seen, Size(t)) && Settled(t, s.nodes, s.explored, Size(t)) && Explored(t, s) && Passed(s, Size(t))
    && s.nodes[Size(t)].price <= 14 * Size(t)
  }

  lemma StartSound(t: Task, nodes: seq<Node>)
    requires TaskOkay(t) && |nodes| == Size(t) + 1 && nodes[0] == Node(0, 0, 0, NO_REP)
    requires forall j :: 0 < j <= Size(t) ==> nodes[j] == FAR
    ensures Sound(t, nodes, {}, 0) && Settled(t, nodes, {}, 0)
  {
  }

  /** A reached node can be processed next. */
  lemma Activate(t: Task, nodes: seq<Node>, seen: set<nat>, explored: set<Edge>, from: nat, i: nat)
    requires TaskOkay(t) && Sound(t, nodes, seen, from) && Settled(t, nodes, explored, from)
    requires from <= i <= Size(t) && nodes[i].price <= 14 * i
    ensures Active(t, nodes, seen + {i}, explored, i)
  {
    hide ValidEdge, EdgeCost, PricesOkay;
    forall j | 0 < j <= Size(t) && nodes[j].price < PRICE_INF
      ensures Linked(t, nodes, seen + {i}, j)
    {
      assert Linked(t, nodes, seen, j);
    }
    if i > 0 {
      assert Linked(t, nodes, seen, i);
    }
  }

  lemma ActiveSound(t: Task, nodes: seq<Node>, seen: set<nat>, explored: set<Edge>, i: nat)
    requires TaskOkay(t) && Active(t, nodes, seen, explored, i)
    ensures Sound(t, nodes, seen, i) && Settled(t, nodes, explored, i)
  {
  }

  /** One more node. */
  lemma ExploredMore(t: Task, s: Solution, i: nat, tried: set<Edge>, q: Search, nodes: seq<Node>)
    requires TaskOkay(t) && |s.nodes| == Size(t) + 1 && Explored(t, s) && Passed(s, i) && s.explored <= tried
    requires CandsOkay(t, i, q.cands) && TriedAll(t, tried, i, q.cands) && Later(t, s.nodes, nodes, i)
    requires Collected(t, i, nodes[i].rep, q.cands, q.ins) && Remembers(t, q.ins, s.seen, i)
    ensures var now := Solution(nodes, s.seen + {i}, tried, s.searches[i := q]);
            Explored(t, now) && Passed(now, Next(i, q.cands))
  {
    hide CandsOkay, PricesOkay, Collected, Best;
    var now := Solution(nodes, s.seen + {i}, tried, s.searches[i := q]);
    assert i !in s.seen;
    forall k | k in now.seen
      ensures k in now.searches && k <= Size(t) && CandsOkay(t, k, now.searches[k].cands) && TriedAll(t, tried, k, now.searches[k].cands)
      ensures Collected(t, k, nodes[k].rep, now.searches[k].cands, now.searches[k].ins)
      ensures Remembers(t, now.searches[k].ins, now.seen, k)
    {
    }
  }

  /** Inserting a node keeps what is remembered. */
  lemma RemembersMore(t: Task, ins: seq<nat>, seen: set<nat>, i: nat, cands: seq<Cand>)
    requires TaskOkay(t) && Remembers(t, ins, seen, i) && CandsOkay(t, i, cands) && forall j :: j in seen ==> j < i
    requires Next(i, cands) <= Size(t)
    ensures Remembers(t, ins + NodeInserts(t, i, cands), seen + {i}, Next(i, cands))
  {
    hide PricesOkay, CandOkay, Best;
    if t.base + i + 4 <= t.end {
      InsertsNode(t, i, cands);
    }
  }

  lemma SolvedBy(t: Task, s: Solution, from: nat)
    requires TaskOkay(t) && Sound(t, s.nodes, s.seen, from) && Settled(t, s.nodes, s.explored, from) && from <= Size(t)
    requires Explored(t, s) && Passed(s, Size(t)) && s.nodes[Size(t)].price <= 14 * Size(t)
    ensures Solved(t, s)
  {
    hide PricesOkay, Linked, Explored, Passed, ValidEdge;
  }

  method FillPrices(m: Matcher, t: Task, dp: array<Node>) returns (ghost s: Solution)
    requires TaskOkay(t) && Serves(m, t) && dp.Length == Size(t) + 1 && dp !in m.Tables()
    modifies dp, m.Tables()
    ensures s.nodes == dp[..] && Solved(t, s)
  {
    hide PricesOkay, Active, Explored, TriedAll, CandsOkay, Settled, Solved, Window, Linked, Collected, Remembers, Passed, Matcher.Keeps,
      NodeInserts, Later, Next;
    for k := 0 to dp.Length
      invariant forall j :: 0 <= j < k ==> dp[j] == FAR
    {
      dp[k] := FAR;
    }
    dp[0] := Node(0, 0, 0, NO_REP);
    s := Solution(dp[..], {}, {}, map[]);
    StartSound(t, dp[..]);
    NothingExplored(t, dp[..]);
    KeepsNothing(m, t.data, t.end, t.base);
    var i: nat := 0;
    ghost var last: nat, ins: seq<nat> := 0, [];
    while i < Size(t)
      invariant last <= i <= Size(t) && s.nodes == dp[..]
      invariant Sound(t, dp[..], s.seen, last) && Settled(t, dp[..], s.explored, last)
      invariant Explored(t, s) && Passed(s, i) && Remembers(t, ins, s.seen, i) && m.Keeps(t.data, t.end, ins, t.base + i)
      invariant dp[i].price <= 14 * i
      decreases Size(t) - i
    {
      if dp[i].price >= PRICE_INF {
        assert false;
      }
      Activate(t, dp[..], s.seen, s.explored, last, i);
      var next;
      ghost var tried, cands;
      next, tried, cands := ProcessNode(m, t, dp, i, s.seen + {i}, s.explored, ins);
      ActiveSound(t, dp[..], s.seen + {i}, tried, i);
      ExploredMore(t, s, i, tried, Search(cands, ins), dp[..]);
      PassedBefore(s, i);
      RemembersMore(t, ins, s.seen, i, cands);
      s := Solution(dp[..], s.seen + {i}, tried, s.searches[i := Search(cands, ins)]);
      ins := ins + NodeInserts(t, i, cands);
      last := i;
      i := next;
    }
    SolvedBy(t, s, last);
  }

  lemma PassedBefore(s: Solution, i: nat)
    requires Passed(s, i)
    ensures forall j :: j in s.seen ==> j < i
  {
  }

  lemma NothingExplored(t: Task, nodes: seq<Node>)
    requires TaskOkay(t) && |nodes| == Size(t) + 1
    ensures var s := Solution(nodes, {}, {}, map[]); Explored(t, s) && Passed(s, 0) && Remembers(t, [], {}, 0)
  {
  }

  //////////////////////////////////////////////////////////////////////////////
  // Optimality
  //////////////////////////////////////////////////////////////////////////////

  /** Tried edges leading from `i` to the end of the block. */
  ghost predicate Path(t: Task, s: Solution, path: seq<Edge>, i: nat)
    requires TaskOkay(t)
    decreases |path|
  {
    if path == [] then i == Size(t)
    else path[0] in s.explored && path[0].from == i && Path(t, s, path[1..], i + path[0].len)
  }

  /** Its cost, each edge priced against the history of the best path to where it starts. */
  ghost function PathCost(t: Task, nodes: seq<Node>, path: seq<Edge>): nat
    requires TaskOkay(t) && |nodes| == Size(t) + 1 && forall k :: 0 <= k < |path| ==> ValidEdge(t, path[k])
    decreases |path|
  {
    if path == [] then 0
    else
      assert ValidEdge(t, path[0]);
      EdgeCost(t, nodes[path[0].from].rep, path[0]) + PathCost(t, nodes, path[1..])
  }

  /** No way through the tried edges is cheaper than the price at the end. */
  lemma {:induction false} NoCheaperPath(t: Task, s: Solution, path: seq<Edge>, i: nat)
    requires TaskOkay(t) && Solved(t, s) && i <= Size(t) && Path(t, s, path, i)
    ensures forall k :: 0 <= k < |path| ==> ValidEdge(t, path[k])
    ensures s.nodes[Size(t)].price <= s.nodes[i].price + PathCost(t, s.nodes, path)
    decreases |path|
  {
    hide EdgeCost, PricesOkay, Sound, Explored, Passed, ValidEdge;
    if path != [] {
      assert path[0] in s.explored;
      NoCheaperPath(t, s, path[1..], i + path[0].len);
    }
  }

  //////////////////////////////////////////////////////////////////////////////
  // Backtracking and emission
  //////////////////////////////////////////////////////////////////////////////

  datatype Step = Step(len: nat, off: nat)

  /** `steps`, read backwards, lead from where `ends` stops to the end of the block: step `k` is the
      edge into node `ends[k]`. */
  ghost predicate Trail(t: Task, nodes: seq<Node>, steps: seq<Step>, ends: seq<nat>)
    requires TaskOkay(t)
  {
    && |nodes| == Size(t) + 1 && |ends| == |steps| + 1 && ends[0] == Size(t)
    && (forall k :: 0 <= k < |ends| ==> ends[k] <= Size(t) && nodes[ends[k]].price < PRICE_INF)
    && (forall k :: 0 <= k < |steps| ==>
          && steps[k] == Step(nodes[ends[k]].len, nodes[ends[k]].off)
          && 1 <= steps[k].len <= ends[k] && ends[k + 1] == ends[k] - steps[k].len)
  }

  lemma TrailStart(t: Task, s: Solution)
    requires TaskOkay(t) && Solved(t, s)
    ensures Trail(t, s.nodes, [], [Size(t)])
  {
  }

  lemma TrailGrows(t: Task, s: Solution, steps: seq<Step>, ends: seq<nat>, cur: nat)
    requires TaskOkay(t) && Solved(t, s) && Trail(t, s.nodes, steps, ends) && ends[|steps|] == cur > 0
    ensures cur <= Size(t) && Linked(t, s.nodes, s.seen, cur)
    ensures var n := s.nodes[cur];
            1 <= n.len <= cur && Trail(t, s.nodes, steps + [Step(n.len, n.off)], ends + [cur - n.len])
  {
    hide ValidEdge, EdgeCost, PricesOkay, Settled, Explored, Passed, InWindow;
    assert Linked(t, s.nodes, s.seen, cur);
  }

  method Backtrack(t: Task, dp: array<Node>, ghost s: Solution) returns (steps: seq<Step>, ghost ends: seq<nat>)
    requires TaskOkay(t) && Solved(t, s) && dp[..] == s.nodes
    ensures Trail(t, s.nodes, steps, ends) && ends[|steps|] == 0
  {
    hide PricesOkay, Solved, Linked;
    assert dp.Length == |s.nodes| == Size(t) + 1 by { TrailStart(t, s); }
    var cur := Size(t);
    steps, ends := [], [cur];
    TrailStart(t, s);
    while cur > 0
      invariant Trail(t, s.nodes, steps, ends) && ends[|steps|] == cur <= Size(t)
    {
      TrailGrows(t, s, steps, ends, cur);
      assert dp[cur] == s.nodes[cur];
      var len := if dp[cur].len == 0 then 1 else dp[cur].len;
      steps, ends := steps + [Step(len, dp[cur].off)], ends + [cur - len];
      cur := cur - len;
    }
  }

  /** The emitter stands at node `at`: what it has emitted, with the pending literals, costs the
      node's price and leaves the node's offset history. */
  ghost predicate Standing(t: Task, nodes: seq<Node>, at: nat, lit: nat, seqs: seq<Sequence>)
    requires TaskOkay(t)
  {
    && |nodes| == Size(t) + 1 && at <= Size(t) && t.base <= lit <= t.base + at
    && Covers(t.data, t.base, lit, seqs, t.wlog, t.maxMatch, t.minMatch)
    && nodes[at].price == ParseCost(t.prices, seqs) + LitCost(t.prices, t.data[lit..t.base + at])
    && nodes[at].rep == RepAfter(seqs)
  }

  lemma StandingStart(t: Task, s: Solution)
    requires TaskOkay(t) && Solved(t, s)
    ensures Standing(t, s.nodes, 0, t.base, [])
  {
    hide PricesOkay;
    CoversNothing(t.data, t.base, t.wlog, t.maxMatch, t.minMatch);
    assert t.data[t.base..t.base + 0] == [];
  }

  lemma LitGrows(p: Prices, data: seq<Byte>, lit: nat, pos: nat)
    requires PricesOkay(p) && lit <= pos < |data|
    ensures LitCost(p, data[lit..pos + 1]) == LitCost(p, data[lit..pos]) + p.lit[data[pos]]
  {
    assert data[lit..pos + 1][..pos - lit] == data[lit..pos];
  }

  /** A literal step only lengthens the pending run. */
  lemma StandingLiteral(t: Task, s: Solution, i: nat, lit: nat, seqs: seq<Sequence>)
    requires TaskOkay(t) && i < Size(t) && Standing(t, s.nodes, i, lit, seqs)
    requires Linked(t, s.nodes, s.seen, i + 1) && s.nodes[i + 1].off == 0 && s.nodes[i + 1].len == 1
    ensures Standing(t, s.nodes, i + 1, lit, seqs)
  {
    hide Covers, ParseCost, LitCost, PricesOkay;
    LitGrows(t.prices, t.data, lit, t.base + i);
  }

  /** A match step closes the run. */
  lemma StandingMatch(t: Task, s: Solution, j: nat, lit: nat, seqs: seq<Sequence>)
    requires TaskOkay(t) && |s.nodes| == Size(t) + 1 && 0 < j <= Size(t) && Linked(t, s.nodes, s.seen, j)
    requires s.nodes[j].off > 0 && Standing(t, s.nodes, j - s.nodes[j].len, lit, seqs)
    ensures var n := s.nodes[j];
            var at := t.base + j - n.len;
            && t.minMatch <= n.len <= t.maxMatch && 1 <= n.off <= Window(t.wlog) && at + n.len <= |t.data|
            && Standing(t, s.nodes, j, t.base + j, seqs + [Sequence(t.data[lit..at], n.len, n.off)])
  {
    hide Covers, ParseCost, LitCost, PricesOkay, MatchAt, MatchPrice, RepAfter;
    var n := s.nodes[j];
    var at := t.base + j - n.len;
    MatchInside(t.data, at, n.off, n.len, t.end);
    var one := Sequence(t.data[lit..at], n.len, n.off);
    CoversMatch(t.data, t.base, lit, seqs, t.wlog, t.maxMatch, t.minMatch, at, n.off, n.len, t.end);
    CostAppend(t.prices, seqs, one);
    assert t.data[t.base + j..t.base + j] == [];
    NoLits(t.prices);
  }

  lemma NoLits(p: Prices)
    requires PricesOkay(p)
    ensures LitCost(p, []) == 0
  {
  }

  /** The sequences are those of the best path to node `j`. */
  ghost predicate LeadsTo(t: Task, nodes: seq<Node>, j: nat, seqs: seq<Sequence>)
    requires TaskOkay(t)
  {
    j <= Size(t) && Standing(t, nodes, j, t.base + j, seqs)
  }

  /** Why nothing is returned: there was no room for the last sequence of the best path, which led to node `j`, or for its
      last literals. */
  ghost predicate NoRoom(t: Task, s: Solution, room: nat, seqs: seq<Sequence>)
    requires TaskOkay(t)
  {
    && seqs != []
    && var before, last := seqs[..|seqs| - 1], seqs[|seqs| - 1];
       && |TokenStream(before, OffBytes(t.wlog), t.minMatch)| +
          (if last.matchLen > 0 then NeededMatch(|last.lits|, last.matchLen) else NeededRun(|last.lits|)) > room
       && if last.matchLen > 0 then exists j: nat :: LeadsTo(t, s.nodes, j, seqs)
          else |s.nodes| == Size(t) + 1 && ParseCost(t.prices, seqs) == s.nodes[Size(t)].price
  }

  lemma NoRoomForMatch(t: Task, s: Solution, room: nat, seqs: seq<Sequence>, one: Sequence, j: nat)
    requires TaskOkay(t) && j <= Size(t) && Standing(t, s.nodes, j, t.base + j, seqs + [one]) && one.matchLen > 0
    requires |TokenStream(seqs, OffBytes(t.wlog), t.minMatch)| + NeededMatch(|one.lits|, one.matchLen) > room
    ensures NoRoom(t, s, room, seqs + [one])
  {
    hide Standing, TokenStream, NeededMatch, PricesOkay;
    assert (seqs + [one])[..|seqs|] == seqs;
    assert LeadsTo(t, s.nodes, j, seqs + [one]);
  }

  lemma NoRoomForRun(t: Task, s: Solution, room: nat, seqs: seq<Sequence>, lits: seq<Byte>)
    requires TaskOkay(t) && |s.nodes| == Size(t) + 1 && ParseCost(t.prices, seqs + [Sequence(lits, 0, 0)]) == s.nodes[Size(t)].price
    requires |TokenStream(seqs, OffBytes(t.wlog), t.minMatch)| + NeededRun(|lits|) > room
    ensures NoRoom(t, s, room, seqs + [Sequence(lits, 0, 0)])
  {
    hide TokenStream, NeededRun, PricesOkay, ParseCost;
    assert (seqs + [Sequence(lits, 0, 0)])[..|seqs|] == seqs;
  }

  /** `compress_block_optimal`. A nonzero result is a token block that decodes to the block, and
      its cost, with the wire's own offset histories, is the price at the end, which no way
      through the tried edges undercuts (`NoCheaperPath`). The result is 0 only where there is no room for the best path,
      which takes no more than half as much again as the block. */
  method CompressBlockOptimal(m: Matcher, t: Task, dst: array<Byte>)
    returns (n: nat, ghost seqs: seq<Sequence>, ghost s: Solution)
    requires TaskOkay(t) && Serves(m, t) && dst !in m.Tables()
    modifies m, m.Tables(), dst
    ensures m.Valid() && n <= dst.Length && Solved(t, s)
    ensures n > 0 ==> Encodes(dst[..n], t.data, t.base, t.end, seqs, t.wlog, t.maxMatch, t.minMatch)
    ensures n > 0 ==> ParseCost(t.prices, seqs) == s.nodes[Size(t)].price
    ensures n == 0 ==> NoRoom(t, s, dst.Length, seqs)
    ensures n > 0 ==> dst[..n] == TokenStream(seqs, OffBytes(t.wlog), t.minMatch)
    ensures Roomy(Size(t)) + 2 <= dst.Length ==> n > 0
  {
    hide Roomy, NeededMatch, NeededRun, PricesOkay, Solved, Linked, Trail, Standing, TokenStream, TokenBytes, Encodes, Window, Pow2, ParseCost, LitCost,
      NoRoom;
    var dp := new Node[Size(t) + 1](_ => FAR);
    s := FillPrices(m, t, dp);
    var steps;
    ghost var ends;
    steps, ends := Backtrack(t, dp, s);
    ghost var offBytes := OffBytes(m.wlog);
    var op: nat, lit: nat, pos: nat, k := 0, t.base, t.base, |steps|;
    seqs := [];
    StandingStart(t, s);
    NoTokens(offBytes, t.minMatch);
    TrailShape(t, s.nodes, steps, ends);
    while k > 0
      invariant 0 <= k <= |steps| && Serves(m, t) && op <= dst.Length && t.base <= lit <= pos <= t.end
      invariant pos == t.base + ends[k] && Standing(t, s.nodes, ends[k], lit, seqs)
      invariant dst[..op] == TokenStream(seqs, offBytes, t.minMatch) && op <= Roomy(lit - t.base)
    {
      k := k - 1;
      var len, off := steps[k].len, steps[k].off;
      TrailStep(t, s, steps, ends, k);
      if off == 0 {
        StandingLiteral(t, s, ends[k + 1], lit, seqs);
        pos := pos + 1;
      } else {
        ghost var one := Sequence(t.data[lit..pos], len, off);
        var ok;
        ok, op := PutMatch(t, dst, op, lit, pos, ends[k], s, seqs, len, off);
        if !ok {
          return 0, seqs + [one], s;
        }
        m.UpdateRep(off);
        pos := pos + len;
        lit := pos;
        seqs := seqs + [one];
      }
    }
    StandingEnd(t, s, lit, seqs);
    n := PutLast(t, dst, op, lit, s, seqs);
    seqs := Closed(t.data, lit, t.end, seqs);
  }

  /** A match of the best path, which leads to node `j`, if there is room for its token. */
  method PutMatch(t: Task, dst: array<Byte>, op: nat, lit: nat, pos: nat, ghost j: nat, ghost s: Solution, ghost seqs: seq<Sequence>,
                  len: nat, off: nat)
    returns (ok: bool, next: nat)
    requires TaskOkay(t) && 10 <= t.wlog <= 24 && |s.nodes| == Size(t) + 1 && 0 < j <= Size(t) && Linked(t, s.nodes, s.seen, j)
    requires off > 0 && s.nodes[j].off == off && s.nodes[j].len == len && pos + len == t.base + j && t.base <= lit <= pos
    requires Standing(t, s.nodes, j - len, lit, seqs) && op <= dst.Length && op <= Roomy(lit - t.base)
    requires dst[..op] == TokenStream(seqs, OffBytes(t.wlog), t.minMatch)
    modifies dst
    ensures len >= t.minMatch && 1 <= off <= Window(t.wlog) && (Roomy(Size(t)) + 2 <= dst.Length ==> ok)
    ensures var all := seqs + [Sequence(t.data[lit..pos], len, off)];
            if ok then
              && next <= dst.Length && next <= Roomy(pos + len - t.base) && Standing(t, s.nodes, j, t.base + j, all)
              && dst[..next] == TokenStream(all, OffBytes(t.wlog), t.minMatch)
            else NoRoom(t, s, dst.Length, all)
  {
    hide Roomy, NeededMatch, PricesOkay, Linked, Standing, TokenStream, TokenBytes, Window, Pow2, NoRoom;
    StandingMatch(t, s, j, lit, seqs);
    ghost var one := Sequence(t.data[lit..pos], len, off);
    TokenRoomy(one, OffBytes(t.wlog), t.minMatch, op, lit - t.base);
    RoomyGrows(pos + len - t.base, Size(t));
    if op + NeededMatch(pos - lit, len) > dst.Length {
      NoRoomForMatch(t, s, dst.Length, seqs, one, j);
      return false, op;
    }
    WideOffsets(t.wlog);
    StreamAppend(seqs, one, OffBytes(t.wlog), t.minMatch);
    next := EmitSeq(dst, op, t.data[lit..pos], len, off, OffBytes(t.wlog), t.minMatch);
    ok := true;
  }

  /** Its last literals, if there is room for them. */
  method PutLast(t: Task, dst: array<Byte>, op: nat, lit: nat, ghost s: Solution, ghost seqs: seq<Sequence>) returns (n: nat)
    requires TaskOkay(t) && 10 <= t.wlog <= 24 && |s.nodes| == Size(t) + 1 && t.base <= lit <= t.end && op <= dst.Length
    requires op <= Roomy(lit - t.base) && dst[..op] == TokenStream(seqs, OffBytes(t.wlog), t.minMatch)
    requires Covers(t.data, t.base, lit, seqs, t.wlog, t.maxMatch, t.minMatch)
    requires ParseCost(t.prices, Closed(t.data, lit, t.end, seqs)) == s.nodes[Size(t)].price
    modifies dst
    ensures n <= dst.Length && (Roomy(Size(t)) + 2 <= dst.Length ==> n > 0)
    ensures var all := Closed(t.data, lit, t.end, seqs);
            if n > 0 then
              && Encodes(dst[..n], t.data, t.base, t.end, all, t.wlog, t.maxMatch, t.minMatch)
              && dst[..n] == TokenStream(all, OffBytes(t.wlog), t.minMatch)
            else NoRoom(t, s, dst.Length, all)
  {
    hide Roomy, NeededRun, PricesOkay, TokenStream, TokenBytes, Encodes, Window, Pow2, ParseCost, LitCost, NoRoom, Covers;
    RunRoomy(op, lit - t.base, Size(t));
    if op + NeededRun(t.end - lit) > dst.Length {
      NoRoomForRun(t, s, dst.Length, seqs, t.data[lit..t.end]);
      return 0;
    }
    WideOffsets(t.wlog);
    SomeBytes(Sequence(t.data[lit..t.end], 0, 0), OffBytes(t.wlog), t.minMatch);
    StreamAppend(seqs, Sequence(t.data[lit..t.end], 0, 0), OffBytes(t.wlog), t.minMatch);
    n := EmitSeq(dst, op, t.data[lit..t.end], 0, 0, OffBytes(t.wlog), t.minMatch);
    BlockEncodes(t.data, t.base, lit, t.end, seqs, t.wlog, t.maxMatch, t.minMatch);
  }

  lemma TrailShape(t: Task, nodes: seq<Node>, steps: seq<Step>, ends: seq<nat>)
    requires TaskOkay(t) && Trail(t, nodes, steps, ends)
    ensures |ends| == |steps| + 1 && ends[0] == Size(t)
  {
  }

  lemma TrailStep(t: Task, s: Solution, steps: seq<Step>, ends: seq<nat>, k: nat)
    requires TaskOkay(t) && Solved(t, s) && Trail(t, s.nodes, steps, ends) && k < |steps|
    ensures |ends| == |steps| + 1 && |s.nodes| == Size(t) + 1
    ensures 0 < ends[k] <= Size(t) && ends[k + 1] == ends[k] - steps[k].len && Linked(t, s.nodes, s.seen, ends[k])
    ensures steps[k] == Step(s.nodes[ends[k]].len, s.nodes[ends[k]].off)
    ensures steps[k].off == 0 ==> steps[k].len == 1
  {
    hide EdgeCost, PricesOkay, Settled, Explored, InWindow, MatchAt;
    assert Linked(t, s.nodes, s.seen, ends[k]);
  }

  lemma StandingEnd(t: Task, s: Solution, lit: nat, seqs: seq<Sequence>)
    requires TaskOkay(t) && Standing(t, s.nodes, Size(t), lit, seqs)
    ensures lit <= t.end && Covers(t.data, t.base, lit, seqs, t.wlog, t.maxMatch, t.minMatch)
    ensures ParseCost(t.prices, Closed(t.data, lit, t.end, seqs)) == s.nodes[Size(t)].price
  {
    hide Covers, PricesOkay, LitCost, ParseCost, RepAfter;
    CostAppend(t.prices, seqs, Sequence(t.data[lit..t.end], 0, 0));
  }
}
