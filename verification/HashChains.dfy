/** Hash chains: a table of bucket heads and a ring of links, into which positions are inserted in ascending order
    (src/vv_encoder.c:466-518, src/zupt_lz.c, src/zupt_lzh.c). A walk along a chain meets the positions inserted last
    with the same hash, newest first, whatever the tables held before. */
module HashChains {
  import Arith
  /** A chain from `root`: at most `depth` positions in `limit..pos`, each linked from the one before; `none` ends it. */
  ghost function Visited(links: seq<int>, root: int, none: int, depth: nat, limit: nat, pos: nat): seq<nat>
    requires links != []
    decreases depth
  {
    if depth == 0 || root == none || !(limit <= root < pos) then []
    else [root] + Visited(links, links[root % |links|], none, depth - 1, limit, pos)
  }

  lemma VisitedOne(links: seq<int>, ref: int, none: int, depth: nat, limit: nat, pos: nat)
    requires links != [] && depth > 0 && limit <= ref < pos && ref != none
    ensures Visited(links, ref, none, depth, limit, pos) == [ref] + Visited(links, links[ref % |links|], none, depth - 1, limit, pos)
  {
  }

  lemma VisitedDone(links: seq<int>, ref: int, none: int, depth: nat, limit: nat, pos: nat)
    requires links != [] && (depth == 0 || !(limit <= ref < pos))
    ensures Visited(links, ref, none, depth, limit, pos) == []
  {
  }

  lemma VisitedEnds(links: seq<int>, none: int, depth: nat, limit: nat, pos: nat)
    requires links != []
    ensures Visited(links, -1, none, depth, limit, pos) == Visited(links, none, none, depth, limit, pos) == []
  {
  }

  //////////////////////////////////////////////////////////////////////////////
  // Positions inserted
  //////////////////////////////////////////////////////////////////////////////

  /** `hs` gives the hash of every position that can be inserted; `ins` are those that were, in order. */
  ghost predicate InOrder(hs: seq<nat>, ins: seq<nat>, lim: nat) {
    && (forall k :: 0 <= k < |ins| ==> ins[k] < lim && ins[k] < |hs|)
    && (forall i, k :: 0 <= i < k < |ins| ==> ins[i] < ins[k])
  }

  /** The last of the first `n` insertions with hash `h`, or -1. */
  ghost function Last(hs: seq<nat>, ins: seq<nat>, n: nat, h: nat): (k: int)
    requires n <= |ins| && forall i :: 0 <= i < |ins| ==> ins[i] < |hs|
    ensures -1 <= k < n
    ensures k >= 0 ==> hs[ins[k]] == h && forall i :: k < i < n ==> hs[ins[i]] != h
    ensures k < 0 ==> forall i :: 0 <= i < n ==> hs[ins[i]] != h
  {
    if n == 0 then -1 else if hs[ins[n - 1]] == h then n - 1 else Last(hs, ins, n - 1, h)
  }

  /** At most `depth` of them, newest first, none before `limit`. */
  ghost function Recent(hs: seq<nat>, ins: seq<nat>, n: nat, h: nat, depth: nat, limit: nat): (r: seq<nat>)
    requires n <= |ins| && forall i :: 0 <= i < |ins| ==> ins[i] < |hs|
    decreases depth
  {
    var k := Last(hs, ins, n, h);
    if depth == 0 || k < 0 || ins[k] < limit then [] else [ins[k]] + Recent(hs, ins, k, h, depth - 1, limit)
  }

  /** How many of the insertions `k..n` have hash `h`. */
  ghost function Between(hs: seq<nat>, ins: seq<nat>, k: nat, n: nat, h: nat): nat
    requires k <= n <= |ins| && forall i :: 0 <= i < |ins| ==> ins[i] < |hs|
  {
    if k == n then 0 else Between(hs, ins, k, n - 1, h) + (if hs[ins[n - 1]] == h then 1 else 0)
  }

  lemma {:induction false} BetweenOne(hs: seq<nat>, ins: seq<nat>, k: nat, l: nat, n: nat, h: nat)
    requires k <= l < n <= |ins| && forall i :: 0 <= i < |ins| ==> ins[i] < |hs|
    requires hs[ins[l]] == h && forall i :: l < i < n ==> hs[ins[i]] != h
    ensures Between(hs, ins, k, n, h) == Between(hs, ins, k, l, h) + 1
    decreases n
  {
    if l < n - 1 {
      BetweenOne(hs, ins, k, l, n - 1, h);
    }
  }

  /** Exactly those: an insertion with the hash, not before the limit, with fewer than `depth` newer ones. */
  lemma {:induction false} RecentMeans(hs: seq<nat>, ins: seq<nat>, n: nat, h: nat, depth: nat, limit: nat, k: nat)
    requires InOrder(hs, ins, |hs|) && k < n <= |ins|
    ensures ins[k] in Recent(hs, ins, n, h, depth, limit) <==>
            hs[ins[k]] == h && limit <= ins[k] && Between(hs, ins, k + 1, n, h) < depth
    decreases depth
  {
    var l := Last(hs, ins, n, h);
    if l < k {
      RecentOlder(hs, ins, n, h, depth, limit, k);
    } else if depth > 0 {
      assert hs[ins[l]] == h;
      if l == k {
        NoneBetween(hs, ins, k + 1, n, h);
      } else {
        BetweenOne(hs, ins, k + 1, l, n, h);
        RecentMeans(hs, ins, l, h, depth - 1, limit, k);
      }
    }
  }

  lemma {:induction false} NoneBetween(hs: seq<nat>, ins: seq<nat>, k: nat, n: nat, h: nat)
    requires k <= n <= |ins| && forall i :: 0 <= i < |ins| ==> ins[i] < |hs|
    requires forall i :: k <= i < n ==> hs[ins[i]] != h
    ensures Between(hs, ins, k, n, h) == 0
    decreases n
  {
    if k < n {
      NoneBetween(hs, ins, k, n - 1, h);
    }
  }

  /** Nothing behind the last insertion with the hash. */
  lemma {:induction false} RecentOlder(hs: seq<nat>, ins: seq<nat>, n: nat, h: nat, depth: nat, limit: nat, k: nat)
    requires InOrder(hs, ins, |hs|) && n <= |ins| && k < |ins| && Last(hs, ins, n, h) < k
    ensures ins[k] !in Recent(hs, ins, n, h, depth, limit)
    decreases depth
  {
    var l := Last(hs, ins, n, h);
    if depth > 0 && l >= 0 {
      assert ins[l] < ins[k];
      RecentOlder(hs, ins, l, h, depth - 1, limit, k);
    }
  }

  /** Heads and the links of the last insertions, as many as the ring has places for, lead to the insertion before with
      the same hash. Where there is none before, nothing is known. */
  ghost predicate Chained(hs: seq<nat>, ht: seq<int>, ch: seq<int>, ins: seq<nat>, lim: nat) {
    && InOrder(hs, ins, lim) && ch != []
    && (forall h: nat :: h < |ht| ==> Heads(hs, ht, ins, h))
    && (forall k: nat :: k < |ins| && lim <= ins[k] + |ch| ==> Links(hs, ch, ins, k))
  }

  ghost predicate Heads(hs: seq<nat>, ht: seq<int>, ins: seq<nat>, h: nat)
    requires h < |ht| && forall i :: 0 <= i < |ins| ==> ins[i] < |hs|
  {
    var k := Last(hs, ins, |ins|, h);
    k >= 0 ==> ht[h] == ins[k]
  }

  ghost predicate Links(hs: seq<nat>, ch: seq<int>, ins: seq<nat>, k: nat)
    requires ch != [] && k < |ins| && forall i :: 0 <= i < |ins| ==> ins[i] < |hs|
  {
    var l := Last(hs, ins, k, hs[ins[k]]);
    l >= 0 ==> ch[ins[k] % |ch|] == ins[l]
  }

  lemma ChainedNothing(hs: seq<nat>, ht: seq<int>, ch: seq<int>, lim: nat)
    requires ch != []
    ensures Chained(hs, ht, ch, [], lim)
  {
  }

  lemma ChainedLater(hs: seq<nat>, ht: seq<int>, ch: seq<int>, ins: seq<nat>, lim: nat, later: nat)
    requires Chained(hs, ht, ch, ins, lim) && lim <= later
    ensures Chained(hs, ht, ch, ins, later)
  {
    hide Heads, Links;
  }

  lemma {:induction false} SameLast(hs: seq<nat>, ins: seq<nat>, more: seq<nat>, n: nat, h: nat)
    requires n <= |ins| <= |more| && more[..|ins|] == ins && forall i :: 0 <= i < |more| ==> more[i] < |hs|
    ensures (forall i :: 0 <= i < |ins| ==> ins[i] < |hs|) && Last(hs, more, n, h) == Last(hs, ins, n, h)
  {
    assert forall i :: 0 <= i < |ins| ==> ins[i] == more[i];
    if n > 0 {
      SameLast(hs, ins, more, n - 1, h);
    }
  }

  lemma Apart(r: nat, p: nat, w: nat)
    requires r < p < r + w
    ensures r % w != p % w
  {
    var q := p / w - r / w;
    assert q * w == p - r - (p % w - r % w);
    Arith.MulSign(q, w);
  }

  /** One more insertion, which takes the head's place and links to it. */
  lemma ChainedInsert(hs: seq<nat>, ht: seq<int>, ch: seq<int>, ins: seq<nat>, lim: nat, p: nat)
    requires Chained(hs, ht, ch, ins, lim) && lim <= p < |hs| && hs[p] < |ht|
    ensures Chained(hs, ht[hs[p] := p], ch[p % |ch| := ht[hs[p]]], ins + [p], p + 1)
  {
    var now, ht', ch' := ins + [p], ht[hs[p] := p], ch[p % |ch| := ht[hs[p]]];
    assert now[..|ins|] == ins;
    forall h: nat | h < |ht'| ensures Heads(hs, ht', now, h) {
      if h != hs[p] {
        SameLast(hs, ins, now, |ins|, h);
        assert Heads(hs, ht, ins, h);
      }
    }
    forall k: nat | k < |now| && p + 1 <= now[k] + |ch'| ensures Links(hs, ch', now, k) {
      SameLast(hs, ins, now, k, hs[now[k]]);
      if k < |ins| {
        Apart(ins[k], p, |ch|);
        assert Links(hs, ch, ins, k);
      } else {
        assert Heads(hs, ht, ins, hs[p]);
      }
    }
  }

  /** A walk meets them. */
  lemma {:induction false} RecentVisited(hs: seq<nat>, ht: seq<int>, ch: seq<int>, ins: seq<nat>, lim: nat, n: nat, h: nat, root: int,
                                         none: int, depth: nat, low: nat, limit: nat, pos: nat)
    requires Chained(hs, ht, ch, ins, lim) && lim <= pos <= limit + |ch| && low <= limit && n <= |ins|
    requires Last(hs, ins, n, h) >= 0 ==> root == ins[Last(hs, ins, n, h)]
    requires forall k :: 0 <= k < |ins| ==> ins[k] != none
    ensures Recent(hs, ins, n, h, depth, limit) <= Visited(ch, root, none, depth, low, pos)
    decreases depth
  {
    var k := Last(hs, ins, n, h);
    if depth > 0 && k >= 0 && ins[k] >= limit {
      assert Links(hs, ch, ins, k);
      RecentVisited(hs, ht, ch, ins, lim, k, h, ch[ins[k] % |ch|], none, depth - 1, low, limit, pos);
    }
  }
}
