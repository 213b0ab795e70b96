/** The tree of src/vv_huffman.c:156-233 takes no more bits than any prefix code. */
module HuffCost {
  import opened Arith
  import opened CodeCost
  import opened HuffTree

  //////////////////////////////////////////////////////////////////////////////
  // What is waiting
  //////////////////////////////////////////////////////////////////////////////

  /** The weights of `w[lo..hi]`. */
  ghost function Part(w: seq<nat>, lo: int, hi: int): seq<nat>
    requires 0 <= lo && hi <= |w|
  {
    if lo >= hi then [] else w[lo..hi]
  }

  /** The weights the two queues hold after `k` picks and `m` merges. */
  ghost function Waits(w: seq<nat>, n: nat, leaves: seq<nat>, k: nat, m: nat): multiset<nat>
    requires k < |leaves| && leaves[k] <= k && leaves[k] <= n && n + m <= |w|
  {
    multiset(Part(w, leaves[k], n)) + multiset(Part(w, n + k - leaves[k], n + m))
  }

  lemma PartFront(w: seq<nat>, lo: nat, hi: nat)
    requires lo < hi <= |w|
    ensures multiset(Part(w, lo, hi)) == Plus(multiset(Part(w, lo + 1, hi)), w[lo])
  {
    assert w[lo..hi] == [w[lo]] + w[lo + 1..hi];
  }

  lemma PartGrows(w: seq<nat>, lo: nat, hi: nat)
    requires lo <= hi < |w|
    ensures multiset(Part(w, lo, hi + 1)) == Plus(multiset(Part(w, lo, hi)), w[hi])
  {
    assert w[lo..hi + 1] == w[lo..hi] + [w[hi]];
  }

  lemma PlusLeft(a: multiset<nat>, b: multiset<nat>, x: nat)
    ensures Plus(a, x) + b == Plus(a + b, x) && a + Plus(b, x) == Plus(a + b, x)
  {
  }

  /** A pick takes its node out. */
  lemma PickOut(w: seq<nat>, n: nat, leaves: seq<nat>, picks: nat, k: nat, m: nat)
    requires PickOrder(n, leaves, picks) && k < picks && n + m <= |w| && k / 2 <= m
    ensures 0 <= Pick(n, leaves, k) < |w|
    ensures Waits(w, n, leaves, k, m) == Plus(Waits(w, n, leaves, k + 1, m), w[Pick(n, leaves, k)])
  {
    hide Plus, Part;
    if leaves[k + 1] > leaves[k] {
      assert leaves[k + 1] <= n;
      PartFront(w, leaves[k], n);
      PlusLeft(multiset(Part(w, leaves[k] + 1, n)), multiset(Part(w, n + k - leaves[k], n + m)), w[leaves[k]]);
    } else {
      PartFront(w, n + k - leaves[k], n + m);
      PlusLeft(multiset(Part(w, leaves[k], n)), multiset(Part(w, n + k - leaves[k] + 1, n + m)), w[n + k - leaves[k]]);
    }
  }

  /** A merge puts its node in. */
  lemma MergeIn(w: seq<nat>, n: nat, leaves: seq<nat>, picks: nat, k: nat, m: nat)
    requires PickOrder(n, leaves, picks) && 0 < k <= picks && n + m < |w| && (k - 1) / 2 <= m
    ensures Waits(w, n, leaves, k, m + 1) == Plus(Waits(w, n, leaves, k, m), w[n + m])
  {
    hide Plus, Part;
    PartGrows(w, n + k - leaves[k], n + m);
    PlusLeft(multiset(Part(w, leaves[k], n)), multiset(Part(w, n + k - leaves[k], n + m)), w[n + m]);
  }

  lemma InPart(w: seq<nat>, lo: int, hi: int, y: nat) returns (x: nat)
    requires 0 <= lo && hi <= |w| && y in multiset(Part(w, lo, hi))
    ensures lo <= x < hi && w[x] == y
  {
    assert y in Part(w, lo, hi);
    var i :| 0 <= i < |Part(w, lo, hi)| && Part(w, lo, hi)[i] == y;
    x := lo + i;
  }

  /** What waits is picked later, and is not lighter. */
  lemma LeafLater(n: nat, leaves: seq<nat>, w: seq<nat>, par: seq<int>, k: nat, x: nat)
    requires Complete(n, leaves, w, par) && k < 2 * (n - 1) && |leaves| == 2 * n - 1 && leaves[k] <= x < n
    ensures 0 <= Pick(n, leaves, k) < |w| && w[Pick(n, leaves, k)] <= w[x]
  {
    hide Tree, Pick;
    TreeOrder(n, leaves, w, par);
    var l := LeafPicked(n, leaves, 2 * (n - 1), x);
    if l < k {
      LeafBefore(n, leaves, 2 * (n - 1), l, k);
    }
    PickedLater(n, leaves, w, par, k, l);
  }

  lemma LeafBefore(n: nat, leaves: seq<nat>, picks: nat, l: nat, k: nat)
    requires PickOrder(n, leaves, picks) && l < k <= picks
    ensures Pick(n, leaves, l) < n ==> Pick(n, leaves, l) < leaves[k]
    ensures Pick(n, leaves, l) >= n ==> Pick(n, leaves, l) < n + k - leaves[k]
  {
    LeavesAscend(n, leaves, picks, l + 1, k);
  }

  lemma InnerLater(n: nat, leaves: seq<nat>, w: seq<nat>, par: seq<int>, k: nat, x: nat)
    requires Complete(n, leaves, w, par) && k < 2 * (n - 1) && |leaves| == 2 * n - 1
    requires leaves[k] <= k && n + k - leaves[k] <= x < 2 * n - 2
    ensures 0 <= Pick(n, leaves, k) < |w| && w[Pick(n, leaves, k)] <= w[x]
  {
    hide Tree, Pick;
    TreeOrder(n, leaves, w, par);
    var l := InnerPicked(n, leaves, 2 * (n - 1), x - n);
    if l < k {
      LeafBefore(n, leaves, 2 * (n - 1), l, k);
    }
    PickedLater(n, leaves, w, par, k, l);
  }

  lemma PickLightest(n: nat, leaves: seq<nat>, w: seq<nat>, par: seq<int>, k: nat)
    requires Complete(n, leaves, w, par) && k < 2 * (n - 1)
    ensures n + k / 2 <= |w| && k < |leaves| && leaves[k] <= k && leaves[k] <= n && 0 <= Pick(n, leaves, k) < |w|
    ensures Least(w[Pick(n, leaves, k)], Waits(w, n, leaves, k, k / 2))
  {
    hide Tree, Pick, Part, Plus, Complete;
    CompleteShape(n, leaves, w, par);
    TreeOrder(n, leaves, w, par);
    PickOut(w, n, leaves, 2 * (n - 1), k, k / 2);
    PlusHas(Waits(w, n, leaves, k + 1, k / 2), w[Pick(n, leaves, k)]);
    forall y | y in Waits(w, n, leaves, k, k / 2)
      ensures w[Pick(n, leaves, k)] <= y
    {
      if y in multiset(Part(w, leaves[k], n)) {
        var x := InPart(w, leaves[k], n, y);
        LeafLater(n, leaves, w, par, k, x);
      } else {
        var x := InPart(w, n + k - leaves[k], n + k / 2, y);
        InnerLater(n, leaves, w, par, k, x);
      }
    }
  }

  lemma PlusHas(m: multiset<nat>, x: nat)
    ensures x in Plus(m, x)
  {
  }

  lemma CompleteShape(n: nat, leaves: seq<nat>, w: seq<nat>, par: seq<int>)
    requires Complete(n, leaves, w, par)
    ensures n >= 2 && |w| == 2 * n - 1 && |leaves| == 2 * n - 1
    ensures forall i :: 0 <= i < n - 1 ==>
              && 0 <= Pick(n, leaves, 2 * i) < |w| && 0 <= Pick(n, leaves, 2 * i + 1) < |w|
              && w[n + i] == w[Pick(n, leaves, 2 * i)] + w[Pick(n, leaves, 2 * i + 1)]
  {
    hide Pick;
    assert Sums(n, leaves, w, n - 1);
  }

  //////////////////////////////////////////////////////////////////////////////
  // Every merge is one no code can save
  //////////////////////////////////////////////////////////////////////////////

  lemma {:induction false} MergesNeeded(n: nat, leaves: seq<nat>, w: seq<nat>, par: seq<int>, m: nat)
    requires Complete(n, leaves, w, par) && m <= n - 1
    ensures |w| == |leaves| == 2 * n - 1 && leaves[0] == 0 && leaves[2 * m] <= 2 * m && leaves[2 * m] <= n
    ensures Steps(Waits(w, n, leaves, 0, 0), Waits(w, n, leaves, 2 * m, m), Range(w, n, n + m))
    decreases m
  {
    hide Tree, Pick, Waits, Plus, Steps, Least, Complete;
    CompleteShape(n, leaves, w, par);
    TreeOrder(n, leaves, w, par);
    if m == 0 {
      StepsNone(Waits(w, n, leaves, 0, 0));
    } else {
      var i, k := m - 1, 2 * (m - 1);
      MergesNeeded(n, leaves, w, par, i);
      var x, y := w[Pick(n, leaves, k)], w[Pick(n, leaves, k + 1)];
      PickOut(w, n, leaves, 2 * (n - 1), k, i);
      PickOut(w, n, leaves, 2 * (n - 1), k + 1, i);
      MergeIn(w, n, leaves, 2 * (n - 1), k + 2, i);
      PickLightest(n, leaves, w, par, k);
      PickLightest(n, leaves, w, par, k + 1);
      StepsJoin(Waits(w, n, leaves, k + 2, i), x, y);
      assert w[n + i] == x + y;
      StepsOn(Waits(w, n, leaves, 0, 0), Waits(w, n, leaves, k, i), Waits(w, n, leaves, k + 2, m), Range(w, n, n + i), x + y);
    }
  }

  /** No prefix code for the leaves takes fewer bits than the inner nodes weigh. */
  lemma InnerNeeded(n: nat, leaves: seq<nat>, w: seq<nat>, par: seq<int>)
    requires Complete(n, leaves, w, par)
    ensures |w| == 2 * n - 1 && AtLeast(multiset(w[..n]), Range(w, n, 2 * n - 1))
  {
    hide Tree, Pick, Steps, AtLeast, Complete;
    CompleteShape(n, leaves, w, par);
    MergesNeeded(n, leaves, w, par, n - 1);
    assert w[0..n] == w[..n];
    assert Waits(w, n, leaves, 0, 0) == multiset(w[..n]);
    StepsEnd(Waits(w, n, leaves, 0, 0), Waits(w, n, leaves, 2 * (n - 1), n - 1), Range(w, n, 2 * n - 1));
  }

  //////////////////////////////////////////////////////////////////////////////
  // The depths cost as much
  //////////////////////////////////////////////////////////////////////////////

  ghost function Bits(w: seq<nat>, dep: seq<nat>): (r: seq<nat>)
    requires |w| == |dep|
    ensures |r| == |w|
  {
    seq(|w|, x requires 0 <= x < |w| => w[x] * dep[x])
  }

  /** A merge raises its two nodes by one bit. */
  lemma BitsSplit(n: nat, leaves: seq<nat>, w: seq<nat>, par: seq<int>, dep: seq<nat>, i: nat)
    requires Complete(n, leaves, w, par) && Depths(n, par, dep) && i + 1 < n
    ensures |w| == |dep| == 2 * n - 1 && 0 <= Pick(n, leaves, 2 * i) < |w| && 0 <= Pick(n, leaves, 2 * i + 1) < |w|
    ensures var g := Bits(w, dep); g[n + i] + w[n + i] == g[Pick(n, leaves, 2 * i)] + g[Pick(n, leaves, 2 * i + 1)]
  {
    hide Tree, Pick, Complete, Depths, Bits;
    CompleteShape(n, leaves, w, par);
    DepthShape(n, par, dep);
    Family(n, leaves, w, par, dep, 2 * i);
    Family(n, leaves, w, par, dep, 2 * i + 1);
    var x: nat, y: nat := Pick(n, leaves, 2 * i), Pick(n, leaves, 2 * i + 1);
    assert dep[x] == dep[n + i] + 1 && dep[y] == dep[n + i] + 1 && w[n + i] == w[x] + w[y];
    OneMore(w[x], w[y], dep[n + i]);
    BitsAt(w, dep, x);
    BitsAt(w, dep, y);
    BitsAt(w, dep, n + i);
  }

  lemma BitsAt(w: seq<nat>, dep: seq<nat>, x: nat)
    requires x < |w| == |dep|
    ensures Bits(w, dep)[x] == w[x] * dep[x]
  {
  }

  lemma OneMore(a: nat, b: nat, d: nat)
    ensures (a + b) * d + (a + b) == a * (d + 1) + b * (d + 1)
  {
  }

  lemma {:induction false} BitsWait(n: nat, leaves: seq<nat>, w: seq<nat>, par: seq<int>, dep: seq<nat>, m: nat)
    requires Complete(n, leaves, w, par) && Depths(n, par, dep) && m <= n - 1
    ensures |w| == |dep| == |leaves| == 2 * n - 1 && leaves[2 * m] <= 2 * m && leaves[2 * m] <= n && leaves[0] == 0
    ensures Waiting(Bits(w, dep), n, leaves, 2 * m, m) + Range(w, n, n + m) == Range(Bits(w, dep), 0, n)
    decreases m
  {
    hide Tree, Pick, Complete, Bits, Depths;
    CompleteShape(n, leaves, w, par);
    DepthShape(n, par, dep);
    TreeOrder(n, leaves, w, par);
    if m > 0 {
      var i, k, g := m - 1, 2 * (m - 1), Bits(w, dep);
      BitsWait(n, leaves, w, par, dep, i);
      BitsSplit(n, leaves, w, par, dep, i);
      PickTakes(g, n, leaves, 2 * (n - 1), k, i);
      PickTakes(g, n, leaves, 2 * (n - 1), k + 1, i);
    }
  }

  lemma DepthShape(n: nat, par: seq<int>, dep: seq<nat>)
    requires Depths(n, par, dep)
    ensures |dep| == 2 * n - 1 && dep[2 * n - 2] == 0
  {
  }

  lemma {:induction false} CostIs(w: seq<nat>, dep: seq<nat>, k: nat)
    requires |w| == |dep| && k <= |w|
    ensures Cost(w[..k], dep[..k]) == Range(Bits(w, dep), 0, k)
    decreases k
  {
    if k > 0 {
      CostIs(w, dep, k - 1);
      assert w[..k] == w[..k - 1] + [w[k - 1]] && dep[..k] == dep[..k - 1] + [dep[k - 1]];
      CostAppend(w[..k - 1], dep[..k - 1], w[k - 1], dep[k - 1]);
    }
  }

  /** The leaves at their depths take no more bits than any prefix code. */
  lemma TreeCheapest(n: nat, leaves: seq<nat>, w: seq<nat>, par: seq<int>, dep: seq<nat>)
    requires Complete(n, leaves, w, par) && Depths(n, par, dep)
    ensures |w| == |dep| == 2 * n - 1 && AtLeast(multiset(w[..n]), Cost(w[..n], dep[..n]))
  {
    hide Tree, Pick, Complete, Bits, Depths, AtLeast, Cost;
    CompleteShape(n, leaves, w, par);
    DepthShape(n, par, dep);
    TreeOrder(n, leaves, w, par);
    BitsWait(n, leaves, w, par, dep, n - 1);
    LastWaits(n, leaves, w, par, dep);
    CostIs(w, dep, n);
    InnerNeeded(n, leaves, w, par);
  }

  /** In the end the root waits, at depth zero. */
  lemma LastWaits(n: nat, leaves: seq<nat>, w: seq<nat>, par: seq<int>, dep: seq<nat>)
    requires Complete(n, leaves, w, par) && Depths(n, par, dep)
    ensures |w| == |dep| == |leaves| == 2 * n - 1 && leaves[2 * (n - 1)] == n
    ensures Waiting(Bits(w, dep), n, leaves, 2 * (n - 1), n - 1) == 0
  {
    hide Tree, Pick;
    var k, g := 2 * (n - 1), Bits(w, dep);
    TreeOrder(n, leaves, w, par);
    assert n + k - leaves[k] == 2 * n - 2 && n + (n - 1) == 2 * n - 1;
    assert Range(g, n, n) == 0;
    assert Range(g, 2 * n - 2, 2 * n - 1) == Range(g, 2 * n - 2, 2 * n - 2) + g[2 * n - 2];
  }
}
