/** The two-queue Huffman tree of `build_code_lengths` (src/vv_huffman.c:156-233). */
module HuffTree {
  import opened Arith
  import opened Bits

  //////////////////////////////////////////////////////////////////////////////
  // Sorting
  //////////////////////////////////////////////////////////////////////////////

  /** A symbol and the key it is sorted by. */
  datatype Item = Item(key: nat, sym: nat)

  ghost function Keys(items: seq<Item>): (r: seq<nat>)
    ensures |r| == |items|
  {
    seq(|items|, i requires 0 <= i < |items| => items[i].key)
  }

  ghost predicate Sorted(s: seq<Item>) {
    forall i, j :: 0 <= i < j < |s| ==> s[i].key <= s[j].key
  }

  /** `now` is `prev` with `x` sorted in. */
  ghost predicate SortedIn(prev: seq<Item>, x: Item, now: seq<Item>) {
    Sorted(now) && multiset(now) == multiset(prev + [x])
  }

  lemma Inserted(prev: seq<Item>, k: nat, x: Item)
    requires k <= |prev| && Sorted(prev)
    requires forall i :: k <= i < |prev| ==> prev[i].key > x.key
    requires k > 0 ==> prev[k - 1].key <= x.key
    ensures SortedIn(prev, x, prev[..k] + [x] + prev[k..])
  {
    InsertedSame(prev, k, x);
    forall i, j | 0 <= i < j <= |prev|
      ensures (prev[..k] + [x] + prev[k..])[i].key <= (prev[..k] + [x] + prev[k..])[j].key
    {
      hide SortedIn;
      InsertedAt(prev, k, x, i);
      InsertedAt(prev, k, x, j);
    }
  }

  lemma InsertedSame(prev: seq<Item>, k: nat, x: Item)
    requires k <= |prev|
    ensures multiset(prev[..k] + [x] + prev[k..]) == multiset(prev + [x])
  {
    assert prev == prev[..k] + prev[k..];
  }

  lemma InsertedAt(prev: seq<Item>, k: nat, x: Item, i: nat)
    requires k <= |prev| && i <= |prev|
    ensures (prev[..k] + [x] + prev[k..])[i] == if i < k then prev[i] else if i == k then x else prev[i - 1]
  {
  }

  /** `prev` with room made at `j`: its tail has moved up by one. */
  ghost predicate Shifted(prev: seq<Item>, now: seq<Item>, j: nat) {
    j <= |prev| < |now| && now[..j] == prev[..j] && now[j + 1..|prev| + 1] == prev[j..]
  }

  lemma ShiftOne(prev: seq<Item>, now: seq<Item>, j: nat)
    requires 0 < j && Shifted(prev, now, j)
    ensures now[j - 1] == prev[j - 1]
    ensures Shifted(prev, now[j := now[j - 1]], j - 1)
  {
    var next := now[j := now[j - 1]];
    assert now[j - 1] == now[..j][j - 1];
    assert next[j..|prev| + 1] == [prev[j - 1]] + now[j + 1..|prev| + 1];
    assert next[..j - 1] == now[..j][..j - 1] && prev[..j - 1] == prev[..j][..j - 1];
  }

  lemma ShiftFilled(prev: seq<Item>, now: seq<Item>, j: nat, x: Item)
    requires Shifted(prev, now, j)
    ensures now[j := x][..|prev| + 1] == prev[..j] + [x] + prev[j..]
  {
    var r := now[j := x];
    assert r[..|prev| + 1] == r[..j] + [r[j]] + r[j + 1..|prev| + 1];
  }

  /** `x` has sunk to `j`: what it has passed is above it. */
  ghost predicate Sinking(prev: seq<Item>, x: Item, rest: seq<Item>, now: seq<Item>, j: nat) {
    && Sorted(prev) && Shifted(prev, now, j) && now[|prev| + 1..] == rest
    && forall k :: j <= k < |prev| ==> prev[k].key > x.key
  }

  lemma SinkStart(now: seq<Item>, i: nat)
    requires i < |now| && Sorted(now[..i])
    ensures Sinking(now[..i], now[i], now[i + 1..], now, i)
  {
  }

  lemma SinkStep(prev: seq<Item>, x: Item, rest: seq<Item>, now: seq<Item>, j: nat)
    requires Sinking(prev, x, rest, now, j) && 0 < j < |now| && now[j - 1].key > x.key
    ensures Sinking(prev, x, rest, now[j := now[j - 1]], j - 1)
  {
    hide Sorted, Shifted;
    ShiftOne(prev, now, j);
    ShiftedRoom(prev, now, j);
    assert now[j := now[j - 1]][|prev| + 1..] == now[|prev| + 1..];
  }

  lemma ShiftedRoom(prev: seq<Item>, now: seq<Item>, j: nat)
    requires Shifted(prev, now, j)
    ensures j <= |prev| < |now|
  {
  }

  lemma SinkEnd(prev: seq<Item>, x: Item, rest: seq<Item>, now: seq<Item>, j: nat)
    requires Sinking(prev, x, rest, now, j) && j < |now| && (j > 0 ==> now[j - 1].key <= x.key)
    ensures |prev| < |now| && SortedIn(prev, x, now[j := x][..|prev| + 1]) && now[j := x][|prev| + 1..] == rest
  {
    hide Sorted, Shifted, SortedIn;
    ShiftedRoom(prev, now, j);
    if j > 0 {
      ShiftOne(prev, now, j);
    }
    ShiftFilled(prev, now, j, x);
    Inserted(prev, j, x);
  }

  /** Moves `a[i]` down into the sorted part before it. */
  method SinkIn(a: array<Item>, i: nat)
    requires i < a.Length && Sorted(a[..i])
    modifies a
    ensures SortedIn(old(a[..i]), old(a[i]), a[..i + 1])
    ensures a[i + 1..] == old(a[i + 1..])
  {
    hide Sorted, Sinking, SortedIn;
    ghost var prev, rest := a[..][..i], a[..][i + 1..];
    assert prev == a[..i] && rest == a[i + 1..];
    var x, j: nat := a[i], i;
    SinkStart(a[..], i);
    while j > 0 && a[j - 1].key > x.key
      invariant j <= i && Sinking(prev, x, rest, a[..], j)
    {
      ghost var now := a[..];
      SinkStep(prev, x, rest, now, j);
      a[j] := a[j - 1];
      assert a[..] == now[j := now[j - 1]];
      j := j - 1;
    }
    ghost var now := a[..];
    SinkEnd(prev, x, rest, now, j);
    a[j] := x;
    assert a[..] == now[j := x];
    assert a[..][..i + 1] == a[..i + 1] && a[..][i + 1..] == a[i + 1..];
  }

  method InsertionSort(a: array<Item>, n: nat)
    requires n <= a.Length
    modifies a
    ensures Sorted(a[..n]) && multiset(a[..n]) == multiset(old(a[..n]))
  {
    ghost var start := a[..];
    assert Sorted(a[..0]);
    for i := 0 to n
      invariant Sorted(a[..i]) && multiset(a[..i]) == multiset(start[..i]) && a[i..] == start[i..]
    {
      hide Sorted;
      assert a[i] == a[i..][0] == start[i..][0] == start[i];
      assert a[i + 1..] == a[i..][1..] && start[i + 1..] == start[i..][1..];
      assert start[..i + 1] == start[..i] + [start[i]];
      SinkIn(a, i);
    }
    assert start[..n] == old(a[..n]);
  }

  //////////////////////////////////////////////////////////////////////////////
  // The merge as a pick order
  //////////////////////////////////////////////////////////////////////////////

  /** `leaves[k]` leaves are among the first `k` picks. Pick `k` is then the next leaf or the next
      internal node, and merge `m` makes node `n + m` of picks `2m` and `2m + 1`. */
  ghost predicate PickOrder(n: nat, leaves: seq<nat>, picks: nat) {
    && n > 0 && |leaves| == picks + 1 && leaves[0] == 0
    && (forall k :: 0 <= k <= picks ==> leaves[k] <= n && leaves[k] <= k)
    && (forall k :: 0 <= k < picks ==> leaves[k + 1] == leaves[k] || leaves[k + 1] == leaves[k] + 1)
    && (forall k :: 0 < k <= picks ==> k - leaves[k] <= (k - 1) / 2)
  }

  ghost function Pick(n: nat, leaves: seq<nat>, k: nat): (x: int)
    requires k + 1 < |leaves|
  {
    if leaves[k + 1] > leaves[k] then leaves[k] else n + k - leaves[k]
  }

  lemma PickRange(n: nat, leaves: seq<nat>, picks: nat, k: nat)
    requires PickOrder(n, leaves, picks) && k < picks
    ensures 0 <= Pick(n, leaves, k) < n + k / 2
  {
  }

  ghost predicate InOrder(n: nat, leaves: seq<nat>, picks: nat) {
    PickOrder(n, leaves, picks) && forall k :: 0 <= k < picks ==> 0 <= Pick(n, leaves, k) < n + k / 2
  }

  ghost predicate Sums(n: nat, leaves: seq<nat>, w: seq<nat>, merges: nat)
    requires InOrder(n, leaves, 2 * merges) && n + merges <= |w|
  {
    forall m :: 0 <= m < merges ==> w[n + m] == w[Pick(n, leaves, 2 * m)] + w[Pick(n, leaves, 2 * m + 1)]
  }

  ghost predicate Parents(n: nat, leaves: seq<nat>, par: seq<int>, picks: nat)
    requires InOrder(n, leaves, picks) && 2 * n + picks <= 2 * |par| + 2
  {
    forall k :: 0 <= k < picks ==> par[Pick(n, leaves, k)] == n + k / 2
  }

  ghost predicate Ascending(n: nat, leaves: seq<nat>, w: seq<nat>, picks: nat)
    requires InOrder(n, leaves, picks) && 2 * n + picks <= 2 * |w| + 2
  {
    forall k, l :: 0 <= k <= l < picks ==> w[Pick(n, leaves, k)] <= w[Pick(n, leaves, l)]
  }

  /** The tree of `n` leaves with weights `w`: sums, parents, and picks in order of weight. */
  ghost predicate Tree(n: nat, leaves: seq<nat>, w: seq<nat>, par: seq<int>, merges: nat) {
    && |w| == |par| && n + merges <= |w| && InOrder(n, leaves, 2 * merges)
    && Sums(n, leaves, w, merges) && Parents(n, leaves, par, 2 * merges) && Ascending(n, leaves, w, 2 * merges)
  }

  /** The sum of `g` over `lo..hi`. */
  ghost function Range(g: seq<nat>, lo: int, hi: int): nat
    requires 0 <= lo && hi <= |g|
    decreases hi - lo
  {
    if lo >= hi then 0 else Range(g, lo, hi - 1) + g[hi - 1]
  }

  lemma {:induction false} RangeFront(g: seq<nat>, lo: nat, hi: nat)
    requires lo < hi <= |g|
    ensures Range(g, lo, hi) == g[lo] + Range(g, lo + 1, hi)
    decreases hi
  {
    if lo + 1 < hi {
      RangeFront(g, lo, hi - 1);
    }
  }

  /** What the two queues hold after `k` picks and `m` merges, summed. */
  ghost function Waiting(g: seq<nat>, n: nat, leaves: seq<nat>, k: nat, m: nat): nat
    requires k < |leaves| && leaves[k] <= k && leaves[k] <= n && n + m <= |g|
  {
    Range(g, leaves[k], n) + Range(g, n + k - leaves[k], n + m)
  }

  lemma PickTakes(g: seq<nat>, n: nat, leaves: seq<nat>, picks: nat, k: nat, m: nat)
    requires PickOrder(n, leaves, picks) && k < picks && n + m <= |g| && k / 2 <= m
    ensures 0 <= Pick(n, leaves, k) < |g|
    ensures Waiting(g, n, leaves, k, m) == g[Pick(n, leaves, k)] + Waiting(g, n, leaves, k + 1, m)
  {
    if leaves[k + 1] > leaves[k] {
      assert leaves[k + 1] <= n;
      RangeFront(g, leaves[k], n);
    } else {
      RangeFront(g, n + k - leaves[k], n + m);
    }
  }

  /** Whatever a parent shares out between its children is, summed over the leaves, what the root
      has: so the root weighs what all leaves weigh, and the code is complete. */
  lemma {:induction false} Conserved(g: seq<nat>, n: nat, leaves: seq<nat>, merges: nat, m: nat)
    requires PickOrder(n, leaves, 2 * merges) && n + merges <= |g| && m <= merges
    requires forall k :: 0 <= k < 2 * merges ==> 0 <= Pick(n, leaves, k) < n + k / 2
    requires forall i :: 0 <= i < merges ==> g[n + i] == g[Pick(n, leaves, 2 * i)] + g[Pick(n, leaves, 2 * i + 1)]
    ensures Waiting(g, n, leaves, 2 * m, m) == Range(g, 0, n)
    decreases m
  {
    if m > 0 {
      Conserved(g, n, leaves, merges, m - 1);
      var k := 2 * (m - 1);
      PickTakes(g, n, leaves, 2 * merges, k, m - 1);
      PickTakes(g, n, leaves, 2 * merges, k + 1, m - 1);
    }
  }

  lemma RootHolds(g: seq<nat>, n: nat, leaves: seq<nat>)
    requires n >= 2 && PickOrder(n, leaves, 2 * (n - 1)) && |g| == 2 * n - 1 && leaves[2 * (n - 1)] == n
    requires forall k :: 0 <= k < 2 * (n - 1) ==> 0 <= Pick(n, leaves, k) < n + k / 2
    requires forall i :: 0 <= i < n - 1 ==> g[n + i] == g[Pick(n, leaves, 2 * i)] + g[Pick(n, leaves, 2 * i + 1)]
    ensures g[2 * n - 2] == Range(g, 0, n)
  {
    Conserved(g, n, leaves, n - 1, n - 1);
    var k := 2 * (n - 1);
    assert n + k - leaves[k] == 2 * n - 2 && n + (n - 1) == 2 * n - 1;
    assert Range(g, leaves[k], n) == 0;
    assert Range(g, 2 * n - 2, 2 * n - 1) == g[2 * n - 2];
  }

  lemma PickOrderPrefix(n: nat, leaves: seq<nat>, picks: nat)
    requires picks > 0 && PickOrder(n, leaves, picks)
    ensures PickOrder(n, leaves[..picks], picks - 1)
    ensures forall k :: 0 <= k < picks - 1 ==> Pick(n, leaves[..picks], k) == Pick(n, leaves, k)
  {
  }

  /** Every node but the root was picked. */
  lemma {:induction false} LeafPicked(n: nat, leaves: seq<nat>, picks: nat, x: nat) returns (k: nat)
    requires PickOrder(n, leaves, picks) && x < leaves[picks]
    ensures k < picks && Pick(n, leaves, k) == x
    decreases picks
  {
    if x < leaves[picks - 1] {
      PickOrderPrefix(n, leaves, picks);
      k := LeafPicked(n, leaves[..picks], picks - 1, x);
    } else {
      k := picks - 1;
    }
  }

  lemma {:induction false} InnerPicked(n: nat, leaves: seq<nat>, picks: nat, x: nat) returns (k: nat)
    requires PickOrder(n, leaves, picks) && x < picks - leaves[picks]
    ensures k < picks && Pick(n, leaves, k) == n + x
    decreases picks
  {
    if x < picks - 1 - leaves[picks - 1] {
      PickOrderPrefix(n, leaves, picks);
      k := InnerPicked(n, leaves[..picks], picks - 1, x);
    } else {
      k := picks - 1;
    }
  }

  //////////////////////////////////////////////////////////////////////////////
  // Depth
  //////////////////////////////////////////////////////////////////////////////

  /** Depths from the root down. */
  ghost predicate Depths(n: nat, par: seq<int>, dep: seq<nat>) {
    && n >= 2 && |par| == |dep| == 2 * n - 1 && dep[2 * n - 2] == 0
    && forall x :: 0 <= x < 2 * n - 2 ==> x < par[x] <= 2 * n - 2 && dep[x] == dep[par[x]] + 1
  }

  ghost predicate Complete(n: nat, leaves: seq<nat>, w: seq<nat>, par: seq<int>) {
    n >= 2 && |w| == 2 * n - 1 && Tree(n, leaves, w, par, n - 1) && leaves[2 * (n - 1)] == n
  }

  function Fib(k: nat): nat {
    if k < 2 then k else Fib(k - 1) + Fib(k - 2)
  }

  ghost function Sibling(k: nat): nat {
    if k % 2 == 0 then k + 1 else k - 1
  }

  /** A node and its parent. */
  lemma Family(n: nat, leaves: seq<nat>, w: seq<nat>, par: seq<int>, dep: seq<nat>, k: nat)
    requires Complete(n, leaves, w, par) && Depths(n, par, dep) && k < 2 * (n - 1)
    ensures Sibling(k) < 2 * (n - 1) && n + k / 2 <= 2 * n - 2
    ensures 0 <= Pick(n, leaves, k) < n + k / 2 && 0 <= Pick(n, leaves, Sibling(k)) < n + k / 2
    ensures dep[Pick(n, leaves, k)] == dep[n + k / 2] + 1
    ensures w[n + k / 2] == w[Pick(n, leaves, k)] + w[Pick(n, leaves, Sibling(k))]
  {
    var m := k / 2;
    assert n + m == par[Pick(n, leaves, k)];
    assert w[n + m] == w[Pick(n, leaves, 2 * m)] + w[Pick(n, leaves, 2 * m + 1)];
  }

  lemma PickedLater(n: nat, leaves: seq<nat>, w: seq<nat>, par: seq<int>, k: nat, l: nat)
    requires Complete(n, leaves, w, par) && k <= l < 2 * (n - 1)
    ensures 0 <= Pick(n, leaves, k) < |w| && 0 <= Pick(n, leaves, l) < |w|
    ensures w[Pick(n, leaves, k)] <= w[Pick(n, leaves, l)]
  {
  }

  lemma ParentPicked(n: nat, leaves: seq<nat>, w: seq<nat>, par: seq<int>, m: nat) returns (up: nat)
    requires Complete(n, leaves, w, par) && m + 2 < n
    ensures up < 2 * (n - 1) && Pick(n, leaves, up) == n + m && m < up / 2
  {
    up := InnerPicked(n, leaves, 2 * (n - 1), m);
    PickRange(n, leaves, 2 * (n - 1), up);
  }

  /** Climbing from pick `k`, each step adds a sibling at least as heavy as the node two steps
      below: the weights grow like the Fibonacci numbers. */
  lemma {:induction false} Climb(n: nat, leaves: seq<nat>, w: seq<nat>, par: seq<int>, dep: seq<nat>, k: nat, h: nat)
    requires Complete(n, leaves, w, par) && Depths(n, par, dep) && k < 2 * (n - 1)
    requires Sibling(k) < 2 * (n - 1) && 0 <= Pick(n, leaves, k) < |w| && 0 <= Pick(n, leaves, Sibling(k)) < |w|
    requires w[Pick(n, leaves, k)] >= Fib(h + 2) && w[Pick(n, leaves, Sibling(k))] >= Fib(h + 1)
    ensures w[2 * n - 2] >= Fib(h + dep[Pick(n, leaves, k)] + 2)
    decreases n - k / 2
  {
    hide Tree, Pick;
    var m := k / 2;
    Family(n, leaves, w, par, dep, k);
    assert w[n + m] >= Fib(h + 3);
    if n + m < 2 * n - 2 {
      var up := ParentPicked(n, leaves, w, par, m);
      Family(n, leaves, w, par, dep, up);
      PickedLater(n, leaves, w, par, k, Sibling(up));
      Climb(n, leaves, w, par, dep, up, h + 1);
    }
  }

  /** A leaf at depth `d` forces a total weight of at least Fib(d + 2). */
  lemma DeepLeafHeavyTotal(n: nat, leaves: seq<nat>, w: seq<nat>, par: seq<int>, dep: seq<nat>, i: nat)
    requires Complete(n, leaves, w, par) && Depths(n, par, dep) && i < n && forall x :: 0 <= x < n ==> w[x] > 0
    ensures Range(w, 0, n) >= Fib(dep[i] + 2)
  {
    var k := LeafPicked(n, leaves, 2 * (n - 1), i);
    RootHolds(w, n, leaves);
    Family(n, leaves, w, par, dep, k);
    NodesPositive(n, leaves, w, par, Pick(n, leaves, Sibling(k)));
    Climb(n, leaves, w, par, dep, k, 0);
  }

  lemma {:induction false} NodesPositive(n: nat, leaves: seq<nat>, w: seq<nat>, par: seq<int>, x: nat)
    requires Complete(n, leaves, w, par) && x < 2 * n - 1 && forall y :: 0 <= y < n ==> w[y] > 0
    ensures w[x] > 0
    decreases x
  {
    if x >= n {
      var m := x - n;
      PickRange(n, leaves, 2 * (n - 1), 2 * m);
      NodesPositive(n, leaves, w, par, Pick(n, leaves, 2 * m));
      assert w[n + m] == w[Pick(n, leaves, 2 * m)] + w[Pick(n, leaves, 2 * m + 1)];
    }
  }

  lemma {:induction false} FibMonotone(a: nat, b: nat)
    requires a <= b
    ensures Fib(a) <= Fib(b)
    decreases b
  {
    if a < b {
      FibMonotone(a, b - 1);
    }
  }

  lemma FibValues()
    ensures Fib(31) == 1346269
  {
    assert Fib(4) == 3 && Fib(5) == 5;
    assert Fib(6) == 8 && Fib(7) == 13;
    assert Fib(8) == 21 && Fib(9) == 34;
    assert Fib(10) == 55 && Fib(11) == 89;
    assert Fib(12) == 144 && Fib(13) == 233;
    assert Fib(14) == 377 && Fib(15) == 610;
    assert Fib(16) == 987 && Fib(17) == 1597;
    assert Fib(18) == 2584 && Fib(19) == 4181;
    assert Fib(20) == 6765 && Fib(21) == 10946;
    assert Fib(22) == 17711 && Fib(23) == 28657;
    assert Fib(24) == 46368 && Fib(25) == 75025;
    assert Fib(26) == 121393 && Fib(27) == 196418;
    assert Fib(28) == 317811 && Fib(29) == 514229;
    assert Fib(30) == 832040;
  }

  /** A block's literals, at most 2^20, never make a leaf deeper than 28. */
  lemma BlockDepth(n: nat, leaves: seq<nat>, w: seq<nat>, par: seq<int>, dep: seq<nat>, i: nat)
    requires Complete(n, leaves, w, par) && Depths(n, par, dep) && i < n && forall x :: 0 <= x < n ==> w[x] > 0
    requires Range(w, 0, n) <= 0x10_0000
    ensures dep[i] <= 28
  {
    DeepLeafHeavyTotal(n, leaves, w, par, dep, i);
    if dep[i] > 28 {
      FibMonotone(31, dep[i] + 2);
      FibValues();
    }
  }

  ghost function Shares(dep: seq<nat>, top: nat): (g: seq<nat>)
    requires forall x :: 0 <= x < |dep| ==> dep[x] <= top
    ensures |g| == |dep| && forall x :: 0 <= x < |g| ==> g[x] == Pow2(top - dep[x])
  {
    seq(|dep|, x requires 0 <= x < |dep| => Pow2(top - dep[x]))
  }

  lemma TreeOrder(n: nat, leaves: seq<nat>, w: seq<nat>, par: seq<int>)
    requires Complete(n, leaves, w, par)
    ensures n >= 2 && |par| == 2 * n - 1 && PickOrder(n, leaves, 2 * (n - 1)) && leaves[2 * (n - 1)] == n
    ensures forall k :: 0 <= k < 2 * (n - 1) ==> 0 <= Pick(n, leaves, k) < n + k / 2
  {
  }

  /** The leaves' depths satisfy Kraft's equality. */
  lemma KraftEquality(n: nat, leaves: seq<nat>, w: seq<nat>, par: seq<int>, dep: seq<nat>, top: nat)
    requires Complete(n, leaves, w, par) && Depths(n, par, dep)
    requires |dep| == 2 * n - 1 && forall x :: 0 <= x < |dep| ==> dep[x] <= top
    ensures Range(Shares(dep, top), 0, n) == Pow2(top)
  {
    hide Tree, Pick, Range, Complete, Depths;
    var g := Shares(dep, top);
    TreeOrder(n, leaves, w, par);
    forall i | 0 <= i < n - 1
      ensures g[n + i] == g[Pick(n, leaves, 2 * i)] + g[Pick(n, leaves, 2 * i + 1)]
    {
      SharesSplit(n, leaves, w, par, dep, top, i);
    }
    assert dep[2 * n - 2] == 0 by { RootDepth(n, par, dep); }
    RootHolds(g, n, leaves);
  }

  lemma RootDepth(n: nat, par: seq<int>, dep: seq<nat>)
    requires Depths(n, par, dep)
    ensures dep[2 * n - 2] == 0
  {
  }

  lemma SharesSplit(n: nat, leaves: seq<nat>, w: seq<nat>, par: seq<int>, dep: seq<nat>, top: nat, i: nat)
    requires Complete(n, leaves, w, par) && Depths(n, par, dep) && i + 1 < n
    requires |dep| == 2 * n - 1 && forall x :: 0 <= x < |dep| ==> dep[x] <= top
    ensures 0 <= Pick(n, leaves, 2 * i) < n + i && 0 <= Pick(n, leaves, 2 * i + 1) < n + i
    ensures var g := Shares(dep, top); g[n + i] == g[Pick(n, leaves, 2 * i)] + g[Pick(n, leaves, 2 * i + 1)]
  {
    hide Tree, Pick, Shares, Depths;
    TreeOrder(n, leaves, w, par);
    Family(n, leaves, w, par, dep, 2 * i);
    Family(n, leaves, w, par, dep, 2 * i + 1);
    HalfShare(dep, top, n + i, Pick(n, leaves, 2 * i));
    HalfShare(dep, top, n + i, Pick(n, leaves, 2 * i + 1));
  }

  lemma HalfShare(dep: seq<nat>, top: nat, v: nat, x: nat)
    requires v < |dep| && x < |dep| && dep[x] == dep[v] + 1
    requires forall y :: 0 <= y < |dep| ==> dep[y] <= top
    ensures Shares(dep, top)[v] == 2 * Shares(dep, top)[x]
  {
  }

  //////////////////////////////////////////////////////////////////////////////
  // The merge
  //////////////////////////////////////////////////////////////////////////////

  /** Both queues are in order, and nothing left in them is lighter than what was picked. */
  ghost predicate Queues(n: nat, leaves: seq<nat>, w: seq<nat>, k: nat, m: nat) {
    && InOrder(n, leaves, k) && k <= 2 * m + 2 && n + m <= |w|
    && (forall i, j :: 0 <= i <= j < n ==> w[i] <= w[j])
    && (forall i, j :: n <= i <= j < n + m ==> w[i] <= w[j])
    && (forall l :: 0 <= l < k ==>
          && (leaves[k] < n ==> w[Pick(n, leaves, l)] <= w[leaves[k]])
          && (k - leaves[k] < m ==> w[Pick(n, leaves, l)] <= w[n + k - leaves[k]]))
  }

  lemma {:induction false} LeavesAscend(n: nat, leaves: seq<nat>, picks: nat, a: nat, b: nat)
    requires PickOrder(n, leaves, picks) && a <= b <= picks
    ensures leaves[a] <= leaves[b] && a - leaves[a] <= b - leaves[b]
    decreases b
  {
    if a < b {
      LeavesAscend(n, leaves, picks, a, b - 1);
    }
  }

  lemma PicksDiffer(n: nat, leaves: seq<nat>, picks: nat, a: nat, b: nat)
    requires PickOrder(n, leaves, picks) && a < b < picks
    ensures Pick(n, leaves, a) != Pick(n, leaves, b)
  {
    LeavesAscend(n, leaves, picks, a + 1, b);
  }

  /** The next pick: the lighter of the two fronts, the leaf on a tie. */
  ghost predicate Lightest(n: nat, leaves: seq<nat>, w: seq<nat>, k: nat, m: nat, leaf: bool)
    requires Queues(n, leaves, w, k, m)
  {
    var (lq, iq) := (leaves[k], n + k - leaves[k]);
    && (leaf ==> lq < n && (iq >= n + m || w[lq] <= w[iq]))
    && (!leaf ==> iq < n + m && (lq >= n || w[iq] <= w[lq]))
  }

  ghost function Picked(leaves: seq<nat>, leaf: bool): seq<nat>
    requires leaves != []
  {
    leaves + [leaves[|leaves| - 1] + (if leaf then 1 else 0)]
  }

  /** Earlier picks are what they were, and the new one is the front that was taken. */
  lemma PicksStay(n: nat, leaves: seq<nat>, k: nat, leaf: bool)
    requires |leaves| == k + 1
    ensures var next := Picked(leaves, leaf);
            && |next| == k + 2 && next[..k + 1] == leaves && next[k + 1] == leaves[k] + (if leaf then 1 else 0)
            && (forall l :: 0 <= l < k ==> Pick(n, next, l) == Pick(n, leaves, l))
            && Pick(n, next, k) == if leaf then leaves[k] else n + k - leaves[k]
  {
    var next := Picked(leaves, leaf);
    forall l | 0 <= l < k
      ensures Pick(n, next, l) == Pick(n, leaves, l)
    {
      assert next[l] == leaves[l] && next[l + 1] == leaves[l + 1];
    }
  }

  lemma PickOrderGrows(n: nat, leaves: seq<nat>, w: seq<nat>, k: nat, m: nat, leaf: bool)
    requires Queues(n, leaves, w, k, m) && m == k / 2 && Lightest(n, leaves, w, k, m, leaf)
    ensures InOrder(n, Picked(leaves, leaf), k + 1)
  {
    hide Pick;
    InOrderBounds(n, leaves, k);
    PicksStay(n, leaves, k, leaf);
    var next := Picked(leaves, leaf);
    assert forall l :: 0 <= l <= k ==> next[l] == leaves[l];
  }

  lemma QueuesGrow(n: nat, leaves: seq<nat>, w: seq<nat>, k: nat, m: nat, leaf: bool)
    requires Queues(n, leaves, w, k, m) && m == k / 2 && Lightest(n, leaves, w, k, m, leaf) && Ascending(n, leaves, w, k)
    ensures var next := Picked(leaves, leaf);
            Queues(n, next, w, k + 1, m) && Ascending(n, next, w, k + 1)
  {
    hide PickOrder, Pick, Picked;
    PickOrderGrows(n, leaves, w, k, m, leaf);
    InOrderBounds(n, leaves, k);
    PicksStay(n, leaves, k, leaf);
    InOrderBounds(n, Picked(leaves, leaf), k + 1);
  }

  lemma InOrderBounds(n: nat, leaves: seq<nat>, k: nat)
    requires InOrder(n, leaves, k)
    ensures |leaves| == k + 1 && leaves[k] <= n && leaves[k] <= k
  {
  }

  lemma ParentsGrow(n: nat, leaves: seq<nat>, w: seq<nat>, par: seq<int>, k: nat, m: nat, leaf: bool)
    requires Queues(n, leaves, w, k, m) && m == k / 2 && Lightest(n, leaves, w, k, m, leaf)
    requires 2 * n + k + 1 <= 2 * |par| + 2 && Parents(n, leaves, par, k)
    ensures var next := Picked(leaves, leaf);
            && InOrder(n, next, k + 1) && 0 <= Pick(n, next, k) < |par|
            && Parents(n, next, par[Pick(n, next, k) := n + m], k + 1)
  {
    hide Pick;
    PickOrderGrows(n, leaves, w, k, m, leaf);
    InOrderBounds(n, leaves, k);
    PicksStay(n, leaves, k, leaf);
    var next := Picked(leaves, leaf);
    forall l | 0 <= l < k
      ensures Pick(n, next, l) != Pick(n, next, k)
    {
      PicksDiffer(n, next, k + 1, l, k);
    }
  }

  /** Adding the merged node to its queue keeps the queue in order. */
  lemma QueuesMerge(n: nat, leaves: seq<nat>, w: seq<nat>, m: nat, cost: nat)
    requires n + m < |w| && Queues(n, leaves, w, 2 * m + 2, m) && Ascending(n, leaves, w, 2 * m + 2)
    requires InOrder(n, leaves[..2 * m + 1], 2 * m) && Sums(n, leaves[..2 * m + 1], w, m)
    requires cost == w[Pick(n, leaves, 2 * m)] + w[Pick(n, leaves, 2 * m + 1)]
    ensures var now := w[n + m := cost];
            && Queues(n, leaves, now, 2 * m + 2, m + 1) && Ascending(n, leaves, now, 2 * m + 2)
            && Sums(n, leaves, now, m + 1)
  {
    hide Queues, Ascending, Sums, Pick, PickOrder, InOrder;
    InOrderOf(n, leaves, w, 2 * m + 2, m);
    LastSum(n, leaves, w, m, cost);
    AscendingStays(n, leaves, w, 2 * m + 2, m, cost);
    QueueGains(n, leaves, w, m, cost);
    SumsGrow(n, leaves, w, m, cost);
  }

  lemma LastSum(n: nat, leaves: seq<nat>, w: seq<nat>, m: nat, cost: nat)
    requires n + m < |w| && InOrder(n, leaves, 2 * m + 2) && Ascending(n, leaves, w, 2 * m + 2)
    requires InOrder(n, leaves[..2 * m + 1], 2 * m) && Sums(n, leaves[..2 * m + 1], w, m)
    requires cost == w[Pick(n, leaves, 2 * m)] + w[Pick(n, leaves, 2 * m + 1)]
    ensures m > 0 ==> w[n + m - 1] <= cost
    ensures forall l :: 0 <= l < 2 * m + 2 ==> w[Pick(n, leaves, l)] <= cost
  {
    hide Pick, PickOrder;
    InOrderBounds(n, leaves, 2 * m + 2);
    PrefixPicks(n, leaves, 2 * m + 2, 2 * m);
    if m > 0 {
      assert w[n + (m - 1)] == w[Pick(n, leaves, 2 * (m - 1))] + w[Pick(n, leaves, 2 * (m - 1) + 1)];
    }
  }

  lemma AscendingStays(n: nat, leaves: seq<nat>, w: seq<nat>, picks: nat, m: nat, cost: nat)
    requires n + m < |w| && InOrder(n, leaves, picks) && picks <= 2 * m + 2 && Ascending(n, leaves, w, picks)
    ensures Ascending(n, leaves, w[n + m := cost], picks)
  {
    hide Pick, PickOrder;
  }

  lemma QueueGains(n: nat, leaves: seq<nat>, w: seq<nat>, m: nat, cost: nat)
    requires n + m < |w| && Queues(n, leaves, w, 2 * m + 2, m)
    requires m > 0 ==> w[n + m - 1] <= cost
    requires forall l :: 0 <= l < 2 * m + 2 ==> w[Pick(n, leaves, l)] <= cost
    ensures Queues(n, leaves, w[n + m := cost], 2 * m + 2, m + 1)
  {
    hide Pick, PickOrder;
    InOrderBounds(n, leaves, 2 * m + 2);
  }

  lemma SumsGrow(n: nat, leaves: seq<nat>, w: seq<nat>, m: nat, cost: nat)
    requires n + m < |w| && InOrder(n, leaves, 2 * m + 2)
    requires InOrder(n, leaves[..2 * m + 1], 2 * m) && Sums(n, leaves[..2 * m + 1], w, m)
    requires cost == w[Pick(n, leaves, 2 * m)] + w[Pick(n, leaves, 2 * m + 1)]
    ensures Sums(n, leaves, w[n + m := cost], m + 1)
  {
    hide Pick, PickOrder;
    InOrderBounds(n, leaves, 2 * m + 2);
    PrefixPicks(n, leaves, 2 * m + 2, 2 * m);
    var now := w[n + m := cost];
    forall i | 0 <= i < m + 1
      ensures now[n + i] == now[Pick(n, leaves, 2 * i)] + now[Pick(n, leaves, 2 * i + 1)]
    {
      if i < m {
        assert w[n + i] == w[Pick(n, leaves, 2 * i)] + w[Pick(n, leaves, 2 * i + 1)];
      }
    }
  }

  lemma PrefixPicks(n: nat, leaves: seq<nat>, picks: nat, k: nat)
    requires k <= picks && |leaves| == picks + 1
    ensures forall l :: 0 <= l < k ==> Pick(n, leaves[..k + 1], l) == Pick(n, leaves, l)
  {
  }

  lemma FirstQueues(n: nat, w: seq<nat>)
    requires 0 < n <= |w| && forall i, j :: 0 <= i <= j < n ==> w[i] <= w[j]
    ensures Queues(n, [0], w, 0, 0) && Ascending(n, [0], w, 0) && Sums(n, [0], w, 0)
  {
  }

  /** Takes the lighter front. */
  method TakeFront(nf: array<nat>, par: array<int>, n: nat, lq: nat, iq: nat, next: nat, ghost leaves: seq<nat>, ghost k: nat)
    returns (x: nat, lq1: nat, iq1: nat, ghost taken: seq<nat>)
    requires n <= next < nf.Length == par.Length && k / 2 == next - n && next + 1 < 2 * n
    requires Queues(n, leaves, nf[..], k, next - n) && Ascending(n, leaves, nf[..], k) && Parents(n, leaves, par[..], k)
    requires lq == leaves[k] && iq == n + k - leaves[k]
    modifies par
    ensures (taken == leaves + [lq1]) && |taken| == k + 2 && InOrder(n, taken, k + 1) && x == Pick(n, taken, k) && x < nf.Length
    ensures Queues(n, taken, nf[..], k + 1, next - n) && Ascending(n, taken, nf[..], k + 1)
    ensures Parents(n, taken, par[..], k + 1) && iq1 == n + k + 1 - lq1
  {
    hide Queues, Ascending, Parents, PickOrder, Pick;
    InOrderOf(n, leaves, nf[..], k, next - n);
    InOrderBounds(n, leaves, k);
    var leaf := lq < n && (iq >= next || nf[lq] <= nf[iq]);
    QueuesGrow(n, leaves, nf[..], k, next - n, leaf);
    ParentsGrow(n, leaves, nf[..], par[..], k, next - n, leaf);
    PicksStay(n, leaves, k, leaf);
    taken := Picked(leaves, leaf);
    if leaf {
      x, lq1, iq1 := lq, lq + 1, iq;
    } else {
      x, lq1, iq1 := iq, lq, iq + 1;
    }
    par[x] := next;
    assert par[..] == old(par[..])[x := next];
  }

  lemma InOrderOf(n: nat, leaves: seq<nat>, w: seq<nat>, k: nat, m: nat)
    requires Queues(n, leaves, w, k, m)
    ensures InOrder(n, leaves, k)
  {
  }

  /** The two-queue merge: from leaves in order of weight to a tree with all its parents. */
  method Merge(nf: array<nat>, par: array<int>, n: nat) returns (ghost leaves: seq<nat>)
    requires n >= 2 && nf.Length == par.Length == 2 * n - 1
    requires forall i, j :: 0 <= i <= j < n ==> nf[i] <= nf[j]
    modifies nf, par
    ensures Complete(n, leaves, nf[..], par[..]) && nf[..n] == old(nf[..n])
  {
    hide Queues, Ascending, Parents, PickOrder, Pick, Sums;
    leaves := [0];
    FirstQueues(n, nf[..]);
    NoParents(n, par[..]);
    var lq: nat, iq: nat, next: nat := 0, n, n;
    ghost var start := nf[..];
    for m := 0 to n - 1
      invariant next == n + m && InOrder(n, leaves, 2 * m) && |leaves| == 2 * m + 1
      invariant lq == leaves[2 * m] && iq == n + 2 * m - leaves[2 * m]
      invariant Queues(n, leaves, nf[..], 2 * m, m) && Ascending(n, leaves, nf[..], 2 * m)
      invariant Parents(n, leaves, par[..], 2 * m) && Sums(n, leaves, nf[..], m)
      invariant nf[..n] == start[..n]
    {
      ghost var before := leaves;
      var x, y;
      x, lq, iq, leaves := TakeFront(nf, par, n, lq, iq, next, leaves, 2 * m);
      ghost var once := leaves;
      y, lq, iq, leaves := TakeFront(nf, par, n, lq, iq, next, leaves, 2 * m + 1);
      assert leaves[..2 * m + 1] == before && leaves[..2 * m + 2] == once;
      PrefixPicks(n, leaves, 2 * m + 2, 2 * m + 1);
      var cost := nf[x] + nf[y];
      QueuesMerge(n, leaves, nf[..], m, cost);
      ghost var w := nf[..];
      nf[next] := cost;
      assert nf[..] == w[n + m := cost] && nf[..n] == w[..n];
      next := next + 1;
    }
    AllTaken(n, leaves, nf[..]);
  }

  lemma NoParents(n: nat, par: seq<int>)
    requires 0 < n <= |par|
    ensures InOrder(n, [0], 0) && Parents(n, [0], par, 0)
  {
  }

  /** After the last merge only the root is left, so every leaf has been taken. */
  lemma AllTaken(n: nat, leaves: seq<nat>, w: seq<nat>)
    requires n >= 2 && InOrder(n, leaves, 2 * (n - 1)) && Queues(n, leaves, w, 2 * (n - 1), n - 1)
    ensures |leaves| == 2 * n - 1 && leaves[2 * (n - 1)] == n
  {
  }

  /** Depths, from the last node down. */
  method ComputeDepths(par: array<int>, n: nat, ghost leaves: seq<nat>, ghost w: seq<nat>) returns (dep: array<nat>)
    requires Complete(n, leaves, w, par[..])
    ensures fresh(dep) && dep.Length == 2 * n - 1 && Depths(n, par[..], dep[..])
  {
    hide Complete;
    ghost var up := par[..];
    ParentsAbove(n, leaves, w, up);
    dep := new nat[2 * n - 1](_ => 0);
    var i: int := 2 * n - 3;
    while i >= 0
      invariant -1 <= i <= 2 * n - 3 && dep[2 * n - 2] == 0 && par[..] == up
      invariant forall x :: i < x < 2 * n - 2 ==> dep[x] == dep[up[x]] + 1
    {
      assert par[i] == up[i];
      dep[i] := dep[par[i]] + 1;
      i := i - 1;
    }
  }

  lemma ParentsAbove(n: nat, leaves: seq<nat>, w: seq<nat>, par: seq<int>)
    requires Complete(n, leaves, w, par)
    ensures n >= 2 && |par| == 2 * n - 1 && forall x :: 0 <= x < 2 * n - 2 ==> x < par[x] <= 2 * n - 2
  {
    hide Tree, Pick;
    TreeOrder(n, leaves, w, par);
    forall x | 0 <= x < 2 * n - 2
      ensures x < par[x] <= 2 * n - 2
    {
      var k;
      if x < n {
        k := LeafPicked(n, leaves, 2 * (n - 1), x);
      } else {
        k := InnerPicked(n, leaves, 2 * (n - 1), x - n);
      }
      ParentOf(n, leaves, w, par, k);
    }
  }

  lemma ParentOf(n: nat, leaves: seq<nat>, w: seq<nat>, par: seq<int>, k: nat)
    requires Complete(n, leaves, w, par) && k < 2 * (n - 1)
    ensures 0 <= Pick(n, leaves, k) < par[Pick(n, leaves, k)] == n + k / 2 <= 2 * n - 2
  {
  }
}
