/** Length-limited Huffman code lengths (`build_code_lengths`, src/vv_huffman.c:156-304). */
module HuffLengths {
  import opened Arith
  import opened Bits
  import CodeCost
  import HuffCost
  import opened HuffTree

  const SYMBOLS: nat := 256
  const MAX_CODE_LEN: nat := 15
  const FULL: nat := 0x8000
  const MAX_BLOCK: nat := 0x10_0000

  //////////////////////////////////////////////////////////////////////////////
  // Sums over symbols
  //////////////////////////////////////////////////////////////////////////////

  function SumBy(f: nat -> nat, s: seq<nat>): nat {
    if s == [] then 0 else SumBy(f, s[..|s| - 1]) + f(s[|s| - 1])
  }

  function Same(v: nat): nat {
    v
  }

  /** A code of length `len` takes up 2^(15 - len) of the 2^15 words of length 15. */
  function Weight(len: nat): nat {
    if 1 <= len <= MAX_CODE_LEN then Pow2(MAX_CODE_LEN - len) else 0
  }

  function Kraft(lengths: seq<nat>): nat {
    SumBy(Weight, lengths)
  }

  lemma SumByAppend(f: nat -> nat, s: seq<nat>, v: nat)
    ensures SumBy(f, s + [v]) == SumBy(f, s) + f(v)
  {
    assert (s + [v])[..|s|] == s;
  }

  lemma {:induction false} SumByUpdate(f: nat -> nat, s: seq<nat>, i: nat, v: nat)
    requires i < |s|
    ensures SumBy(f, s[i := v]) + f(s[i]) == SumBy(f, s) + f(v)
    decreases |s|
  {
    var n := |s| - 1;
    if i < n {
      SumByUpdate(f, s[..n], i, v);
      assert s[i := v][..n] == s[..n][i := v];
    } else {
      assert s[i := v][..n] == s[..n];
    }
  }

  function Zeros(n: nat): (z: seq<nat>)
    ensures |z| == n && forall i :: 0 <= i < n ==> z[i] == 0
  {
    seq(n, i => 0)
  }

  lemma {:induction false} SumByZeros(f: nat -> nat, s: seq<nat>)
    requires f(0) == 0 && forall i :: 0 <= i < |s| ==> s[i] == 0
    ensures SumBy(f, s) == 0
    decreases |s|
  {
    if s != [] {
      SumByZeros(f, s[..|s| - 1]);
    }
  }

  //////////////////////////////////////////////////////////////////////////////
  // The symbols present
  //////////////////////////////////////////////////////////////////////////////

  ghost predicate Distinct(items: seq<Item>) {
    && (forall i :: 0 <= i < |items| ==> items[i].sym < SYMBOLS)
    && forall i, j :: 0 <= i < j < |items| ==> items[i].sym != items[j].sym
  }

  /** One item for each symbol with a nonzero value, keyed by `key`. */
  ghost predicate Roster(value: seq<nat>, key: nat -> nat, items: seq<Item>) {
    && |value| == SYMBOLS && Distinct(items)
    && (forall i :: 0 <= i < |items| ==> items[i].key == key(items[i].sym) && value[items[i].sym] > 0)
    && (forall s :: 0 <= s < SYMBOLS && value[s] > 0 ==> Item(key(s), s) in items)
  }

  lemma {:induction false} CountOnce<T>(s: seq<T>, x: T)
    requires forall i, j :: 0 <= i < j < |s| ==> s[i] != s[j]
    ensures multiset(s)[x] <= 1
    decreases |s|
  {
    if s != [] {
      var n := |s| - 1;
      CountOnce(s[..n], x);
      assert s == s[..n] + [s[n]];
      assert x in multiset(s[..n]) <==> x in s[..n];
    }
  }

  lemma CountTwice<T>(s: seq<T>, i: nat, j: nat)
    requires i < j < |s| && s[i] == s[j]
    ensures multiset(s)[s[i]] >= 2
  {
    assert s == s[..i] + [s[i]] + s[i + 1..j] + [s[j]] + s[j + 1..];
  }

  /** Sorting loses no symbol and doubles none. */
  lemma RosterPermuted(value: seq<nat>, key: nat -> nat, a: seq<Item>, b: seq<Item>)
    requires Roster(value, key, a) && multiset(a) == multiset(b)
    ensures Roster(value, key, b) && |a| == |b|
  {
    assert |multiset(a)| == |a| && |multiset(b)| == |b|;
    forall i | 0 <= i < |b|
      ensures b[i] in a
    {
      assert b[i] in multiset(b);
    }
    forall i, j | 0 <= i < j < |b|
      ensures b[i].sym != b[j].sym
    {
      if b[i].sym == b[j].sym {
        assert b[i] == b[j];
        CountTwice(b, i, j);
        CountOnce(a, b[i]);
      }
    }
    forall s | 0 <= s < SYMBOLS && value[s] > 0
      ensures Item(key(s), s) in b
    {
      assert Item(key(s), s) in multiset(a);
    }
  }

  /** An array of zeros in which the first `k` items' symbols have been given values. */
  ghost function Placed(items: seq<Item>, vals: seq<nat>, k: nat): (r: seq<nat>)
    requires Distinct(items) && k <= |items| && k <= |vals|
    ensures |r| == SYMBOLS
  {
    if k == 0 then Zeros(SYMBOLS) else Placed(items, vals, k - 1)[items[k - 1].sym := vals[k - 1]]
  }

  lemma {:induction false} PlacedAt(items: seq<Item>, vals: seq<nat>, k: nat)
    requires Distinct(items) && k <= |items| && k <= |vals|
    ensures forall i :: 0 <= i < k ==> Placed(items, vals, k)[items[i].sym] == vals[i]
    ensures forall s :: 0 <= s < SYMBOLS && (forall i :: 0 <= i < k ==> items[i].sym != s) ==> Placed(items, vals, k)[s] == 0
    decreases k
  {
    if k > 0 {
      PlacedAt(items, vals, k - 1);
    }
  }

  lemma {:induction false} PlacedSum(f: nat -> nat, items: seq<Item>, vals: seq<nat>, k: nat)
    requires Distinct(items) && k <= |items| && k <= |vals| && f(0) == 0
    ensures SumBy(f, Placed(items, vals, k)) == SumBy(f, vals[..k])
    decreases k
  {
    hide Distinct, SumBy, Placed;
    if k == 0 {
      PlacedNone(items, vals);
      SumByZeros(f, Zeros(SYMBOLS));
      SumByZeros(f, vals[..0]);
    } else {
      PlacedSum(f, items, vals, k - 1);
      PlacedStep(items, vals, k - 1);
      PlacedYet(items, vals, k - 1);
      SumByAppend(f, vals[..k - 1], vals[k - 1]);
      SumByUpdate(f, Placed(items, vals, k - 1), items[k - 1].sym, vals[k - 1]);
      assert vals[..k] == vals[..k - 1] + [vals[k - 1]];
    }
  }

  lemma PlacedYet(items: seq<Item>, vals: seq<nat>, k: nat)
    requires Distinct(items) && k < |items| && k <= |vals|
    ensures items[k].sym < SYMBOLS && Placed(items, vals, k)[items[k].sym] == 0
  {
    PlacedAt(items, vals, k);
  }

  /** Values placed on a full roster are positive exactly on the present symbols. */
  lemma PlacedRoster(value: seq<nat>, key: nat -> nat, items: seq<Item>, vals: seq<nat>)
    requires Roster(value, key, items) && |items| <= |vals|
    ensures var r := Placed(items, vals, |items|);
            forall s :: 0 <= s < SYMBOLS ==>
              if value[s] > 0 then exists i :: 0 <= i < |items| && items[i].sym == s && r[s] == vals[i] else r[s] == 0
  {
    PlacedAt(items, vals, |items|);
    var r := Placed(items, vals, |items|);
    forall s | 0 <= s < SYMBOLS && value[s] > 0
      ensures exists i :: 0 <= i < |items| && items[i].sym == s && r[s] == vals[i]
    {
      var i :| 0 <= i < |items| && items[i] == Item(key(s), s);
      assert r[items[i].sym] == vals[i];
    }
  }

  /** The roster of the symbols below `top`, in ascending order. */
  ghost predicate RosterBelow(value: seq<nat>, key: nat -> nat, items: seq<Item>, top: nat) {
    && |value| == SYMBOLS && |items| <= top <= SYMBOLS
    && (forall i :: 0 <= i < |items| ==>
          items[i].sym < top && items[i].key == key(items[i].sym) && value[items[i].sym] > 0)
    && (forall i, j :: 0 <= i < j < |items| ==> items[i].sym < items[j].sym)
    && (forall s :: 0 <= s < top && value[s] > 0 ==> Item(key(s), s) in items)
  }

  lemma RosterGrows(value: seq<nat>, key: nat -> nat, items: seq<Item>, top: nat)
    requires RosterBelow(value, key, items, top) && top < SYMBOLS
    ensures RosterBelow(value, key, if value[top] > 0 then items + [Item(key(top), top)] else items, top + 1)
  {
    var x := Item(key(top), top);
    var now := items + [x];
    if value[top] > 0 {
      assert now[|items|] == x;
      assert forall i :: 0 <= i < |items| ==> now[i] == items[i];
      forall s | 0 <= s < top + 1 && value[s] > 0
        ensures Item(key(s), s) in now
      {
        if s < top {
          var i :| 0 <= i < |items| && items[i] == Item(key(s), s);
          assert now[i] == Item(key(s), s);
        }
      }
    }
  }

  lemma RosterWhole(value: seq<nat>, key: nat -> nat, items: seq<Item>)
    requires RosterBelow(value, key, items, SYMBOLS)
    ensures Roster(value, key, items)
  {
  }

  lemma RosterEmpty(value: seq<nat>, key: nat -> nat)
    requires |value| == SYMBOLS
    ensures RosterBelow(value, key, [], 0)
  {
  }

  /** Collects the symbols with a nonzero value. */
  method Collect(value: seq<nat>, key: nat -> nat) returns (items: array<Item>, n: nat)
    requires |value| == SYMBOLS
    ensures fresh(items) && items.Length == SYMBOLS && n <= SYMBOLS && Roster(value, key, items[..n])
    ensures Keys(items[..n]) == CodeCost.Kept(value, KeyList(key), SYMBOLS)
  {
    hide RosterBelow, Roster, CodeCost.Kept;
    items := new Item[SYMBOLS](_ => Item(0, 0));
    n := 0;
    RosterEmpty(value, key);
    NoKeys(value, key);
    assert items[..0] == [];
    for s := 0 to SYMBOLS
      invariant n <= s && RosterBelow(value, key, items[..n], s)
      invariant Keys(items[..n]) == CodeCost.Kept(value, KeyList(key), s)
    {
      KeysNext(value, key, items[..n], s);
      RosterGrows(value, key, items[..n], s);
      if value[s] > 0 {
        ghost var before := items[..n];
        items[n] := Item(key(s), s);
        n := n + 1;
        assert items[..n] == before + [Item(key(s), s)];
      }
    }
    RosterWhole(value, key, items[..n]);
  }

  ghost function KeyList(key: nat -> nat): (r: seq<nat>)
    ensures |r| == SYMBOLS && forall s :: 0 <= s < SYMBOLS ==> r[s] == key(s)
  {
    seq(SYMBOLS, s requires 0 <= s < SYMBOLS => key(s))
  }

  lemma NoKeys(value: seq<nat>, key: nat -> nat)
    requires |value| == SYMBOLS
    ensures Keys([]) == CodeCost.Kept(value, KeyList(key), 0)
  {
  }

  lemma KeysNext(value: seq<nat>, key: nat -> nat, items: seq<Item>, s: nat)
    requires |value| == SYMBOLS && s < SYMBOLS && Keys(items) == CodeCost.Kept(value, KeyList(key), s)
    ensures Keys(if value[s] > 0 then items + [Item(key(s), s)] else items) == CodeCost.Kept(value, KeyList(key), s + 1)
  {
    if value[s] > 0 {
      assert Keys(items + [Item(key(s), s)]) == Keys(items) + [key(s)];
    }
  }

  lemma Cancel<T>(m: multiset<T>, n: multiset<T>, x: T)
    requires m + multiset{x} == n + multiset{x}
    ensures m == n
  {
    assert m == m + multiset{x} - multiset{x};
    assert n == n + multiset{x} - multiset{x};
  }

  lemma OneOut<T>(p: seq<T>, x: T, q: seq<T>)
    ensures multiset(p + [x] + q) == multiset(p + q) + multiset{x}
  {
  }

  lemma KeysApart(p: seq<Item>, x: Item, q: seq<Item>)
    ensures Keys(p + [x] + q) == Keys(p) + [x.key] + Keys(q)
    ensures Keys(p + q) == Keys(p) + Keys(q)
  {
  }

  /** Items in another order have the same keys. */
  lemma {:induction false} KeysPermuted(a: seq<Item>, b: seq<Item>)
    requires multiset(a) == multiset(b)
    ensures multiset(Keys(a)) == multiset(Keys(b))
    decreases |a|
  {
    hide Keys;
    if a == [] {
      assert |multiset(b)| == |multiset(a)| == 0;
    } else {
      var n, x := |a| - 1, a[|a| - 1];
      assert a == a[..n] + [x] + [] && a[..n] == a[..n] + [];
      assert x in multiset(b);
      var i :| 0 <= i < |b| && b[i] == x;
      var p, q := b[..i], b[i + 1..];
      assert b == p + [x] + q;
      OneOut(p, x, q);
      OneOut(a[..n], x, []);
      Cancel(multiset(a[..n]), multiset(p + q), x);
      KeysPermuted(a[..n], p + q);
      KeysApart(p, x, q);
      KeysApart(a[..n], x, []);
      OneOut(Keys(p), x.key, Keys(q));
      OneOut(Keys(a[..n]), x.key, Keys([]));
    }
  }

  /** Lengths placed on a full roster cost what they cost the items. */
  lemma {:induction false} PlacedCost(freq: seq<nat>, items: seq<Item>, vals: seq<nat>, k: nat)
    requires Distinct(items) && |freq| == SYMBOLS && k <= |items| == |vals|
    requires forall i :: 0 <= i < |items| ==> items[i].sym < SYMBOLS && items[i].key == freq[items[i].sym]
    ensures CodeCost.Cost(freq, Placed(items, vals, k)) == CodeCost.Cost(Keys(items)[..k], vals[..k])
    decreases k
  {
    hide Distinct, Placed, CodeCost.Cost;
    if k == 0 {
      PlacedNone(items, vals);
      CodeCost.ZeroCost(freq, Zeros(SYMBOLS));
      assert Keys(items)[..0] == [] && vals[..0] == [];
      CodeCost.NoCost();
    } else {
      PlacedCost(freq, items, vals, k - 1);
      PlacedStep(items, vals, k - 1);
      PlacedYet(items, vals, k - 1);
      CodeCost.Update(freq, Placed(items, vals, k - 1), items[k - 1].sym, vals[k - 1], 0);
      assert Keys(items)[..k] == Keys(items)[..k - 1] + [items[k - 1].key] && vals[..k] == vals[..k - 1] + [vals[k - 1]];
      CodeCost.CostAppend(Keys(items)[..k - 1], vals[..k - 1], items[k - 1].key, vals[k - 1]);
    }
  }

  method Place(items: array<Item>, n: nat, vals: array<nat>) returns (lengths: array<nat>)
    requires n <= items.Length && n <= vals.Length && Distinct(items[..n])
    ensures fresh(lengths) && lengths.Length == SYMBOLS && lengths[..] == Placed(items[..n], vals[..n], n)
  {
    hide Distinct, Placed;
    DistinctBelow(items[..n]);
    lengths := new nat[SYMBOLS](_ => 0);
    ghost var its, vs := items[..n], vals[..n];
    PlacedNone(its, vs);
    assert lengths[..] == Zeros(SYMBOLS);
    for i := 0 to n
      invariant lengths[..] == Placed(its, vs, i) && items[..n] == its && vals[..n] == vs
    {
      PlacedStep(its, vs, i);
      assert items[i] == its[i] && vals[i] == vs[i];
      ghost var before := lengths[..];
      lengths[items[i].sym] := vals[i];
      assert lengths[..] == before[its[i].sym := vs[i]];
    }
  }

  lemma DistinctBelow(items: seq<Item>)
    requires Distinct(items)
    ensures forall i :: 0 <= i < |items| ==> items[i].sym < SYMBOLS
  {
  }

  lemma PlacedNone(items: seq<Item>, vals: seq<nat>)
    requires Distinct(items)
    ensures Placed(items, vals, 0) == Zeros(SYMBOLS)
  {
  }

  lemma PlacedStep(items: seq<Item>, vals: seq<nat>, k: nat)
    requires Distinct(items) && k < |items| && k < |vals|
    ensures items[k].sym < SYMBOLS && Placed(items, vals, k + 1) == Placed(items, vals, k)[items[k].sym := vals[k]]
  {
  }

  function FreqOf(freq: seq<nat>): nat -> nat {
    (s: nat) => if s < |freq| then freq[s] else 0
  }

  lemma {:induction false} RangeBy(f: nat -> nat, g: seq<nat>, v: seq<nat>, k: nat)
    requires k <= |g| && k <= |v| && forall i :: 0 <= i < k ==> g[i] == f(v[i])
    ensures Range(g, 0, k) == SumBy(f, v[..k])
    decreases k
  {
    if k > 0 {
      RangeBy(f, g, v, k - 1);
      assert v[..k][..k - 1] == v[..k - 1];
    }
  }

  /** The keys of a frequency roster add up to the total frequency. */
  lemma RosterTotal(freq: seq<nat>, items: seq<Item>, keys: seq<nat>)
    requires Roster(freq, FreqOf(freq), items) && |keys| == |items| && forall i :: 0 <= i < |items| ==> keys[i] == items[i].key
    ensures SumBy(Same, keys) == SumBy(Same, freq)
  {
    hide SumBy;
    var n := |items|;
    PlacedRoster(freq, FreqOf(freq), items, keys);
    PlacedSum(Same, items, keys, n);
    assert keys[..n] == keys;
    var r := Placed(items, keys, n);
    forall s | 0 <= s < SYMBOLS
      ensures r[s] == freq[s]
    {
    }
    assert r == freq;
  }

  /** What the tree gives: a length for exactly the symbols present, below 29, and a complete code
      when none is over the limit. */
  ghost predicate TreeLengths(freq: seq<nat>, lengths: seq<nat>) {
    && |freq| == |lengths| == SYMBOLS
    && (forall s :: 0 <= s < SYMBOLS ==> (lengths[s] > 0 <==> freq[s] > 0) && lengths[s] <= 28)
    && ((forall s :: 0 <= s < SYMBOLS ==> lengths[s] <= MAX_CODE_LEN) ==> Kraft(lengths) == FULL)
  }

  lemma FullIsPow2()
    ensures Pow2(15) == FULL
  {
    assert Pow2(5) == 32;
    Pow2Add(5, 5);
    Pow2Add(10, 5);
  }

  lemma TreeKraft(n: nat, leaves: seq<nat>, w: seq<nat>, par: seq<int>, dep: seq<nat>)
    requires Complete(n, leaves, w, par) && Depths(n, par, dep) && forall i :: 0 <= i < n ==> dep[i] <= MAX_CODE_LEN
    ensures |dep| == 2 * n - 1 && SumBy(Weight, dep[..n]) == FULL
  {
    hide Complete, SumBy, Pow2, Kraft;
    FullIsPow2();
    InnerShallower(n, leaves, w, par, dep, MAX_CODE_LEN);
    KraftEquality(n, leaves, w, par, dep, MAX_CODE_LEN);
    forall i | 0 <= i < n
      ensures Shares(dep, MAX_CODE_LEN)[i] == Weight(dep[i])
    {
      LeafDepth(n, par, dep, i);
    }
    RangeBy(Weight, Shares(dep, MAX_CODE_LEN), dep, n);
  }

  /** If no leaf is deeper than `top`, no node is. */
  lemma InnerShallower(n: nat, leaves: seq<nat>, w: seq<nat>, par: seq<int>, dep: seq<nat>, top: nat)
    requires Complete(n, leaves, w, par) && Depths(n, par, dep) && forall i :: 0 <= i < n ==> dep[i] <= top
    ensures |dep| == 2 * n - 1 && forall x :: 0 <= x < |dep| ==> dep[x] <= top
  {
    forall x | 0 <= x < |dep|
      ensures dep[x] <= top
    {
      NodeShallower(n, leaves, w, par, dep, top, x);
    }
  }

  lemma {:induction false} NodeShallower(n: nat, leaves: seq<nat>, w: seq<nat>, par: seq<int>, dep: seq<nat>, top: nat, x: nat)
    requires Complete(n, leaves, w, par) && Depths(n, par, dep) && x < |dep| && forall i :: 0 <= i < n ==> dep[i] <= top
    ensures dep[x] <= top
    decreases x
  {
    hide Tree, Pick;
    if x >= n {
      TreeOrder(n, leaves, w, par);
      Family(n, leaves, w, par, dep, 2 * (x - n));
      NodeShallower(n, leaves, w, par, dep, top, Pick(n, leaves, 2 * (x - n)));
    }
  }

  /** The lengths of the Huffman tree of at least two symbols: no prefix code takes fewer bits. */
  method BuildTree(freq: seq<nat>, items: array<Item>, n: nat) returns (lengths: array<nat>)
    requires 2 <= n <= items.Length && Roster(freq, FreqOf(freq), items[..n]) && SumBy(Same, freq) <= MAX_BLOCK
    modifies items
    requires |freq| == SYMBOLS && Keys(items[..n]) == CodeCost.Kept(freq, KeyList(FreqOf(freq)), SYMBOLS)
    ensures fresh(lengths) && lengths.Length == SYMBOLS && TreeLengths(freq, lengths[..]) && CodeCost.Cheapest(freq, lengths[..])
  {
    hide Roster, Sorted, Complete, Depths, Placed, TreeLengths, SumBy, Distinct, CodeCost.Cheapest, CodeCost.Kept;
    ghost var collected := items[..n];
    InsertionSort(items, n);
    KeysPermuted(collected, items[..n]);
    RosterPermuted(freq, FreqOf(freq), collected, items[..n]);
    var nf := new nat[2 * n - 1](_ => 0);
    var par := new int[2 * n - 1](_ => -1);
    ghost var its := items[..n];
    for i := 0 to n
      invariant items[..n] == its
      invariant forall j :: 0 <= j < i ==> nf[j] == its[j].key
    {
      assert items[i] == its[i];
      nf[i] := items[i].key;
    }
    ghost var keys := nf[..n];
    SortedKeys(its, keys);
    assert forall i :: 0 <= i < n ==> nf[i] == keys[i];
    ghost var leaves := Merge(nf, par, n);
    var dep := ComputeDepths(par, n, leaves, nf[..]);
    RosterDistinct(freq, FreqOf(freq), its);
    lengths := Place(items, n, dep);
    TreeLengthsOf(freq, its, keys, leaves, nf[..], par[..], dep[..]);
    assert keys == Keys(its);
    assert KeyList(FreqOf(freq)) == freq;
    PlacedCheapest(freq, its, leaves, nf[..], par[..], dep[..]);
    assert dep[..][..n] == dep[..n];
  }

  lemma PlacedCheapest(freq: seq<nat>, items: seq<Item>, leaves: seq<nat>, w: seq<nat>, par: seq<int>, dep: seq<nat>)
    requires |freq| == SYMBOLS && Roster(freq, FreqOf(freq), items) && Distinct(items)
    requires multiset(Keys(items)) == multiset(CodeCost.Kept(freq, freq, SYMBOLS))
    requires Complete(|items|, leaves, w, par) && Depths(|items|, par, dep) && |w| == |dep| == 2 * |items| - 1
    requires w[..|items|] == Keys(items)
    ensures CodeCost.Cheapest(freq, Placed(items, dep[..|items|], |items|))
  {
    hide Complete, Depths, Roster, Placed, Distinct, CodeCost.Cheapest, CodeCost.Kept, CodeCost.AtLeast, CodeCost.Cost;
    var n := |items|;
    HuffCost.TreeCheapest(n, leaves, w, par, dep);
    RosterKeys(freq, FreqOf(freq), items);
    PlacedCost(freq, items, dep[..n], n);
    assert Keys(items)[..n] == Keys(items) && dep[..n][..n] == dep[..n];
    CodeCost.CheapestFrom(freq, Placed(items, dep[..n], n));
  }

  lemma RosterDistinct(value: seq<nat>, key: nat -> nat, items: seq<Item>)
    requires Roster(value, key, items)
    ensures Distinct(items)
  {
  }

  lemma SortedKeys(items: seq<Item>, keys: seq<nat>)
    requires Sorted(items) && |keys| == |items| && forall j :: 0 <= j < |items| ==> keys[j] == items[j].key
    ensures forall i, j :: 0 <= i <= j < |items| ==> keys[i] <= keys[j]
  {
  }

  lemma LeafDepths(freq: seq<nat>, items: seq<Item>, keys: seq<nat>, leaves: seq<nat>, w: seq<nat>, par: seq<int>, dep: seq<nat>)
    requires Roster(freq, FreqOf(freq), items) && SumBy(Same, freq) <= MAX_BLOCK
    requires |keys| == |items| && forall i :: 0 <= i < |items| ==> keys[i] == items[i].key
    requires Complete(|items|, leaves, w, par) && w[..|items|] == keys && Depths(|items|, par, dep)
    ensures |dep| == 2 * |items| - 1 && forall i :: 0 <= i < |items| ==> 1 <= dep[i] <= 28
  {
    hide Complete, Depths, SumBy, Roster;
    var n := |items|;
    RosterTotal(freq, items, keys);
    CompleteSize(n, leaves, w, par);
    RangeBy(Same, w, w, n);
    LeafDepth(n, par, dep, 0);
    RosterKeys(freq, FreqOf(freq), items);
    forall x | 0 <= x < n
      ensures w[x] > 0
    {
      assert w[x] == keys[x];
    }
    forall i | 0 <= i < n
      ensures 1 <= dep[i] <= 28
    {
      BlockDepth(n, leaves, w, par, dep, i);
      LeafDepth(n, par, dep, i);
    }
  }

  lemma TreeLengthsOf(freq: seq<nat>, items: seq<Item>, keys: seq<nat>, leaves: seq<nat>, w: seq<nat>, par: seq<int>, dep: seq<nat>)
    requires Roster(freq, FreqOf(freq), items) && SumBy(Same, freq) <= MAX_BLOCK
    requires |keys| == |items| && forall i :: 0 <= i < |items| ==> keys[i] == items[i].key
    requires Complete(|items|, leaves, w, par) && w[..|items|] == keys && Depths(|items|, par, dep)
    ensures |dep| == 2 * |items| - 1
    ensures TreeLengths(freq, Placed(items, dep[..|items|], |items|))
  {
    hide Complete, Depths, SumBy, Roster, Kraft, Placed, Distinct;
    var n := |items|;
    LeafDepths(freq, items, keys, leaves, w, par, dep);
    RosterDistinct(freq, FreqOf(freq), items);
    PlacedLengths(freq, FreqOf(freq), items, dep[..n], 28);
    var r := Placed(items, dep[..n], n);
    if forall s :: 0 <= s < SYMBOLS ==> r[s] <= MAX_CODE_LEN {
      PlacedAt(items, dep[..n], n);
      DistinctBelow(items);
      assert forall i :: 0 <= i < n ==> dep[..n][i] == r[items[i].sym];
      assert forall i :: 0 <= i < n ==> dep[i] == dep[..n][i];
      TreeKraft(n, leaves, w, par, dep);
      PlacedSum(Weight, items, dep[..n], n);
      assert dep[..n][..n] == dep[..n];
      KraftIs(r);
    }
  }

  /** Lengths placed on a full roster go to exactly the symbols present. */
  lemma PlacedLengths(value: seq<nat>, key: nat -> nat, items: seq<Item>, vals: seq<nat>, top: nat)
    requires Roster(value, key, items) && |vals| == |items| && forall i :: 0 <= i < |items| ==> 1 <= vals[i] <= top
    ensures |value| == SYMBOLS && Distinct(items)
    ensures var r := Placed(items, vals, |items|);
            forall s :: 0 <= s < SYMBOLS ==> (r[s] > 0 <==> value[s] > 0) && r[s] <= top
  {
    PlacedRoster(value, key, items, vals);
  }

  lemma KraftIs(r: seq<nat>)
    ensures Kraft(r) == SumBy(Weight, r)
  {
  }

  lemma RosterKeys(value: seq<nat>, key: nat -> nat, items: seq<Item>)
    requires Roster(value, key, items)
    ensures forall i :: 0 <= i < |items| ==> items[i].sym < |value| && items[i].key == key(items[i].sym) && value[items[i].sym] > 0
  {
  }

  lemma CompleteSize(n: nat, leaves: seq<nat>, w: seq<nat>, par: seq<int>)
    requires Complete(n, leaves, w, par)
    ensures n >= 2 && |w| == |par| == 2 * n - 1
  {
  }

  lemma LeafDepth(n: nat, par: seq<int>, dep: seq<nat>, i: nat)
    requires Depths(n, par, dep) && i < n
    ensures |dep| == 2 * n - 1 && dep[i] >= 1
  {
    assert dep[i] == dep[par[i]] + 1;
  }

  //////////////////////////////////////////////////////////////////////////////
  // Depth limiting
  //////////////////////////////////////////////////////////////////////////////

  const DEPTHS: nat := 32

  function One(v: nat): nat {
    if v > 0 then 1 else 0
  }

  lemma {:induction false} AllOnes(vals: seq<nat>)
    requires forall i :: 0 <= i < |vals| ==> vals[i] > 0
    ensures SumBy(One, vals) == |vals|
    decreases |vals|
  {
    if vals != [] {
      AllOnes(vals[..|vals| - 1]);
    }
  }

  /** A roster is as long as there are nonzero values. */
  lemma RosterSize(value: seq<nat>, key: nat -> nat, items: seq<Item>)
    requires Roster(value, key, items)
    ensures |items| == SumBy(One, value) && |items| <= SYMBOLS
  {
    var n := |items|;
    var vals := seq(n, i requires 0 <= i < n => value[items[i].sym]);
    PlacedRoster(value, key, items, vals);
    var r := Placed(items, vals, n);
    forall s | 0 <= s < SYMBOLS
      ensures r[s] == value[s]
    {
    }
    assert r == value && vals[..n] == vals;
    PlacedSum(One, items, vals, n);
    AllOnes(vals);
    OnesAtMost(value);
  }

  lemma {:induction false} OnesAtMost(s: seq<nat>)
    ensures SumBy(One, s) <= |s|
    decreases |s|
  {
    if s != [] {
      OnesAtMost(s[..|s| - 1]);
    }
  }

  lemma {:induction false} RangeUpdate(g: seq<nat>, lo: nat, hi: nat, i: nat, v: nat)
    requires lo <= i < hi <= |g|
    ensures Range(g[i := v], lo, hi) + g[i] == Range(g, lo, hi) + v
    decreases hi
  {
    if i < hi - 1 {
      RangeUpdate(g, lo, hi - 1, i, v);
    } else {
      RangeSame(g, lo, hi - 1, i, v);
    }
  }

  lemma {:induction false} RangeSame(g: seq<nat>, lo: nat, hi: nat, i: nat, v: nat)
    requires hi <= i < |g|
    ensures Range(g[i := v], lo, hi) == Range(g, lo, hi)
    decreases hi
  {
    if lo < hi {
      RangeSame(g, lo, hi - 1, i, v);
    }
  }

  lemma {:induction false} RangeTail(g: seq<nat>, mid: nat, hi: nat)
    requires mid <= hi <= |g| && forall i :: mid <= i < hi ==> g[i] == 0
    ensures Range(g, 0, hi) == Range(g, 0, mid)
    decreases hi
  {
    if mid < hi {
      RangeTail(g, mid, hi - 1);
    }
  }

  lemma {:induction false} RangeGrows(g: seq<nat>, a: nat, b: nat)
    requires a <= b <= |g|
    ensures Range(g, 0, a) <= Range(g, 0, b)
    decreases b
  {
    if a < b {
      RangeGrows(g, a, b - 1);
    }
  }

  /** The Kraft sum of a length distribution, up to length `d`. */
  function KraftCount(bl: seq<nat>, d: nat): nat
    requires d < |bl| && d <= MAX_CODE_LEN
  {
    if d == 0 then 0 else KraftCount(bl, d - 1) + bl[d] * Pow2(MAX_CODE_LEN - d)
  }

  lemma {:induction false} KraftSame(bl: seq<nat>, top: nat, d: nat, v: nat)
    requires top < d < |bl| && top <= MAX_CODE_LEN
    ensures KraftCount(bl[d := v], top) == KraftCount(bl, top)
    decreases top
  {
    if top > 0 {
      KraftSame(bl, top - 1, d, v);
    }
  }

  /** Adding one code of length `d`. */
  lemma {:induction false} KraftMore(bl: seq<nat>, top: nat, d: nat)
    requires 1 <= d <= top < |bl| && top <= MAX_CODE_LEN
    ensures KraftCount(bl[d := bl[d] + 1], top) == KraftCount(bl, top) + Pow2(MAX_CODE_LEN - d)
    decreases top
  {
    if d < top {
      KraftMore(bl, top - 1, d);
    } else {
      KraftSame(bl, top - 1, d, bl[d] + 1);
      var p := Pow2(MAX_CODE_LEN - d);
      assert (bl[d] + 1) * p == bl[d] * p + p;
    }
  }

  /** Moving one code a level deeper frees half its share. */
  lemma KraftMove(bl: seq<nat>, d: nat)
    requires 1 <= d < MAX_CODE_LEN < |bl| && bl[d] > 0
    ensures KraftCount(bl[d := bl[d] - 1][d + 1 := bl[d + 1] + 1], MAX_CODE_LEN) + Pow2(MAX_CODE_LEN - d - 1) ==
            KraftCount(bl, MAX_CODE_LEN)
  {
    hide KraftCount;
    var less := bl[d := bl[d] - 1];
    KraftMore(less, MAX_CODE_LEN, d);
    assert less[d := less[d] + 1] == bl;
    KraftMore(less, MAX_CODE_LEN, d + 1);
  }

  lemma {:induction false} KraftEmpty(bl: seq<nat>, d: nat)
    requires d < |bl| && d <= MAX_CODE_LEN && forall k :: 1 <= k <= d ==> bl[k] == 0
    ensures KraftCount(bl, d) == 0
    decreases d
  {
    if d > 0 {
      KraftEmpty(bl, d - 1);
    }
  }

  /** A distribution of `ns` codes of lengths 1 to 15. */
  ghost predicate Distribution(bl: seq<nat>, ns: nat) {
    |bl| == DEPTHS && bl[0] == 0 && Range(bl, 0, MAX_CODE_LEN + 1) == ns
  }

  /** With at most 2^15 codes, an over-subscribed distribution has one above level 15. */
  lemma SomeToMove(bl: seq<nat>, ns: nat)
    requires Distribution(bl, ns) && ns <= FULL && forall k :: 1 <= k < MAX_CODE_LEN ==> bl[k] == 0
    ensures KraftCount(bl, MAX_CODE_LEN) <= FULL
  {
    KraftEmpty(bl, MAX_CODE_LEN - 1);
    assert Pow2(0) == 1;
    assert Range(bl, 0, MAX_CODE_LEN + 1) >= bl[MAX_CODE_LEN];
  }

  lemma DistributionMove(bl: seq<nat>, ns: nat, d: nat)
    requires Distribution(bl, ns) && 1 <= d < MAX_CODE_LEN && bl[d] > 0
    ensures Distribution(bl[d := bl[d] - 1][d + 1 := bl[d + 1] + 1], ns)
  {
    hide Range;
    var less := bl[d := bl[d] - 1];
    RangeUpdate(bl, 0, MAX_CODE_LEN + 1, d, bl[d] - 1);
    RangeUpdate(less, 0, MAX_CODE_LEN + 1, d + 1, bl[d + 1] + 1);
  }

  method KraftSum(bl: array<nat>) returns (kraft: nat)
    requires bl.Length == DEPTHS
    ensures kraft == KraftCount(bl[..], MAX_CODE_LEN)
  {
    kraft := 0;
    for d := 1 to MAX_CODE_LEN + 1
      invariant kraft == KraftCount(bl[..], d - 1)
    {
      kraft := kraft + bl[d] * Pow2(MAX_CODE_LEN - d);
    }
  }

  /** Level `e` is the last that codes were taken from, and `w` is where the last of them has got to. Above `e` nothing
      has changed; between `e` and 15 there is no other code; and a step back there are too many words. */
  ghost predicate LastMove(start: seq<nat>, now: seq<nat>, e: nat, w: nat) {
    && |start| == |now| == DEPTHS && 1 <= e < w <= MAX_CODE_LEN && now[e] < start[e] && now[w] > 0
    && (forall k :: 0 <= k < e ==> now[k] == start[k])
    && (forall k :: e < k < MAX_CODE_LEN ==> now[k] == if k == w then 1 else 0)
    && KraftCount(now[w := now[w] - 1][w - 1 := now[w - 1] + 1], MAX_CODE_LEN) > FULL
  }

  /** Only as many codes are lengthened as it takes, those of the deepest levels above 15 first. */
  ghost predicate Trimmed(start: seq<nat>, now: seq<nat>) {
    |start| == DEPTHS && if KraftCount(start, MAX_CODE_LEN) <= FULL then now == start else exists e, w :: LastMove(start, now, e, w)
  }

  /** The next move, from level `d`. */
  lemma MoveOn(start: seq<nat>, was: seq<nat>, now: seq<nat>, d: nat, e: nat, w: nat) returns (e1: nat, w1: nat)
    requires |start| == DEPTHS && |was| == DEPTHS && KraftCount(was, MAX_CODE_LEN) > FULL
    requires was == start || LastMove(start, was, e, w)
    requires 1 <= d < MAX_CODE_LEN && was[d] > 0 && forall k :: d < k < MAX_CODE_LEN ==> was[k] == 0
    requires now == was[d := was[d] - 1][d + 1 := was[d + 1] + 1]
    ensures LastMove(start, now, e1, w1)
  {
    hide KraftCount;
    if was != start && w < MAX_CODE_LEN {
      assert was[w] == 1;
      e1, w1 := e, d + 1;
    } else {
      e1, w1 := d, d + 1;
    }
    assert now[w1 := now[w1] - 1][w1 - 1 := now[w1 - 1] + 1] == was;
  }

  /** The repair loop: while the code is over-subscribed, one code of the deepest level above 15
      moves one level down. It ends, because the Kraft sum falls. */
  method Repair(bl: array<nat>, ghost ns: nat)
    requires Distribution(bl[..], ns) && ns <= FULL
    modifies bl
    ensures Distribution(bl[..], ns) && KraftCount(bl[..], MAX_CODE_LEN) <= FULL
    ensures Trimmed(old(bl[..]), bl[..])
  {
    hide KraftCount, Pow2, Range, LastMove;
    var kraft := KraftSum(bl);
    ghost var before, e, w := bl[..], 0, 0;
    while kraft > FULL
      invariant Distribution(bl[..], ns) && kraft == KraftCount(bl[..], MAX_CODE_LEN)
      invariant bl[..] == before || (LastMove(before, bl[..], e, w) && KraftCount(before, MAX_CODE_LEN) > FULL)
      decreases kraft
    {
      var d: nat := MAX_CODE_LEN - 1;
      while d > 0 && bl[d] == 0
        invariant d < MAX_CODE_LEN && forall k :: d < k < MAX_CODE_LEN ==> bl[k] == 0
      {
        d := d - 1;
      }
      if d == 0 {
        SomeToMove(bl[..], ns);
        assert false;
      }
      ghost var was := bl[..];
      KraftMove(was, d);
      DistributionMove(was, ns, d);
      bl[d] := bl[d] - 1;
      bl[d + 1] := bl[d + 1] + 1;
      assert bl[..] == was[d := was[d] - 1][d + 1 := was[d + 1] + 1];
      e, w := MoveOn(before, was, bl[..], d, e, w);
      kraft := KraftSum(bl);
    }
  }

  function Exactly(d: nat): nat -> nat {
    (v: nat) => if v == d then 1 else 0
  }

  function HowMany(s: seq<nat>, d: nat): nat {
    SumBy(Exactly(d), s)
  }

  lemma HowManyAppend(s: seq<nat>, v: nat)
    ensures forall d: nat :: HowMany(s + [v], d) == HowMany(s, d) + if v == d then 1 else 0
  {
    hide SumBy;
    forall d: nat
      ensures HowMany(s + [v], d) == HowMany(s, d) + if v == d then 1 else 0
    {
      SumByAppend(Exactly(d), s, v);
    }
  }

  lemma NothingCounted()
    ensures forall d: nat :: HowMany([], d) == 0
  {
  }

  /** Counts values from `lo` up to but not including `hi`. */
  function Within(lo: nat, hi: nat): nat -> nat {
    (v: nat) => if lo <= v < hi then 1 else 0
  }

  /** How many symbols have each length, those above 15 counted at 15. */
  ghost predicate Tallies(bl: seq<nat>, lengths: seq<nat>) {
    && |bl| == DEPTHS && SumBy(Within(MAX_CODE_LEN, DEPTHS), lengths) == bl[MAX_CODE_LEN]
    && forall d :: 1 <= d < MAX_CODE_LEN ==> HowMany(lengths, d) == bl[d]
  }

  lemma {:induction false} WithinMore(lo: nat, hi: nat, s: seq<nat>)
    requires lo <= hi
    ensures SumBy(Within(lo, hi + 1), s) == SumBy(Within(lo, hi), s) + HowMany(s, hi)
    decreases |s|
  {
    if s != [] {
      WithinMore(lo, hi, s[..|s| - 1]);
    }
  }

  lemma {:induction false} WithinOne(lo: nat, s: seq<nat>)
    ensures SumBy(Within(lo, lo + 1), s) == HowMany(s, lo)
    decreases |s|
  {
    if s != [] {
      WithinOne(lo, s[..|s| - 1]);
    }
  }

  lemma CountedNext(bl: seq<nat>, lengths: seq<nat>, i: nat)
    requires |bl| == DEPTHS && i < |lengths| && lengths[i] < DEPTHS
    requires forall d :: 1 <= d < DEPTHS ==> HowMany(lengths[..i], d) == bl[d]
    ensures forall d :: 1 <= d < DEPTHS ==> HowMany(lengths[..i + 1], d) == if d == lengths[i] then bl[d] + 1 else bl[d]
  {
    hide HowMany;
    assert lengths[..i + 1] == lengths[..i] + [lengths[i]];
    HowManyAppend(lengths[..i], lengths[i]);
  }

  /** How many symbols have each length, with everything deeper than 15 counted at 15. */
  method CountCapped(lengths: array<nat>) returns (bl: array<nat>)
    requires lengths.Length == SYMBOLS && forall s :: 0 <= s < SYMBOLS ==> lengths[s] < DEPTHS
    ensures fresh(bl) && bl.Length == DEPTHS && Distribution(bl[..], SumBy(One, lengths[..])) && Tallies(bl[..], lengths[..])
  {
    hide SumBy, Range, HowMany;
    bl := new nat[DEPTHS](_ => 0);
    RangeTail(bl[..], 0, DEPTHS);
    EmptyRange(bl[..]);
    NothingCounted();
    assert lengths[..0] == [];
    for i := 0 to SYMBOLS
      invariant bl[0] == 0 && Range(bl[..], 0, DEPTHS) == SumBy(One, lengths[..i])
      invariant forall d :: 1 <= d < DEPTHS ==> HowMany(lengths[..i], d) == bl[d]
    {
      var len := lengths[i];
      assert lengths[..i + 1] == lengths[..i] + [len];
      SumByAppend(One, lengths[..i], len);
      assert lengths[..][..i] == lengths[..i] && lengths[..][..i + 1] == lengths[..i + 1];
      CountedNext(bl[..], lengths[..], i);
      if len > 0 {
        ghost var was := bl[..];
        RangeUpdate(was, 0, DEPTHS, len, was[len] + 1);
        bl[len] := bl[len] + 1;
        assert bl[..] == was[len := was[len] + 1];
      }
    }
    assert lengths[..SYMBOLS] == lengths[..];
    CapCounts(bl, lengths[..]);
  }

  /** Everything above 15 goes to 15. */
  method CapCounts(bl: array<nat>, ghost lengths: seq<nat>)
    requires bl.Length == DEPTHS && bl[0] == 0 && Range(bl[..], 0, DEPTHS) == SumBy(One, lengths)
    requires forall d :: 1 <= d < DEPTHS ==> HowMany(lengths, d) == bl[d]
    modifies bl
    ensures Distribution(bl[..], SumBy(One, lengths)) && Tallies(bl[..], lengths)
  {
    hide SumBy, Range, HowMany;
    WithinOne(MAX_CODE_LEN, lengths);
    for d := MAX_CODE_LEN + 1 to DEPTHS
      invariant bl[0] == 0 && Range(bl[..], 0, DEPTHS) == SumBy(One, lengths)
      invariant forall k :: MAX_CODE_LEN < k < d ==> bl[k] == 0
      invariant forall k :: 1 <= k < DEPTHS && (k < MAX_CODE_LEN || d <= k) ==> HowMany(lengths, k) == bl[k]
      invariant SumBy(Within(MAX_CODE_LEN, d), lengths) == bl[MAX_CODE_LEN]
    {
      ghost var was := bl[..];
      RangeUpdate(was, 0, DEPTHS, MAX_CODE_LEN, was[MAX_CODE_LEN] + was[d]);
      ghost var mid := was[MAX_CODE_LEN := was[MAX_CODE_LEN] + was[d]];
      RangeUpdate(mid, 0, DEPTHS, d, 0);
      WithinMore(MAX_CODE_LEN, d, lengths);
      bl[MAX_CODE_LEN] := bl[MAX_CODE_LEN] + bl[d];
      bl[d] := 0;
      assert bl[..] == mid[d := 0];
    }
    RangeTail(bl[..], MAX_CODE_LEN + 1, DEPTHS);
  }

  lemma EmptyRange(g: seq<nat>)
    ensures Range(g, 0, 0) == 0 && SumBy(One, []) == 0
  {
  }

  /** `base` with the first `k` items' symbols given values. */
  ghost function Overlaid(base: seq<nat>, items: seq<Item>, vals: seq<nat>, k: nat): (r: seq<nat>)
    requires |base| == SYMBOLS && Distinct(items) && k <= |items| && k <= |vals|
    ensures |r| == SYMBOLS
  {
    if k == 0 then base else Overlaid(base, items, vals, k - 1)[items[k - 1].sym := vals[k - 1]]
  }

  lemma {:induction false} OverlaidAt(base: seq<nat>, items: seq<Item>, vals: seq<nat>, k: nat, s: nat)
    requires |base| == SYMBOLS && Distinct(items) && k <= |items| && k <= |vals| && s < SYMBOLS
    ensures if exists i :: 0 <= i < k && items[i].sym == s
            then Overlaid(base, items, vals, k)[s] == Placed(items, vals, k)[s]
            else Overlaid(base, items, vals, k)[s] == base[s] && Placed(items, vals, k)[s] == 0
    decreases k
  {
    if k > 0 {
      OverlaidAt(base, items, vals, k - 1, s);
      if items[k - 1].sym != s && exists i :: 0 <= i < k && items[i].sym == s {
        var i :| 0 <= i < k && items[i].sym == s;
        assert i < k - 1;
      }
    }
  }

  /** Overwriting every nonzero value is placing on zeros. */
  lemma OverlaidAll(base: seq<nat>, key: nat -> nat, items: seq<Item>, vals: seq<nat>)
    requires Roster(base, key, items) && |items| == |vals|
    ensures Overlaid(base, items, vals, |items|) == Placed(items, vals, |items|)
  {
    var r, q := Overlaid(base, items, vals, |items|), Placed(items, vals, |items|);
    forall s | 0 <= s < SYMBOLS
      ensures r[s] == q[s]
    {
      OverlaidAt(base, items, vals, |items|, s);
      if base[s] > 0 {
        var i :| 0 <= i < |items| && items[i] == Item(key(s), s);
        assert items[i].sym == s;
      }
    }
  }

  lemma {:induction false} OverlaidPrefix(base: seq<nat>, items: seq<Item>, vals: seq<nat>, more: seq<nat>, k: nat)
    requires |base| == SYMBOLS && Distinct(items) && k <= |items| && k <= |vals|
    ensures Overlaid(base, items, vals + more, k) == Overlaid(base, items, vals, k)
    decreases k
  {
    if k > 0 {
      OverlaidPrefix(base, items, vals, more, k - 1);
    }
  }

  /** Gives the sorted symbols their lengths, shortest first. */
  method Distribute(bl: array<nat>, items: array<Item>, ns: nat, lengths: array<nat>) returns (ghost vals: seq<nat>)
    requires ns <= items.Length && Distinct(items[..ns]) && Distribution(bl[..], ns)
    requires lengths.Length == SYMBOLS && lengths != bl
    modifies lengths
    ensures |vals| == ns && forall i :: 0 <= i < ns ==> 1 <= vals[i] <= MAX_CODE_LEN
    ensures forall i, j :: 0 <= i <= j < ns ==> vals[i] <= vals[j]
    ensures SumBy(Weight, vals) == KraftCount(bl[..], MAX_CODE_LEN)
    ensures forall d :: 1 <= d <= MAX_CODE_LEN ==> HowMany(vals, d) == bl[d]
    ensures lengths[..] == Overlaid(old(lengths[..]), items[..ns], vals, ns)
  {
    hide KraftCount, Pow2, SumBy, Overlaid, Distinct, Weight;
    ghost var its, base, counts := items[..ns], lengths[..], bl[..];
    vals := [];
    var si: nat := 0;
    DistributeStart(base, its, counts);
    DistinctBelow(its);
    for d := 1 to MAX_CODE_LEN + 1
      invariant Given(counts, vals, si, d, 0, ns) && bl[..] == counts
      invariant lengths[..] == Overlaid(base, its, vals, si)
    {
      NextLevel(counts, vals, si, d, ns);
      var c: nat := 0;
      while c < bl[d] && si < ns
        invariant Given(counts, vals, si, d, c, ns) && bl[..] == counts
        invariant lengths[..] == Overlaid(base, its, vals, si)
        decreases ns - si
      {
        GiveOne(counts, vals, si, d, c, ns);
        OverlaidNext(base, its, vals, d, si);
        assert items[si] == its[si];
        ghost var was := lengths[..];
        lengths[items[si].sym] := d;
        assert lengths[..] == was[its[si].sym := d];
        vals, si, c := vals + [d], si + 1, c + 1;
      }
      assert c == bl[d] by { RoomLeft(counts, vals, si, d, c, ns); }
      LevelDone(counts, vals, si, d, ns);
    }
  }

  /** `si` symbols have been given lengths: all of the shorter ones, and `c` of length `d`. */
  ghost predicate Given(counts: seq<nat>, vals: seq<nat>, si: nat, d: nat, c: nat, ns: nat) {
    && Distribution(counts, ns) && 1 <= d <= MAX_CODE_LEN + 1 && |vals| == si <= ns
    && si == Range(counts, 0, d) + c && (d <= MAX_CODE_LEN ==> c <= counts[d])
    && (forall i :: 0 <= i < si ==> 1 <= vals[i] <= d && (c == 0 ==> vals[i] < d))
    && (forall i, j :: 0 <= i <= j < si ==> vals[i] <= vals[j])
    && SumBy(Weight, vals) == KraftCount(counts, d - 1) + c * Pow2(if d <= MAX_CODE_LEN then MAX_CODE_LEN - d else 0)
    && forall k :: 1 <= k <= MAX_CODE_LEN ==> HowMany(vals, k) == if k < d then counts[k] else if k == d then c else 0
  }

  lemma DistributeStart(base: seq<nat>, items: seq<Item>, counts: seq<nat>)
    requires |base| == SYMBOLS && Distinct(items) && Distribution(counts, |items|)
    ensures Given(counts, [], 0, 1, 0, |items|) && Overlaid(base, items, [], 0) == base
  {
    NothingCounted();
    assert Range(counts, 0, 1) == Range(counts, 0, 0) + counts[0];
  }

  lemma NextLevel(counts: seq<nat>, vals: seq<nat>, si: nat, d: nat, ns: nat)
    requires Given(counts, vals, si, d, 0, ns)
    ensures d <= |counts| && |vals| == si <= ns
  {
  }

  lemma GiveOne(counts: seq<nat>, vals: seq<nat>, si: nat, d: nat, c: nat, ns: nat)
    requires Given(counts, vals, si, d, c, ns) && d <= MAX_CODE_LEN && c < counts[d] && si < ns
    ensures Given(counts, vals + [d], si + 1, d, c + 1, ns)
  {
    hide Range, Pow2, KraftCount, SumBy, HowMany;
    SumByAppend(Weight, vals, d);
    HowManyAppend(vals, d);
    var p := Pow2(MAX_CODE_LEN - d);
    assert (c + 1) * p == c * p + p;
  }

  lemma RoomLeft(counts: seq<nat>, vals: seq<nat>, si: nat, d: nat, c: nat, ns: nat)
    requires Given(counts, vals, si, d, c, ns) && d <= MAX_CODE_LEN && !(c < counts[d] && si < ns)
    ensures c == counts[d]
  {
    assert Range(counts, 0, d + 1) == Range(counts, 0, d) + counts[d];
    RangeGrows(counts, d + 1, MAX_CODE_LEN + 1);
  }

  lemma LevelDone(counts: seq<nat>, vals: seq<nat>, si: nat, d: nat, ns: nat)
    requires d <= MAX_CODE_LEN < |counts| && Given(counts, vals, si, d, counts[d], ns)
    ensures Given(counts, vals, si, d + 1, 0, ns)
  {
    hide Pow2, SumBy;
    assert Range(counts, 0, d + 1) == Range(counts, 0, d) + counts[d];
  }

  lemma OverlaidNext(base: seq<nat>, items: seq<Item>, vals: seq<nat>, d: nat, si: nat)
    requires |base| == SYMBOLS && Distinct(items) && si < |items| && |vals| == si
    ensures items[si].sym < SYMBOLS
    ensures Overlaid(base, items, vals + [d], si + 1) == Overlaid(base, items, vals, si)[items[si].sym := d]
  {
    OverlaidPrefix(base, items, vals, [d], si);
  }

  function CapKey(lengths: seq<nat>): nat -> nat {
    (s: nat) =>
      if s < |lengths| then (if lengths[s] > MAX_CODE_LEN then MAX_CODE_LEN else lengths[s]) * SYMBOLS + s else 0
  }

  /** A usable set of lengths: 1 to 15 on exactly the symbols present, not over-subscribed. */
  ghost predicate CodeLengths(freq: seq<nat>, lengths: seq<nat>) {
    && |freq| == |lengths| == SYMBOLS
    && (forall s :: 0 <= s < SYMBOLS ==> (lengths[s] > 0 <==> freq[s] > 0) && lengths[s] <= MAX_CODE_LEN)
    && Kraft(lengths) <= FULL
  }

  function Capped(len: nat): nat {
    if len > MAX_CODE_LEN then MAX_CODE_LEN else len
  }

  predicate Earlier(tree: seq<nat>, s: nat, t: nat)
    requires s < |tree| && t < |tree|
  {
    && tree[s] > 0 && tree[t] > 0
    && (Capped(tree[s]) < Capped(tree[t]) || (Capped(tree[s]) == Capped(tree[t]) && s < t))
  }

  ghost predicate InOrder(tree: seq<nat>, lengths: seq<nat>) {
    && |tree| == |lengths|
    && forall s, t :: 0 <= s < |tree| && 0 <= t < |tree| && Earlier(tree, s, t) ==> lengths[s] <= lengths[t]
  }

  /** What limiting to 15 keeps: the tree's lengths, capped, with only as many codes lengthened as it takes, and handed
      out in the order of the capped lengths and of the symbols within one length. */
  ghost predicate Limited(tree: seq<nat>, lengths: seq<nat>) {
    && |tree| == |lengths| == SYMBOLS
    && InOrder(tree, lengths)
    && exists was, now :: Tallies(was, tree) && Tallies(now, lengths) && Trimmed(was, now)
  }

  /** Ascending values on items sorted by length and symbol. */
  lemma HandedOut(tree: seq<nat>, items: seq<Item>, vals: seq<nat>)
    requires Roster(tree, CapKey(tree), items) && Sorted(items) && |vals| == |items|
    requires forall i, j :: 0 <= i <= j < |vals| ==> vals[i] <= vals[j]
    ensures Distinct(items)
    ensures var r := Placed(items, vals, |items|);
            InOrder(tree, r)
  {
    hide Placed, Distinct, CapKey, Sorted;
    RosterDistinct(tree, CapKey(tree), items);
    var r := Placed(items, vals, |items|);
    forall s, t | 0 <= s < SYMBOLS && 0 <= t < SYMBOLS && Earlier(tree, s, t)
      ensures r[s] <= r[t]
    {
      var i :| 0 <= i < |items| && items[i] == Item(CapKey(tree)(s), s);
      var j :| 0 <= j < |items| && items[j] == Item(CapKey(tree)(t), t);
      KeyOrder(tree, s, t);
      SortedOrder(items, i, j);
      PlacedAt(items, vals, |items|);
      assert r[items[i].sym] == vals[i] && r[items[j].sym] == vals[j];
    }
  }

  lemma KeyOrder(tree: seq<nat>, s: nat, t: nat)
    requires |tree| == SYMBOLS && s < SYMBOLS && t < SYMBOLS && Earlier(tree, s, t)
    ensures CapKey(tree)(s) < CapKey(tree)(t)
  {
  }

  lemma SortedOrder(items: seq<Item>, i: nat, j: nat)
    requires Sorted(items) && i < |items| && j < |items| && items[i].key < items[j].key
    ensures i < j
  {
  }

  /** The tallies of what was handed out. */
  lemma HandedCounts(items: seq<Item>, vals: seq<nat>, bl: seq<nat>)
    requires Distinct(items) && |vals| == |items| && |bl| == DEPTHS
    requires forall i :: 0 <= i < |vals| ==> vals[i] <= MAX_CODE_LEN
    requires forall d :: 1 <= d <= MAX_CODE_LEN ==> HowMany(vals, d) == bl[d]
    ensures Tallies(bl, Placed(items, vals, |items|))
  {
    hide Placed, SumBy, Distinct;
    var r := Placed(items, vals, |items|);
    assert vals[..|items|] == vals;
    forall d | 1 <= d < MAX_CODE_LEN
      ensures HowMany(r, d) == bl[d]
    {
      PlacedSum(Exactly(d), items, vals, |items|);
    }
    PlacedSum(Within(MAX_CODE_LEN, DEPTHS), items, vals, |items|);
    SameWithin(vals);
  }

  lemma {:induction false} SameWithin(vals: seq<nat>)
    requires forall i :: 0 <= i < |vals| ==> vals[i] <= MAX_CODE_LEN
    ensures SumBy(Within(MAX_CODE_LEN, DEPTHS), vals) == HowMany(vals, MAX_CODE_LEN)
  {
    if vals != [] {
      SameWithin(vals[..|vals| - 1]);
    }
  }

  /** Hands out the lengths of a distribution. */
  method HandOut(freq: seq<nat>, bl: array<nat>, lengths: array<nat>)
    requires lengths.Length == SYMBOLS && bl.Length == DEPTHS && lengths != bl && TreeLengths(freq, lengths[..])
    requires Distribution(bl[..], SumBy(One, lengths[..])) && KraftCount(bl[..], MAX_CODE_LEN) <= FULL
    modifies lengths
    ensures CodeLengths(freq, lengths[..]) && Tallies(bl[..], lengths[..]) && InOrder(old(lengths[..]), lengths[..])
  {
    hide Kraft, SumBy, Roster, Placed, Overlaid, Distribution, KraftCount, CapKey, Sorted, Tallies, HowMany, Earlier, Distinct;
    var start := lengths[..];
    var items, ns := Collect(start, CapKey(start));
    RosterSize(start, CapKey(start), items[..ns]);
    ghost var collected := items[..ns];
    InsertionSort(items, ns);
    ghost var its := items[..ns];
    RosterPermuted(start, CapKey(start), collected, its);
    RosterDistinct(start, CapKey(start), its);
    ghost var vals := Distribute(bl, items, ns, lengths);
    OverlaidAll(start, CapKey(start), its, vals);
    PlacedLengths(start, CapKey(start), its, vals, MAX_CODE_LEN);
    PlacedSum(Weight, its, vals, ns);
    assert vals[..ns] == vals;
    KraftIs(lengths[..]);
    HandedOut(start, its, vals);
    HandedCounts(its, vals, bl[..]);
  }

  /** Limits the lengths of a tree to 15. */
  method LimitDepths(freq: seq<nat>, lengths: array<nat>)
    requires lengths.Length == SYMBOLS && TreeLengths(freq, lengths[..])
    modifies lengths
    ensures CodeLengths(freq, lengths[..])
    ensures if exists s :: 0 <= s < SYMBOLS && old(lengths[s]) > MAX_CODE_LEN then Limited(old(lengths[..]), lengths[..])
            else lengths[..] == old(lengths[..]) && Kraft(lengths[..]) == FULL
  {
    hide Kraft, SumBy, Distribution, KraftCount, Tallies, Trimmed, InOrder;
    ghost var start := lengths[..];
    var maxDepth: nat := 0;
    for s := 0 to SYMBOLS
      invariant forall t :: 0 <= t < s ==> lengths[t] <= maxDepth
      invariant maxDepth > MAX_CODE_LEN ==> exists t :: 0 <= t < s && lengths[t] == maxDepth
    {
      if lengths[s] > maxDepth {
        maxDepth := lengths[s];
      }
    }
    assert forall s :: 0 <= s < SYMBOLS ==> start[s] == lengths[s];
    if maxDepth <= MAX_CODE_LEN {
      return;
    }
    var bl := CountCapped(lengths);
    FewCodesLeft(start);
    ghost var counted := bl[..];
    Repair(bl, SumBy(One, start));
    HandOut(freq, bl, lengths);
    assert Tallies(counted, start) && Tallies(bl[..], lengths[..]) && Trimmed(counted, bl[..]);
  }

  lemma FewCodesLeft(lengths: seq<nat>)
    requires |lengths| == SYMBOLS
    ensures SumBy(One, lengths) <= FULL
  {
    OnesAtMost(lengths);
  }

  /** `build_code_lengths`. For every histogram of a block: lengths 1 to 15 on exactly the symbols
      present, satisfying Kraft's inequality. With more than two symbols they are those of a code that no prefix
      code undercuts (`tree`), limited if one of its lengths is above 15. */
  method BuildCodeLengths(freq: seq<nat>) returns (lengths: array<nat>, ghost tree: seq<nat>)
    requires |freq| == SYMBOLS && SumBy(Same, freq) <= MAX_BLOCK
    ensures fresh(lengths) && lengths.Length == SYMBOLS && CodeLengths(freq, lengths[..])
    ensures SumBy(One, freq) <= 2 ==> forall s :: 0 <= s < SYMBOLS ==> lengths[s] == if freq[s] > 0 then 1 else 0
    ensures SumBy(One, freq) > 2 ==> CodeCost.Cheapest(freq, tree)
    ensures SumBy(One, freq) > 2 ==>
              if exists s :: 0 <= s < |tree| && tree[s] > MAX_CODE_LEN then Limited(tree, lengths[..]) else lengths[..] == tree
  {
    hide Kraft, SumBy, Roster, Placed, TreeLengths, CodeCost.Cheapest, CodeCost.Kept, Limited;
    var items, n := Collect(freq, FreqOf(freq));
    RosterSize(freq, FreqOf(freq), items[..n]);
    tree := [];
    RosterDistinct(freq, FreqOf(freq), items[..n]);
    if n <= 2 {
      var ones := new nat[2](_ => 1);
      lengths := Place(items, n, ones);
      PlacedLengths(freq, FreqOf(freq), items[..n], ones[..n], 1);
      PlacedSum(Weight, items[..n], ones[..n], n);
      FewCodes(ones[..n]);
      assert ones[..n][..n] == ones[..n];
      KraftIs(lengths[..]);
      return;
    }
    lengths := BuildTree(freq, items, n);
    tree := lengths[..];
    LimitDepths(freq, lengths);
  }

  lemma FewCodes(ones: seq<nat>)
    requires |ones| <= 2 && forall i :: 0 <= i < |ones| ==> ones[i] == 1
    ensures SumBy(Weight, ones) <= FULL
  {
    FullIsPow2();
    assert Weight(1) == Pow2(14) && Pow2(15) == 2 * Pow2(14);
    if |ones| > 0 {
      assert SumBy(Weight, ones) == SumBy(Weight, ones[..|ones| - 1]) + Weight(1);
    }
  }
}
