/** Code lengths of at most 15 bits (src/zupt_lzh.c:202-316): the depths of a Huffman tree, clamped, and
    the repair of a code that clamping has over-subscribed. */
module LzhLengths {
  import opened Arith
  import opened Bits
  import CodeCost
  import opened HuffCode
  import opened HuffLengths
  import opened HuffTree
  import opened LzhTree

  //////////////////////////////////////////////////////////////////////////////
  // The depths of a tree, as lengths
  //////////////////////////////////////////////////////////////////////////////

  /** A length for each symbol present, and a code that is not over-subscribed by more than clamping. */
  ghost predicate Depths15(freq: seq<nat>, dp: seq<nat>) {
    && |dp| == |freq| && (forall s :: 0 <= s < |freq| ==> dp[s] <= MAX_CODE_LEN && (dp[s] > 0 <==> freq[s] > 0))
    && SumBy(Weight, dp) >= FULL && SumBy(ShortWeight, dp) <= FULL
  }

  ghost predicate Listed(items: seq<Item>, s: nat) {
    exists i :: 0 <= i < |items| && items[i].sym == s
  }

  /** One length from 1 to 15 for each symbol present. */
  ghost predicate Covers(freq: seq<nat>, items: seq<Item>) {
    && InAlphabet(items, |freq|) && Separate(items)
    && (forall i :: 0 <= i < |items| ==> 1 <= items[i].key <= MAX_CODE_LEN && freq[items[i].sym] > 0)
    && (forall s :: 0 <= s < |freq| && freq[s] > 0 ==> Listed(items, s))
  }

  /** One tree with every present symbol, once. */
  ghost predicate TreeOf(freq: seq<nat>, t: Trie) {
    t.Fork? && multiset(Symbols(t)) == multiset(Present(freq, |freq|))
  }

  /** The leaves are present symbols, with lengths from 1 to 15. */
  lemma LeafPresent(freq: seq<nat>, t: Trie, i: nat)
    requires TreeOf(freq, t) && i < |Symbols(t)|
    ensures Leaves(t, 0)[i].sym == Symbols(t)[i] < |freq| && freq[Symbols(t)[i]] > 0
    ensures 1 <= Leaves(t, 0)[i].key <= MAX_CODE_LEN
  {
    hide Symbols, Leaves, Present;
    LeafSymbols(t, 0, i);
    ForkKeys(t, i);
    assert Symbols(t)[i] in multiset(Present(freq, |freq|));
    PresentMeans(freq, Symbols(t)[i]);
  }

  lemma PresentMeans(freq: seq<nat>, s: nat)
    ensures s in Present(freq, |freq|) <==> s < |freq| && freq[s] > 0
    ensures forall i, j :: 0 <= i < j < |Present(freq, |freq|)| ==> Present(freq, |freq|)[i] != Present(freq, |freq|)[j]
  {
  }

  lemma LeavesSeparate(freq: seq<nat>, t: Trie)
    requires TreeOf(freq, t)
    ensures Separate(Leaves(t, 0))
  {
    hide Symbols, Leaves, Present;
    var syms := Symbols(t);
    forall i, j | 0 <= i < j < |Leaves(t, 0)|
      ensures Leaves(t, 0)[i].sym != Leaves(t, 0)[j].sym
    {
      LeafPresent(freq, t, i);
      LeafPresent(freq, t, j);
      if syms[i] == syms[j] {
        CountTwice(syms, i, j);
        PresentMeans(freq, syms[i]);
        CountOnce(Present(freq, |freq|), syms[i]);
      }
    }
  }

  lemma LeafOf(freq: seq<nat>, t: Trie, s: nat)
    requires TreeOf(freq, t) && s < |freq| && freq[s] > 0
    ensures Listed(Leaves(t, 0), s)
  {
    hide Symbols, Leaves, Present;
    PresentMeans(freq, s);
    assert s in multiset(Symbols(t));
    var i :| 0 <= i < |Symbols(t)| && Symbols(t)[i] == s;
    LeafPresent(freq, t, i);
  }

  /** The leaves cover exactly the present symbols, each once. */
  lemma LeavesCover(freq: seq<nat>, t: Trie)
    requires TreeOf(freq, t)
    ensures Below(t, |freq|) && Covers(freq, Leaves(t, 0))
  {
    hide Symbols, Leaves, Present, Separate;
    forall i | 0 <= i < |Leaves(t, 0)|
      ensures Leaves(t, 0)[i].sym == Symbols(t)[i] < |freq| && freq[Symbols(t)[i]] > 0
      ensures 1 <= Leaves(t, 0)[i].key <= MAX_CODE_LEN
    {
      LeafPresent(freq, t, i);
    }
    LeavesSeparate(freq, t);
    forall s | 0 <= s < |freq| && freq[s] > 0
      ensures Listed(Leaves(t, 0), s)
    {
      LeafOf(freq, t, s);
    }
  }

  lemma ForkKeys(t: Trie, i: nat)
    requires t.Fork? && i < |Symbols(t)|
    ensures Leaves(t, 0)[i].key >= 1
  {
    var n := |Symbols(t.left)|;
    if i < n {
      LeafSymbols(t.left, 1, i);
    } else {
      LeafSymbols(t.right, 1, i - n);
    }
  }

  /** A tree's clamped depths are full or over-subscribed: over exactly if a leaf was too deep. */
  lemma TreeLengths(freq: seq<nat>, t: Trie)
    requires TreeOf(freq, t)
    ensures InAlphabet(Leaves(t, 0), |freq|)
    ensures var dp := Put(Zeros(|freq|), Leaves(t, 0));
            Depths15(freq, dp) && (SumBy(Weight, dp) == FULL <==> !TooDeep(t, 0))
  {
    hide Leaves, Symbols, Put, SumBy, Pow2, TooDeep, Present;
    LeavesCover(freq, t);
    var base, leaves := Zeros(|freq|), Leaves(t, 0);
    PutLengths(freq, base, leaves);
    PutSum(Weight, base, leaves);
    PutSum(ShortWeight, base, leaves);
    SumByZeros(Weight, base);
    SumByZeros(ShortWeight, base);
    ClampedKraft(t, 0);
    ShortKraft(t, 0);
    FullIsPow2();
  }

  /** Items that cover exactly the present symbols, put over anything that is zero elsewhere. */
  lemma PutLengths(freq: seq<nat>, base: seq<nat>, items: seq<Item>)
    requires |base| == |freq| && Covers(freq, items)
    requires forall s :: 0 <= s < |freq| && freq[s] == 0 ==> base[s] == 0
    ensures forall s :: 0 <= s < |freq| ==>
              Put(base, items)[s] <= MAX_CODE_LEN && (Put(base, items)[s] > 0 <==> freq[s] > 0)
    ensures Put(base, items) == Put(Zeros(|freq|), items)
  {
    forall s | 0 <= s < |freq|
      ensures Put(base, items)[s] <= MAX_CODE_LEN && (Put(base, items)[s] > 0 <==> freq[s] > 0)
      ensures Put(base, items)[s] == Put(Zeros(|freq|), items)[s]
    {
      if freq[s] > 0 {
        var i :| 0 <= i < |items| && items[i].sym == s;
        PutAt(base, items, i);
        PutAt(Zeros(|freq|), items, i);
      } else {
        PutKeeps(base, items, s);
        PutKeeps(Zeros(|freq|), items, s);
      }
    }
  }

  //////////////////////////////////////////////////////////////////////////////
  // The repair
  //////////////////////////////////////////////////////////////////////////////

  /** A distribution of `ns` lengths that is full or over-subscribed, though not above level 15. */
  ghost predicate Crowded(lc: seq<nat>, ns: nat) {
    && |lc| == LEVELS && lc[0] == 0 && Range(lc, 0, LEVELS) == ns < FULL
    && KraftCount(lc, MAX_CODE_LEN) >= FULL && KraftCount(lc, MAX_CODE_LEN - 1) <= FULL
  }

  lemma {:induction false} CountsShort(lengths: seq<nat>)
    requires forall i :: 0 <= i < |lengths| ==> lengths[i] <= MAX_CODE_LEN
    ensures KraftCount(Counts(lengths), MAX_CODE_LEN - 1) == SumBy(ShortWeight, lengths)
    decreases |lengths|
  {
    if lengths == [] {
      KraftEmpty(Counts(lengths), MAX_CODE_LEN - 1);
    } else {
      var n := |lengths| - 1;
      CountsShort(lengths[..n]);
      var bl, len := Counts(lengths[..n]), lengths[n];
      if 1 <= len < MAX_CODE_LEN {
        KraftMore(bl, MAX_CODE_LEN - 1, len);
      } else if len == MAX_CODE_LEN {
        KraftSame(bl, MAX_CODE_LEN - 1, MAX_CODE_LEN, bl[len] + 1);
      }
    }
  }

  lemma {:induction false} CountsTotal(lengths: seq<nat>)
    requires forall i :: 0 <= i < |lengths| ==> lengths[i] <= MAX_CODE_LEN
    ensures Range(Counts(lengths), 0, LEVELS) == SumBy(One, lengths)
    decreases |lengths|
  {
    hide Range, SumBy, Counts;
    if lengths == [] {
      NoCounts();
      SumByZeros(One, lengths);
      RangeTail(Counts(lengths), 0, LEVELS);
      EmptyRange(Counts(lengths));
    } else {
      var n := |lengths| - 1;
      CountsTotal(lengths[..n]);
      CountsNext(lengths, n);
      assert lengths[..n + 1] == lengths == lengths[..n] + [lengths[n]];
      SumByAppend(One, lengths[..n], lengths[n]);
      var bl, len := Counts(lengths[..n]), lengths[n];
      if 1 <= len {
        RangeUpdate(bl, 0, LEVELS, len, bl[len] + 1);
      }
    }
  }

  /** What one pass does at level `b`. */
  ghost function Moved(lc: seq<nat>, b: nat): (r: seq<nat>)
    requires |lc| == LEVELS && 1 <= b < MAX_CODE_LEN && lc[b] > 0 && lc[MAX_CODE_LEN] > 0
    ensures |r| == LEVELS
  {
    var one := lc[b := lc[b] - 1];
    var two := one[b + 1 := one[b + 1] + 2];
    two[MAX_CODE_LEN := two[MAX_CODE_LEN] - 1]
  }

  /** The same, one code at a time. */
  ghost predicate MoveParts(lc: seq<nat>, b: nat, one: seq<nat>, half: seq<nat>, two: seq<nat>, last: seq<nat>) {
    && |lc| == LEVELS && 1 <= b < MAX_CODE_LEN && lc[b] > 0 && lc[MAX_CODE_LEN] > 0
    && one == lc[b := lc[b] - 1] && lc == one[b := one[b] + 1]
    && half == one[b + 1 := one[b + 1] + 1] && two == half[b + 1 := half[b + 1] + 1]
    && last == Moved(lc, b) && two == last[MAX_CODE_LEN := last[MAX_CODE_LEN] + 1]
  }

  lemma MovedParts(lc: seq<nat>, b: nat) returns (one: seq<nat>, half: seq<nat>, two: seq<nat>, last: seq<nat>)
    requires |lc| == LEVELS && 1 <= b < MAX_CODE_LEN && lc[b] > 0 && lc[MAX_CODE_LEN] > 0
    ensures MoveParts(lc, b, one, half, two, last)
  {
    one := lc[b := lc[b] - 1];
    half := one[b + 1 := one[b + 1] + 1];
    two := half[b + 1 := half[b + 1] + 1];
    last := Moved(lc, b);
    assert two == one[b + 1 := one[b + 1] + 2];
  }

  /** One pass frees exactly one word. */
  lemma MoveKraft(lc: seq<nat>, b: nat, one: seq<nat>, half: seq<nat>, two: seq<nat>, last: seq<nat>)
    requires MoveParts(lc, b, one, half, two, last)
    ensures KraftCount(last, MAX_CODE_LEN) == KraftCount(lc, MAX_CODE_LEN) - 1
  {
    hide KraftCount, Pow2, Moved;
    HalfPower(b);
    KraftMore(one, MAX_CODE_LEN, b);
    KraftMore(one, MAX_CODE_LEN, b + 1);
    KraftMore(half, MAX_CODE_LEN, b + 1);
    KraftMore(last, MAX_CODE_LEN, MAX_CODE_LEN);
  }

  /** Above level 15 it adds nothing. */
  lemma MoveShort(lc: seq<nat>, b: nat, one: seq<nat>, half: seq<nat>, two: seq<nat>, last: seq<nat>)
    requires MoveParts(lc, b, one, half, two, last) && b + 1 < MAX_CODE_LEN
    ensures KraftCount(last, MAX_CODE_LEN - 1) <= KraftCount(lc, MAX_CODE_LEN - 1)
  {
    hide KraftCount, Pow2, Moved;
    var top: nat := MAX_CODE_LEN - 1;
    HalfPower(b);
    KraftMore(one, top, b);
    KraftMore(one, top, b + 1);
    KraftMore(half, top, b + 1);
    KraftSame(last, top, MAX_CODE_LEN, last[MAX_CODE_LEN] + 1);
  }

  lemma MoveLast(lc: seq<nat>, b: nat, one: seq<nat>, half: seq<nat>, two: seq<nat>, last: seq<nat>)
    requires MoveParts(lc, b, one, half, two, last) && b + 1 == MAX_CODE_LEN
    ensures KraftCount(last, MAX_CODE_LEN - 1) <= KraftCount(lc, MAX_CODE_LEN - 1)
  {
    hide KraftCount, Pow2, Moved;
    var top: nat := MAX_CODE_LEN - 1;
    KraftMore(one, top, b);
    KraftSame(one, top, MAX_CODE_LEN, half[MAX_CODE_LEN]);
    KraftSame(half, top, MAX_CODE_LEN, two[MAX_CODE_LEN]);
    KraftSame(last, top, MAX_CODE_LEN, last[MAX_CODE_LEN] + 1);
  }

  /** It loses no code and adds none. */
  lemma MoveTotal(lc: seq<nat>, b: nat, one: seq<nat>, half: seq<nat>, two: seq<nat>, last: seq<nat>)
    requires MoveParts(lc, b, one, half, two, last)
    ensures Range(last, 0, LEVELS) == Range(lc, 0, LEVELS)
  {
    hide Range, Moved;
    RangeUpdate(one, 0, LEVELS, b, one[b] + 1);
    RangeUpdate(one, 0, LEVELS, b + 1, one[b + 1] + 1);
    RangeUpdate(half, 0, LEVELS, b + 1, half[b + 1] + 1);
    RangeUpdate(last, 0, LEVELS, MAX_CODE_LEN, last[MAX_CODE_LEN] + 1);
  }

  /** A crowded distribution stays one, a word less crowded. */
  lemma MoveFrees(lc: seq<nat>, b: nat, ns: nat)
    requires Crowded(lc, ns) && KraftCount(lc, MAX_CODE_LEN) > FULL
    requires 1 <= b < MAX_CODE_LEN && lc[b] > 0 && lc[MAX_CODE_LEN] > 0
    ensures Crowded(Moved(lc, b), ns)
    ensures KraftCount(Moved(lc, b), MAX_CODE_LEN) == KraftCount(lc, MAX_CODE_LEN) - 1
  {
    hide KraftCount, Range;
    var one, half, two, last := MovedParts(lc, b);
    MoveKraft(lc, b, one, half, two, last);
    MoveTotal(lc, b, one, half, two, last);
    if b + 1 < MAX_CODE_LEN {
      MoveShort(lc, b, one, half, two, last);
    } else {
      MoveLast(lc, b, one, half, two, last);
    }
  }

  lemma HalfPower(b: nat)
    requires 1 <= b < MAX_CODE_LEN
    ensures Pow2(MAX_CODE_LEN - b) == 2 * Pow2(MAX_CODE_LEN - b - 1) && Pow2(0) == 1
  {
  }

  lemma TopLevel(lc: seq<nat>)
    requires |lc| == LEVELS
    ensures KraftCount(lc, MAX_CODE_LEN) == KraftCount(lc, MAX_CODE_LEN - 1) + lc[MAX_CODE_LEN]
    ensures Range(lc, 0, LEVELS) >= lc[MAX_CODE_LEN]
  {
    KraftLevel(lc, MAX_CODE_LEN);
    assert Pow2(0) == 1;
  }

  /** There is always a code to move, and one at level 15 to make room for it. */
  lemma CanMove(lc: seq<nat>, ns: nat)
    requires Crowded(lc, ns) && KraftCount(lc, MAX_CODE_LEN) > FULL
    ensures lc[MAX_CODE_LEN] > 0 && exists b :: 1 <= b < MAX_CODE_LEN && lc[b] > 0
  {
    hide KraftCount, Range;
    TopLevel(lc);
    if forall b :: 1 <= b < MAX_CODE_LEN ==> lc[b] == 0 {
      KraftEmpty(lc, MAX_CODE_LEN - 1);
    }
  }

  /** The deepest level above 15 that is occupied, with a code at 15 to make room. */
  ghost predicate IsDeepest(lc: seq<nat>, b: nat) {
    && |lc| == LEVELS && 1 <= b < MAX_CODE_LEN && lc[b] > 0 && lc[MAX_CODE_LEN] > 0
    && forall k :: b < k < MAX_CODE_LEN ==> lc[k] == 0
  }

  method Deepest(lc: array<nat>, ghost ns: nat) returns (bits: nat)
    requires Crowded(lc[..], ns) && KraftCount(lc[..], MAX_CODE_LEN) > FULL
    ensures IsDeepest(lc[..], bits)
  {
    hide KraftCount, Range;
    CanMove(lc[..], ns);
    ghost var some :| 1 <= some < MAX_CODE_LEN && lc[..][some] > 0;
    bits := MAX_CODE_LEN - 1;
    while bits >= 1 && lc[bits] == 0
      invariant some <= bits < MAX_CODE_LEN && forall k :: bits < k < MAX_CODE_LEN ==> lc[k] == 0
    {
      bits := bits - 1;
    }
  }

  method Move(lc: array<nat>, bits: nat)
    requires lc.Length == LEVELS && 1 <= bits < MAX_CODE_LEN && lc[bits] > 0 && lc[MAX_CODE_LEN] > 0
    modifies lc
    ensures lc[..] == Moved(old(lc[..]), bits)
  {
    lc[bits] := lc[bits] - 1;
    lc[bits + 1] := lc[bits + 1] + 2;
    lc[MAX_CODE_LEN] := lc[MAX_CODE_LEN] - 1;
  }

  /** One pass, on a distribution that is over-subscribed. */
  ghost predicate Pass(lc: seq<nat>, now: seq<nat>) {
    |lc| == LEVELS && KraftCount(lc, MAX_CODE_LEN) > FULL && exists b :: IsDeepest(lc, b) && now == Moved(lc, b)
  }

  /** Passes from one distribution to the next. */
  ghost predicate Passes(lcs: seq<seq<nat>>) {
    lcs != [] && forall i :: 0 <= i < |lcs| - 1 ==> Pass(lcs[i], lcs[i + 1])
  }

  /** Passes until the distribution is full. */
  ghost predicate Repaired(was: seq<nat>, now: seq<nat>) {
    && |now| == LEVELS && KraftCount(now, MAX_CODE_LEN) == FULL
    && exists lcs :: Passes(lcs) && lcs[0] == was && lcs[|lcs| - 1] == now
  }

  lemma OnePass(lc: seq<nat>, a: seq<nat>, b: seq<nat>)
    requires Pass(lc, a) && Pass(lc, b)
    ensures a == b
  {
    hide KraftCount;
  }

  lemma {:induction false} SamePasses(s: seq<seq<nat>>, t: seq<seq<nat>>, i: nat)
    requires Passes(s) && Passes(t) && s[0] == t[0] && i < |s| && i < |t|
    ensures s[i] == t[i]
    decreases i
  {
    hide Pass;
    if i > 0 {
      SamePasses(s, t, i - 1);
      assert Pass(s[i - 1], s[i - 1 + 1]) && Pass(t[i - 1], t[i - 1 + 1]);
      OnePass(s[i - 1], s[i], t[i]);
    }
  }

  /** There is only one repair. */
  lemma OneRepair(was: seq<nat>, a: seq<nat>, b: seq<nat>)
    requires Repaired(was, a) && Repaired(was, b)
    ensures a == b
  {
    hide KraftCount, Moved;
    var s :| Passes(s) && s[0] == was && s[|s| - 1] == a;
    var t :| Passes(t) && t[0] == was && t[|t| - 1] == b;
    var n := if |s| <= |t| then |s| - 1 else |t| - 1;
    SamePasses(s, t, n);
    Ends(s, n);
    Ends(t, n);
  }

  lemma Ends(s: seq<seq<nat>>, n: nat)
    requires Passes(s) && n < |s|
    ensures n < |s| - 1 ==> |s[n]| == LEVELS && KraftCount(s[n], MAX_CODE_LEN) > FULL
  {
    if n < |s| - 1 {
      assert Pass(s[n], s[n + 1]);
    }
  }

  lemma PassesMore(lcs: seq<seq<nat>>, now: seq<nat>)
    requires Passes(lcs) && Pass(lcs[|lcs| - 1], now)
    ensures Passes(lcs + [now])
  {
    hide Pass;
    var more := lcs + [now];
    forall i | 0 <= i < |more| - 1
      ensures Pass(more[i], more[i + 1])
    {
      if i < |lcs| - 1 {
        assert Pass(lcs[i], lcs[i + 1]);
      }
    }
  }

  /** The repair loop: it ends with exactly the 2^15 words taken. */
  method Repair(lc: array<nat>, kraft0: nat, ghost ns: nat)
    requires Crowded(lc[..], ns) && kraft0 == KraftCount(lc[..], MAX_CODE_LEN)
    modifies lc
    ensures Crowded(lc[..], ns) && Repaired(old(lc[..]), lc[..])
  {
    hide KraftCount, Range, Moved, Passes;
    var kraft := kraft0;
    ghost var lcs := [lc[..]];
    assert Passes(lcs) by { PassesOne(lc[..]); }
    while kraft > FULL
      invariant Crowded(lc[..], ns) && kraft == KraftCount(lc[..], MAX_CODE_LEN) >= FULL
      invariant lcs != [] && Passes(lcs) && lcs[0] == old(lc[..]) && lcs[|lcs| - 1] == lc[..]
    {
      var bits := Deepest(lc, ns);
      ghost var was := lc[..];
      MoveFrees(was, bits, ns);
      Move(lc, bits);
      assert Pass(was, lc[..]);
      PassesMore(lcs, lc[..]);
      lcs := lcs + [lc[..]];
      kraft := kraft - 1;
    }
  }

  lemma PassesOne(lc: seq<nat>)
    ensures Passes([lc])
  {
  }

  //////////////////////////////////////////////////////////////////////////////
  // Giving the lengths back to the symbols
  //////////////////////////////////////////////////////////////////////////////

  /** The lengths of a distribution, ascending, up to `d`. */
  ghost function Levels(lc: seq<nat>, d: nat): (r: seq<nat>)
    requires d < |lc|
  {
    if d == 0 then [] else Levels(lc, d - 1) + seq(lc[d], _ => d)
  }

  lemma {:induction false} LevelsShape(lc: seq<nat>, d: nat)
    requires d < |lc| && lc[0] == 0 && d <= MAX_CODE_LEN
    ensures |Levels(lc, d)| == Range(lc, 0, d + 1)
    ensures forall i :: 0 <= i < |Levels(lc, d)| ==> 1 <= Levels(lc, d)[i] <= d
    ensures forall i, j :: 0 <= i <= j < |Levels(lc, d)| ==> Levels(lc, d)[i] <= Levels(lc, d)[j]
    ensures SumBy(Weight, Levels(lc, d)) == KraftCount(lc, d)
    decreases d
  {
    hide SumBy;
    if d == 0 {
      SumByZeros(Weight, []);
      assert Range(lc, 0, 1) == Range(lc, 0, 0) + lc[0];
    } else {
      LevelsShape(lc, d - 1);
      SumByJoin(Weight, Levels(lc, d - 1), seq(lc[d], _ => d));
      SumByConstant(lc[d], d);
    }
  }

  lemma {:induction false} SumByConstant(n: nat, d: nat)
    requires 1 <= d <= MAX_CODE_LEN
    ensures SumBy(Weight, seq(n, _ => d)) == n * Pow2(MAX_CODE_LEN - d)
    decreases n
  {
    hide Pow2;
    if n > 0 {
      SumByConstant(n - 1, d);
      assert seq(n, _ => d)[..n - 1] == seq(n - 1, _ => d);
      assert (n - 1) * Pow2(MAX_CODE_LEN - d) + Pow2(MAX_CODE_LEN - d) == n * Pow2(MAX_CODE_LEN - d);
    }
  }

  /** The present symbols, keyed by how far their frequency falls short of `top`. */
  ghost predicate Lists(freq: seq<nat>, top: nat, items: seq<Item>) {
    && InAlphabet(items, |freq|) && Separate(items)
    && (forall i :: 0 <= i < |items| ==> freq[items[i].sym] > 0 && items[i].key == top - freq[items[i].sym])
    && (forall s :: 0 <= s < |freq| && freq[s] > 0 ==> Listed(items, s))
  }

  lemma Sorting(freq: seq<nat>, top: nat, a: seq<Item>, b: seq<Item>)
    requires Lists(freq, top, a) && multiset(a) == multiset(b)
    ensures Lists(freq, top, b) && |a| == |b|
  {
    assert |multiset(a)| == |a| && |multiset(b)| == |b|;
    forall i | 0 <= i < |b|
      ensures b[i].sym < |freq| && freq[b[i].sym] > 0 && b[i].key == top - freq[b[i].sym]
    {
      assert b[i] in multiset(a);
      assert b[i] in a;
    }
    forall i, j | 0 <= i < j < |b|
      ensures b[i].sym != b[j].sym
    {
      if b[i].sym == b[j].sym {
        assert b[i] == b[j];
        CountTwice(b, i, j);
        CountOnce(a, b[i]);
      }
    }
    forall s | 0 <= s < |freq| && freq[s] > 0
      ensures Listed(b, s)
    {
      var i :| 0 <= i < |a| && a[i].sym == s;
      assert a[i] in multiset(b);
      var j :| 0 <= j < |b| && b[j] == a[i];
    }
  }

  /** The symbols with their new lengths. */
  ghost function Given(items: seq<Item>, lens: seq<nat>, k: nat): (r: seq<Item>)
    requires k <= |items| && k <= |lens|
    ensures |r| == k && forall i :: 0 <= i < k ==> r[i] == Item(lens[i], items[i].sym)
  {
    seq(k, i requires 0 <= i < k => Item(lens[i], items[i].sym))
  }

  lemma GivenOkay(items: seq<Item>, lens: seq<nat>, k: nat, n: nat)
    requires k <= |items| && k <= |lens| && InAlphabet(items, n)
    ensures InAlphabet(Given(items, lens, k), n)
  {
  }

  lemma GiveNext(base: seq<nat>, items: seq<Item>, lens: seq<nat>, k: nat)
    requires k < |items| && k < |lens| && InAlphabet(items, |base|)
    ensures InAlphabet(Given(items, lens, k), |base|) && InAlphabet(Given(items, lens, k + 1), |base|)
    ensures Put(base, Given(items, lens, k + 1)) == Put(base, Given(items, lens, k))[items[k].sym := lens[k]]
  {
    GivenOkay(items, lens, k, |base|);
    GivenOkay(items, lens, k + 1, |base|);
    var last := [Item(lens[k], items[k].sym)];
    assert Given(items, lens, k + 1) == Given(items, lens, k) + last;
    PutAppend(base, Given(items, lens, k), last);
    assert last[1..] == [];
  }

  /** Position `c` of level `b`. */
  lemma {:induction false} LevelAt(lc: seq<nat>, b: nat, c: nat, d: nat)
    requires 1 <= b <= d < |lc| && c < lc[b] && lc[0] == 0
    ensures var i := Range(lc, 0, b) + c;
            i < |Levels(lc, d)| && Levels(lc, d)[i] == b
    decreases d
  {
    LevelsLength(lc, b - 1);
    if b < d {
      LevelAt(lc, b, c, d - 1);
    }
  }

  lemma {:induction false} LevelsLength(lc: seq<nat>, d: nat)
    requires d < |lc| && lc[0] == 0
    ensures |Levels(lc, d)| == Range(lc, 0, d + 1)
    decreases d
  {
    if d > 0 {
      LevelsLength(lc, d - 1);
    } else {
      assert Range(lc, 0, 1) == Range(lc, 0, 0) + lc[0];
    }
  }

  /** How many symbols have each length. */
  ghost predicate Tallied(lc: seq<nat>, lengths: seq<nat>) {
    |lc| == LEVELS && lc[0] == 0 && forall d :: 1 <= d <= MAX_CODE_LEN ==> HowMany(lengths, d) == lc[d]
  }

  lemma {:induction false} CountsTallied(lengths: seq<nat>)
    ensures Tallied(Counts(lengths), lengths)
    decreases |lengths|
  {
    if lengths == [] {
      NothingCounted();
    } else {
      var n := |lengths| - 1;
      CountsTallied(lengths[..n]);
      HowManyAppend(lengths[..n], lengths[n]);
      assert lengths == lengths[..n] + [lengths[n]];
    }
  }

  lemma {:induction false} ConstantMany(n: nat, b: nat, d: nat)
    ensures HowMany(seq(n, _ => b), d) == if b == d then n else 0
    decreases n
  {
    if n > 0 {
      ConstantMany(n - 1, b, d);
      assert seq(n, _ => b)[..n - 1] == seq(n - 1, _ => b);
    }
  }

  lemma {:induction false} LevelsMany(lc: seq<nat>, top: nat, d: nat)
    requires 1 <= d && top < |lc|
    ensures HowMany(Levels(lc, top), d) == if d <= top then lc[d] else 0
    decreases top
  {
    hide SumBy;
    if top == 0 {
      NothingCounted();
    } else {
      LevelsMany(lc, top - 1, d);
      SumByJoin(Exactly(d), Levels(lc, top - 1), seq(lc[top], _ => top));
      ConstantMany(lc[top], top, d);
    }
  }

  //////////////////////////////////////////////////////////////////////////////
  // The builder
  //////////////////////////////////////////////////////////////////////////////

  /** The lengths of a symbol code: 1 to 15 on exactly the symbols present. With two symbols or more
      the code is complete; one symbol alone gets a code of one bit. */
  ghost predicate CodeFor(freq: seq<nat>, lengths: seq<nat>) {
    && |lengths| == |freq|
    && (forall s :: 0 <= s < |freq| ==> lengths[s] <= MAX_CODE_LEN && (lengths[s] > 0 <==> freq[s] > 0))
    && (|Present(freq, |freq|)| >= 2 ==> Kraft(lengths) == FULL)
    && (|Present(freq, |freq|)| == 1 ==> forall s :: 0 <= s < |freq| && freq[s] > 0 ==> lengths[s] == 1)
  }

  /** More frequent symbols do not get longer codes. */
  ghost predicate FrequentShort(freq: seq<nat>, lengths: seq<nat>)
    requires |freq| == |lengths|
  {
    forall a, b :: 0 <= a < |freq| && 0 <= b < |freq| && freq[a] > freq[b] > 0 ==> lengths[a] <= lengths[b]
  }

  method Total(freq: seq<nat>) returns (total: nat)
    ensures forall j :: 0 <= j < |freq| ==> freq[j] <= total
  {
    total := 0;
    for i := 0 to |freq|
      invariant forall j :: 0 <= j < i ==> freq[j] <= total
    {
      total := total + freq[i];
    }
  }

  /** Collects the symbols that have a length. */
  method Collect(freq: seq<nat>, dp: array<nat>, total: nat) returns (items: array<Item>, sn: nat)
    requires dp.Length == |freq| && forall s :: 0 <= s < |freq| ==> (dp[s] > 0 <==> freq[s] > 0)
    requires forall j :: 0 <= j < |freq| ==> freq[j] <= total
    ensures fresh(items) && sn == SumBy(One, dp[..]) <= items.Length
    ensures ListsBelow(freq, total, items[..sn], |freq|)
  {
    hide SumBy, ListsBelow;
    items, sn := new Item[|freq|](_ => Item(0, 0)), 0;
    SumByZeros(One, dp[..0]);
    NothingListed(freq, total);
    assert items[..0] == [];
    for i := 0 to |freq|
      invariant sn <= i && sn == SumBy(One, dp[..i]) && ListsBelow(freq, total, items[..sn], i)
    {
      SumByAppend(One, dp[..i], dp[i]);
      assert dp[..i + 1] == dp[..i] + [dp[i]];
      ListsNext(freq, total, items[..sn], i);
      if dp[i] > 0 {
        ghost var was := items[..sn];
        items[sn] := Item(total - freq[i], i);
        assert items[..sn + 1] == was + [Item(total - freq[i], i)];
        sn := sn + 1;
      }
    }
    assert dp[..|freq|] == dp[..];
  }

  lemma NothingListed(freq: seq<nat>, top: nat)
    ensures ListsBelow(freq, top, [], 0)
  {
  }

  lemma ListedStill(items: seq<Item>, x: Item, s: nat)
    requires s == x.sym || Listed(items, s)
    ensures Listed(items + [x], s)
  {
    if s == x.sym {
      assert (items + [x])[|items|].sym == s;
    } else {
      var i :| 0 <= i < |items| && items[i].sym == s;
      assert (items + [x])[i].sym == s;
    }
  }

  lemma ListsNext(freq: seq<nat>, top: nat, items: seq<Item>, k: nat)
    requires ListsBelow(freq, top, items, k) && k < |freq| && freq[k] <= top
    ensures ListsBelow(freq, top, if freq[k] > 0 then items + [Item(top - freq[k], k)] else items, k + 1)
  {
    hide Listed;
    if freq[k] > 0 {
      var x := Item(top - freq[k], k);
      var now := items + [x];
      assert now[|items|] == x && forall i :: 0 <= i < |items| ==> now[i] == items[i];
      forall s | 0 <= s < k + 1 && freq[s] > 0
        ensures Listed(now, s)
      {
        ListedStill(items, x, s);
      }
    }
  }

  /** The symbols that have a length, the most frequent first. */
  method SortSymbols(freq: seq<nat>, dp: array<nat>) returns (items: array<Item>, sn: nat, ghost top: nat)
    requires dp.Length == |freq| && forall s :: 0 <= s < |freq| ==> (dp[s] > 0 <==> freq[s] > 0)
    ensures fresh(items) && sn == SumBy(One, dp[..]) <= items.Length
    ensures Lists(freq, top, items[..sn]) && Sorted(items[..sn])
  {
    hide SumBy, Sorted, Lists, ListsBelow;
    var total := Total(freq);
    items, sn := Collect(freq, dp, total);
    top := total;
    ghost var was := items[..sn];
    ListsAll(freq, total, was);
    InsertionSort(items, sn);
    Sorting(freq, total, was, items[..sn]);
  }

  /** The same for the symbols below `k`, ascending. */
  ghost predicate ListsBelow(freq: seq<nat>, top: nat, items: seq<Item>, k: nat) {
    && k <= |freq| && (forall j :: 0 <= j < k ==> freq[j] <= top)
    && (forall i :: 0 <= i < |items| ==>
          items[i].sym < k && freq[items[i].sym] > 0 && items[i].key == top - freq[items[i].sym])
    && (forall i, j :: 0 <= i < j < |items| ==> items[i].sym < items[j].sym)
    && (forall s :: 0 <= s < k && freq[s] > 0 ==> Listed(items, s))
  }

  lemma ListsAll(freq: seq<nat>, top: nat, items: seq<Item>)
    requires ListsBelow(freq, top, items, |freq|)
    ensures Lists(freq, top, items)
  {
  }

  /** Gives the sorted symbols their lengths, the shortest first. */
  method Assign(lc: array<nat>, items: array<Item>, sn: nat, dp: array<nat>)
    requires lc.Length == LEVELS && lc != dp && lc[0] == 0 && Range(lc[..], 0, LEVELS) == sn <= items.Length
    requires InAlphabet(items[..sn], dp.Length)
    modifies dp
    ensures |Levels(lc[..], MAX_CODE_LEN)| == sn
    ensures InAlphabet(Given(items[..sn], Levels(lc[..], MAX_CODE_LEN), sn), dp.Length)
    ensures dp[..] == Put(old(dp[..]), Given(items[..sn], Levels(lc[..], MAX_CODE_LEN), sn))
  {
    hide Range, Levels, Given, Put;
    ghost var counts, all, base := lc[..], items[..sn], dp[..];
    ghost var lens := Levels(counts, MAX_CODE_LEN);
    LevelsLength(counts, MAX_CODE_LEN);
    GivenNone(base, all, lens);
    EmptyRange(counts);
    RangeSplit(counts, 0);
    var si := 0;
    for b := 1 to MAX_CODE_LEN + 1
      invariant lc[..] == counts && si == Range(counts, 0, b) <= sn
      invariant InAlphabet(Given(all, lens, si), |base|) && dp[..] == Put(base, Given(all, lens, si))
    {
      var c := 0;
      while c < lc[b] && si < sn
        invariant lc[..] == counts && si == Range(counts, 0, b) + c <= sn && c <= lc[b]
        invariant InAlphabet(Given(all, lens, si), |base|) && dp[..] == Put(base, Given(all, lens, si))
      {
        GiveNext(base, all, lens, si);
        LevelAt(counts, b, c, MAX_CODE_LEN);
        assert all[si] == items[si];
        dp[items[si].sym] := b;
        si, c := si + 1, c + 1;
      }
      RangeSplit(counts, b);
      RangeGrows(counts, b + 1, LEVELS);
    }
  }

  lemma RangeSplit(g: seq<nat>, b: nat)
    requires b < |g|
    ensures Range(g, 0, b + 1) == Range(g, 0, b) + g[b]
  {
  }

  lemma GivenNone(base: seq<nat>, items: seq<Item>, lens: seq<nat>)
    ensures InAlphabet(Given(items, lens, 0), |base|) && Put(base, Given(items, lens, 0)) == base
  {
  }

  /** What the reassignment gives. */
  lemma Reassigned(freq: seq<nat>, top: nat, base: seq<nat>, items: seq<Item>, lc: seq<nat>)
    requires |base| == |freq| && forall s :: 0 <= s < |freq| && freq[s] == 0 ==> base[s] == 0
    requires Lists(freq, top, items) && Sorted(items)
    requires Crowded(lc, |items|) && KraftCount(lc, MAX_CODE_LEN) == FULL && |Levels(lc, MAX_CODE_LEN)| == |items|
    requires InAlphabet(Given(items, Levels(lc, MAX_CODE_LEN), |items|), |base|)
    ensures var dp := Put(base, Given(items, Levels(lc, MAX_CODE_LEN), |items|));
            && (forall s :: 0 <= s < |freq| ==> dp[s] <= MAX_CODE_LEN && (dp[s] > 0 <==> freq[s] > 0))
            && Kraft(dp) == FULL && FrequentShort(freq, dp) && Tallied(lc, dp)
  {
    hide Range, KraftCount, Levels, SumBy, Put;
    var lens := Levels(lc, MAX_CODE_LEN);
    var given := Given(items, lens, |items|);
    LevelsShape(lc, MAX_CODE_LEN);
    GivenCovers(freq, top, items, lens);
    PutLengths(freq, base, given);
    PutSum(Weight, Zeros(|freq|), given);
    SumByZeros(Weight, Zeros(|freq|));
    assert Keys(given) == lens;
    KraftIs(Put(base, given));
    forall d | 1 <= d <= MAX_CODE_LEN
      ensures HowMany(Put(base, given), d) == lc[d]
    {
      PutSum(Exactly(d), Zeros(|freq|), given);
      SumByZeros(Exactly(d), Zeros(|freq|));
      LevelsMany(lc, MAX_CODE_LEN, d);
    }
    GivenShort(freq, top, base, items, lens);
  }

  lemma GivenCovers(freq: seq<nat>, top: nat, items: seq<Item>, lens: seq<nat>)
    requires Lists(freq, top, items) && |lens| == |items|
    requires forall i :: 0 <= i < |lens| ==> 1 <= lens[i] <= MAX_CODE_LEN
    ensures Covers(freq, Given(items, lens, |items|))
  {
    var given := Given(items, lens, |items|);
    forall s | 0 <= s < |freq| && freq[s] > 0
      ensures Listed(given, s)
    {
      var i :| 0 <= i < |items| && items[i].sym == s;
      assert given[i].sym == s;
    }
  }

  lemma GivenShort(freq: seq<nat>, top: nat, base: seq<nat>, items: seq<Item>, lens: seq<nat>)
    requires |base| == |freq| && Lists(freq, top, items) && Sorted(items) && |lens| == |items|
    requires InAlphabet(Given(items, lens, |items|), |base|)
    requires forall i, j :: 0 <= i <= j < |lens| ==> lens[i] <= lens[j]
    ensures FrequentShort(freq, Put(base, Given(items, lens, |items|)))
  {
    hide Put, Lists, Sorted;
    forall a, b | 0 <= a < |freq| && 0 <= b < |freq| && freq[a] > freq[b] > 0
      ensures Put(base, Given(items, lens, |items|))[a] <= Put(base, Given(items, lens, |items|))[b]
    {
      ShorterFirst(freq, top, base, items, lens, a, b);
    }
  }

  lemma ShorterFirst(freq: seq<nat>, top: nat, base: seq<nat>, items: seq<Item>, lens: seq<nat>, a: nat, b: nat)
    requires |base| == |freq| && Lists(freq, top, items) && Sorted(items) && |lens| == |items|
    requires InAlphabet(Given(items, lens, |items|), |base|)
    requires forall i, j :: 0 <= i <= j < |lens| ==> lens[i] <= lens[j]
    requires a < |freq| && b < |freq| && freq[a] > freq[b] > 0
    ensures Put(base, Given(items, lens, |items|))[a] <= Put(base, Given(items, lens, |items|))[b]
  {
    hide Put;
    var given := Given(items, lens, |items|);
    assert Listed(items, a) && Listed(items, b);
    var i :| 0 <= i < |items| && items[i].sym == a;
    var j :| 0 <= j < |items| && items[j].sym == b;
    PutAt(base, given, i);
    PutAt(base, given, j);
    assert items[i].key < items[j].key;
    assert i < j;
  }

  /** Its inner nodes weigh no more than the bits that any prefix code takes. */
  ghost predicate Lightest(freq: seq<nat>, t: Trie) {
    CodeCost.AtLeast(multiset(CodeCost.Kept(freq, freq, |freq|)), Spent(freq, t))
  }

  /** There are as many of each length as the repair leaves of the clamped depths. */
  ghost predicate Limits(depths: seq<nat>, lengths: seq<nat>) {
    exists was, now :: Tallied(was, depths) && Tallied(now, lengths) && Repaired(was, now)
  }

  /** The lengths of at least two symbols: the depths of their tree if no leaf is too deep, and then no prefix code
      takes fewer bits; else the repaired ones. */
  method LimitedLengths(freq: seq<nat>) returns (dp: array<nat>, ghost t: Trie)
    requires |Present(freq, |freq|)| >= 2 && |freq| < FULL
    ensures fresh(dp) && CodeFor(freq, dp[..])
    ensures TreeOf(freq, t) && Lightest(freq, t) && InAlphabet(Leaves(t, 0), |freq|)
    ensures if TooDeep(t, 0) then FrequentShort(freq, dp[..]) && Limits(Put(Zeros(|freq|), Leaves(t, 0)), dp[..])
            else dp[..] == Put(Zeros(|freq|), Leaves(t, 0))
    ensures !TooDeep(t, 0) ==> CodeCost.Cheapest(freq, dp[..])
  {
    hide CodeCost.AtLeast, CodeCost.Cheapest, CodeCost.Kept, Separate, Spent, Present, Symbols, Leaves, Put, SumBy, KraftCount,
      Counts, Range, Lists, Sorted, Levels, Linked, TooDeep, Depths15, Tallied, Repaired;
    dp := new nat[|freq|](_ => 0);
    assert dp[..] == Zeros(|freq|);
    var left, right, root;
    ghost var trees;
    left, right, root, trees := LzhTree.Merge(freq);
    t := Ref(trees, root);
    LeavesCover(freq, t);
    TreeDepths(root, 0, left, right, dp, trees);
    TreeLengths(freq, t);
    if !TooDeep(t, 0) {
      TreeCheapest(freq, t);
    }
    var lc := CountLengths(dp[..]);
    DepthsCrowded(freq, dp[..]);
    var kraft := KraftOf(lc);
    if kraft > FULL {
      CountsTallied(dp[..]);
      ghost var was := lc[..];
      Repair(lc, kraft, SumBy(One, dp[..]));
      RepairedFull(was, lc[..]);
      ghost var top;
      var items, sn;
      items, sn, top := SortSymbols(freq, dp);
      ghost var base := dp[..];
      ListsInAlphabet(freq, top, items[..sn]);
      Assign(lc, items, sn, dp);
      Reassigned(freq, top, base, items[..sn], lc[..]);
      assert Tallied(was, base) && Tallied(lc[..], dp[..]) && Repaired(was, lc[..]);
    }
  }

  lemma RepairedFull(was: seq<nat>, now: seq<nat>)
    requires Repaired(was, now)
    ensures |now| == LEVELS && KraftCount(now, MAX_CODE_LEN) == FULL
  {
  }

  lemma ListsInAlphabet(freq: seq<nat>, top: nat, items: seq<Item>)
    requires Lists(freq, top, items)
    ensures InAlphabet(items, |freq|)
  {
  }

  lemma DepthsCrowded(freq: seq<nat>, dp: seq<nat>)
    requires Depths15(freq, dp) && |freq| < FULL
    ensures forall s :: 0 <= s < |freq| ==> dp[s] <= MAX_CODE_LEN && (dp[s] > 0 <==> freq[s] > 0)
    ensures |dp| == |freq| && Crowded(Counts(dp), SumBy(One, dp)) && KraftCount(Counts(dp), MAX_CODE_LEN) == Kraft(dp)
  {
    CountsKraft(dp);
    CountsShort(dp);
    CountsTotal(dp);
    OnesAtMost(dp);
    KraftIs(dp);
  }

  /** The integer Kraft sum. */
  method KraftOf(lc: array<nat>) returns (kraft: nat)
    requires lc.Length == LEVELS
    ensures kraft == KraftCount(lc[..], MAX_CODE_LEN)
  {
    hide Pow2;
    kraft := 0;
    for b := 1 to MAX_CODE_LEN + 1
      invariant kraft == KraftCount(lc[..], b - 1)
    {
      kraft := kraft + lc[b] * Pow2(MAX_CODE_LEN - b);
    }
  }

  //////////////////////////////////////////////////////////////////////////////
  // Codes
  //////////////////////////////////////////////////////////////////////////////

  /** `hcode_t`: a code with its bits reversed, and its length. */
  datatype HCode = HCode(code: nat, len: nat)

  ghost predicate CodesOf(lengths: seq<nat>, codes: seq<HCode>) {
    && |codes| == |lengths| && (forall s :: 0 <= s < |lengths| ==> lengths[s] <= MAX_CODE_LEN)
    && forall s :: 0 <= s < |lengths| ==>
         codes[s] == if lengths[s] > 0 then HCode(Val(WordOf(lengths, s)), lengths[s]) else HCode(0, 0)
  }

  /** The canonical codes. */
  method CanonicalCodes(lengths: seq<nat>) returns (codes: array<HCode>)
    requires forall s :: 0 <= s < |lengths| ==> lengths[s] <= MAX_CODE_LEN
    ensures fresh(codes) && CodesOf(lengths, codes[..])
  {
    hide Counts, FirstCode, NextCode, Code, Word;
    var next := FirstCodes(lengths);
    codes := new HCode[|lengths|](_ => HCode(0, 0));
    for i := 0 to |lengths|
      invariant forall l :: 0 <= l < LEVELS ==> next[l] == NextCode(lengths, i, l)
      invariant forall s :: i <= s < |lengths| ==> codes[s] == HCode(0, 0)
      invariant forall s :: 0 <= s < i ==>
                  codes[s] == if lengths[s] > 0 then HCode(Val(WordOf(lengths, s)), lengths[s]) else HCode(0, 0)
    {
      forall l | 0 <= l < LEVELS
        ensures NextCode(lengths, i + 1, l) ==
                if l == lengths[i] > 0 then (NextCode(lengths, i, l) + 1) % 0x1_0000 else NextCode(lengths, i, l)
      {
        NextStep(lengths, i, l);
      }
      NextStep(lengths, i, lengths[i]);
      if lengths[i] > 0 {
        var rev := ReverseBits(next[lengths[i]], lengths[i]);
        codes[i] := HCode(rev, lengths[i]);
        next[lengths[i]] := (next[lengths[i]] + 1) % 0x1_0000;
      }
    }
  }

  /** The only symbol's code is a single zero bit. */
  lemma OnlyCode(lengths: seq<nat>, only: nat)
    requires only < |lengths| && forall s :: 0 <= s < |lengths| ==> lengths[s] == if s == only then 1 else 0
    ensures Val(WordOf(lengths, only)) == 0 && Kraft(lengths) <= FULL
  {
    NoneBefore(lengths[..only]);
    assert FirstCode(Counts(lengths), 0) == 0;
    assert FirstCode(Counts(lengths), 1) == 0;
    assert Word(0, 1) == [false];
    assert [false][1..] == [];
    SumByUpdate(Weight, lengths, only, 0);
    SumByZeros(Weight, lengths[only := 0]);
    KraftIs(lengths);
    FullIsPow2();
    Pow2Monotone(14, 15);
  }

  lemma {:induction false} NoneBefore(lengths: seq<nat>)
    requires forall s :: 0 <= s < |lengths| ==> lengths[s] == 0
    ensures Counts(lengths) == Zeros(LEVELS)
    decreases |lengths|
  {
    if lengths != [] {
      NoneBefore(lengths[..|lengths| - 1]);
    }
  }

  method CountActive(freq: seq<nat>) returns (act: nat, ghost only: nat)
    ensures act == |Present(freq, |freq|)|
    ensures act == 1 ==> only < |freq| && forall s :: 0 <= s < |freq| ==> (freq[s] > 0 <==> s == only)
    ensures act == 0 ==> forall s :: 0 <= s < |freq| ==> freq[s] == 0
  {
    hide Present;
    act, only := 0, 0;
    NonePresent(freq);
    for i := 0 to |freq|
      invariant act == |Present(freq, i)|
      invariant act == 1 ==> only < i && forall s :: 0 <= s < i ==> (freq[s] > 0 <==> s == only)
      invariant act == 0 ==> forall s :: 0 <= s < i ==> freq[s] == 0
    {
      PresentNext(freq, i);
      if freq[i] > 0 {
        act, only := act + 1, i;
      }
    }
  }

  method SingleCode(freq: seq<nat>, ghost only: nat) returns (codes: array<HCode>, ghost lengths: seq<nat>)
    requires |Present(freq, |freq|)| == 1
    requires only < |freq| && forall s :: 0 <= s < |freq| ==> (freq[s] > 0 <==> s == only)
    ensures fresh(codes) && CodeFor(freq, lengths) && Decodable(lengths) && CodesOf(lengths, codes[..])
  {
    hide Present, Kraft, Code, Word;
    codes := new HCode[|freq|](_ => HCode(0, 0));
    for i := 0 to |freq|
      invariant forall s :: 0 <= s < |freq| ==> codes[s] == if s < i && freq[s] > 0 then HCode(0, 1) else HCode(0, 0)
    {
      if freq[i] > 0 {
        codes[i] := HCode(0, 1);
      }
    }
    lengths := Zeros(|freq|)[only := 1];
    OnlyCode(lengths, only);
  }

  /** The lengths of two or more symbols come from a tree that no prefix code undercuts: they are its depths and no code
      takes fewer bits, or, where it is too deep, the repaired ones, given out to the more frequent symbols first. */
  ghost predicate FromTree(freq: seq<nat>, lengths: seq<nat>)
    requires |freq| == |lengths|
  {
    |Present(freq, |freq|)| >= 2 ==> exists t :: TreeOf(freq, t) && TreeGives(freq, t, lengths)
  }

  ghost predicate TreeGives(freq: seq<nat>, t: Trie, lengths: seq<nat>)
    requires |freq| == |lengths|
  {
    && Lightest(freq, t) && InAlphabet(Leaves(t, 0), |freq|)
    && if TooDeep(t, 0) then FrequentShort(freq, lengths) && Limits(Put(Zeros(|freq|), Leaves(t, 0)), lengths)
       else lengths == Put(Zeros(|freq|), Leaves(t, 0)) && CodeCost.Cheapest(freq, lengths)
  }

  /** `huff_build`. */
  method HuffBuild(freq: seq<nat>) returns (codes: array<HCode>, ghost lengths: seq<nat>)
    requires |freq| < FULL
    ensures fresh(codes) && CodeFor(freq, lengths) && Decodable(lengths) && CodesOf(lengths, codes[..]) && FromTree(freq, lengths)
  {
    hide Present, Kraft, Code, Word, TreeOf, Put, Leaves, TooDeep, FrequentShort, Limits, Lightest, CodeCost.Cheapest;
    var act;
    ghost var only;
    act, only := CountActive(freq);
    if act == 0 {
      codes := new HCode[|freq|](_ => HCode(0, 0));
      lengths := Zeros(|freq|);
      KraftNone(lengths);
      return;
    }
    if act == 1 {
      codes, lengths := SingleCode(freq, only);
      return;
    }
    var dp;
    ghost var t;
    dp, t := LimitedLengths(freq);
    lengths := dp[..];
    assert TreeOf(freq, t) && TreeGives(freq, t, lengths);
    codes := CanonicalCodes(dp[..]);
  }

  lemma NonePresent(freq: seq<nat>)
    ensures Present(freq, 0) == []
  {
  }

  lemma KraftNone(lengths: seq<nat>)
    requires forall s :: 0 <= s < |lengths| ==> lengths[s] == 0
    ensures Kraft(lengths) <= FULL
  {
    SumByZeros(Weight, lengths);
    KraftIs(lengths);
  }
}
