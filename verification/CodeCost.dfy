/** What a prefix code must cost: joining the two lightest weights first is never worse than any other code whose
    lengths satisfy Kraft's inequality. */
module CodeCost {
  import opened Arith
  import opened Bits

  /** Of the 2^top words of length `top`, those that start with a code word of length `len`. */
  function Share(len: nat, top: nat): nat {
    if len <= top then Pow2(top - len) else 0
  }

  function Words(lens: seq<nat>, top: nat): nat {
    if lens == [] then 0 else Words(lens[..|lens| - 1], top) + Share(lens[|lens| - 1], top)
  }

  /** There is a prefix code with these lengths: Kraft's inequality. */
  ghost predicate Prefixable(lens: seq<nat>, top: nat) {
    (forall i :: 0 <= i < |lens| ==> lens[i] <= top) && Words(lens, top) <= Pow2(top)
  }

  /** The bits for symbols of these weights. */
  function Cost(w: seq<nat>, lens: seq<nat>): nat
    requires |w| == |lens|
  {
    if w == [] then 0 else Cost(w[..|w| - 1], lens[..|w| - 1]) + w[|w| - 1] * lens[|w| - 1]
  }

  /** No prefix code for these weights takes fewer bits. */
  ghost predicate AtLeast(m: multiset<nat>, c: nat) {
    forall w: seq<nat>, lens: seq<nat>, top: nat :: |w| == |lens| && multiset(w) == m && Prefixable(lens, top) ==> Cost(w, lens) >= c
  }

  ghost function Without<T>(s: seq<T>, k: nat): (r: seq<T>)
    requires k < |s|
    ensures |r| == |s| - 1
  {
    s[..k] + s[k + 1..]
  }

  lemma WithoutLast<T>(s: seq<T>, k: nat)
    requires k < |s|
    ensures k == |s| - 1 ==> Without(s, k) == s[..|s| - 1]
    ensures k < |s| - 1 ==> s[..|s| - 1][k] == s[k] && Without(s, k) == Without(s[..|s| - 1], k) + [s[|s| - 1]]
  {
  }

  lemma WithoutOne(s: seq<nat>, k: nat)
    requires k < |s|
    ensures multiset(s) == Plus(multiset(Without(s, k)), s[k])
  {
    assert s == s[..k] + [s[k]] + s[k + 1..];
  }

  lemma WordsAppend(lens: seq<nat>, v: nat, top: nat)
    ensures Words(lens + [v], top) == Words(lens, top) + Share(v, top)
  {
    assert (lens + [v])[..|lens|] == lens;
  }

  lemma CostAppend(w: seq<nat>, lens: seq<nat>, x: nat, v: nat)
    requires |w| == |lens|
    ensures Cost(w + [x], lens + [v]) == Cost(w, lens) + x * v
  {
    assert (w + [x])[..|w|] == w && (lens + [v])[..|w|] == lens;
  }

  lemma {:induction false} WordsWithout(lens: seq<nat>, k: nat, top: nat)
    requires k < |lens|
    ensures Words(lens, top) == Words(Without(lens, k), top) + Share(lens[k], top)
    decreases |lens|
  {
    hide Share, Without;
    WithoutLast(lens, k);
    var n := |lens| - 1;
    if k < n {
      WordsWithout(lens[..n], k, top);
      WordsAppend(Without(lens[..n], k), lens[n], top);
    }
  }

  lemma {:induction false} CostWithout(w: seq<nat>, lens: seq<nat>, k: nat)
    requires k < |w| == |lens|
    ensures Cost(w, lens) == Cost(Without(w, k), Without(lens, k)) + w[k] * lens[k]
    decreases |w|
  {
    hide Without;
    WithoutLast(lens, k);
    WithoutLast(w, k);
    var n := |w| - 1;
    if k < n {
      CostWithout(w[..n], lens[..n], k);
      CostAppend(Without(w[..n], k), Without(lens[..n], k), w[n], lens[n]);
    }
  }

  lemma {:induction false} Update(w: seq<nat>, lens: seq<nat>, k: nat, v: nat, top: nat)
    requires k < |w| == |lens|
    ensures Cost(w, lens[k := v]) + w[k] * lens[k] == Cost(w, lens) + w[k] * v
    ensures Words(lens[k := v], top) + Share(lens[k], top) == Words(lens, top) + Share(v, top)
  {
    hide Share, Words, Cost;
    CostWithout(w, lens, k);
    CostWithout(w, lens[k := v], k);
    WordsWithout(lens, k, top);
    WordsWithout(lens[k := v], k, top);
    assert Without(lens[k := v], k) == Without(lens, k);
  }

  /** Giving the lighter symbol the longer word costs nothing. */
  lemma Exchange(w: seq<nat>, lens: seq<nat>, i: nat, k: nat, top: nat) returns (now: seq<nat>)
    requires |w| == |lens| && i < |w| && k < |w| && w[i] <= w[k] && Prefixable(lens, top)
    requires forall j :: 0 <= j < |lens| ==> lens[j] <= lens[k]
    ensures |now| == |w| && Prefixable(now, top) && Cost(w, now) <= Cost(w, lens) && Words(now, top) == Words(lens, top)
    ensures now[i] == lens[k] && forall j :: 0 <= j < |now| ==> now[j] <= now[i]
  {
    hide Words, Cost, Share;
    now := lens;
    if i != k {
      var half := lens[i := lens[k]];
      now := half[k := lens[i]];
      Update(w, lens, i, lens[k], top);
      Update(w, half, k, lens[i], top);
      Trade(w[i], w[k], lens[i], lens[k]);
    }
  }

  lemma Trade(a: nat, b: nat, short: nat, long: nat)
    requires a <= b && short <= long
    ensures a * long + b * short <= a * short + b * long
  {
    var gap, more := long - short, b - a;
    assert a * long == a * short + a * gap && b * long == b * short + b * gap;
    assert b * gap == a * gap + more * gap;
  }

  lemma {:induction false} Longest(lens: seq<nat>) returns (k: nat)
    requires lens != []
    ensures k < |lens| && forall j :: 0 <= j < |lens| ==> lens[j] <= lens[k]
    decreases |lens|
  {
    var n := |lens| - 1;
    k := n;
    if n > 0 {
      var m := Longest(lens[..n]);
      assert forall j :: 0 <= j < n ==> lens[j] == lens[..n][j];
      k := if lens[m] <= lens[n] then n else m;
    }
  }

  lemma Times(a: nat, b: nat, d: nat)
    ensures (a + b) * d == a * d + b * d
  {
  }

  /** Where no word is longer than `most`, the shares come in units of the smallest. */
  lemma {:induction false} Units(lens: seq<nat>, most: nat, top: nat) returns (q: nat)
    requires most <= top && forall i :: 0 <= i < |lens| ==> lens[i] <= most
    ensures Words(lens, top) == q * Pow2(top - most)
    decreases |lens|
  {
    if lens == [] {
      q := 0;
    } else {
      var n := |lens| - 1;
      var p := Units(lens[..n], most, top);
      Pow2Add(most - lens[n], top - most);
      q := p + Pow2(most - lens[n]);
      assert q * Pow2(top - most) == p * Pow2(top - most) + Pow2(most - lens[n]) * Pow2(top - most) by { Times(p, Pow2(most - lens[n]), Pow2(top - most)); }
    }
  }

  /** A word longer than all others leaves room to be shortened to their length. */
  lemma RoomToShorten(lens: seq<nat>, most: nat, long: nat, top: nat)
    requires most <= long <= top && forall i :: 0 <= i < |lens| ==> lens[i] <= most
    requires Words(lens, top) + Share(long, top) <= Pow2(top)
    ensures Words(lens, top) + Share(most, top) <= Pow2(top)
  {
    hide Words;
    var q := Units(lens, most, top);
    Pow2Add(most, top - most);
    var d, all := Pow2(top - most), Pow2(most);
    assert Pow2(top) == all * d;
    if q >= all {
      MulMono(all, q, d);
    } else {
      MulMono(q + 1, all, d);
      Times(q, 1, d);
    }
  }

  /** Two words of the same greatest length give way to one that is a bit shorter. */
  lemma Merged(w: seq<nat>, lens: seq<nat>, j: nat, a: nat, sum: nat, long: nat, top: nat) returns (w': seq<nat>, lens': seq<nat>)
    requires |w| == |lens| && j < |w| && sum == a + w[j] && (forall i :: 0 <= i < |lens| ==> lens[i] <= lens[j])
    requires lens[j] <= long <= top && Words(lens, top) + Share(long, top) <= Pow2(top)
    ensures |w'| == |lens'| && w' == Without(w, j) + [sum] && Prefixable(lens', top)
    ensures Cost(w', lens') + a + w[j] <= a * long + Cost(w, lens)
  {
    hide Words, Cost;
    var len := lens[j];
    RoomToShorten(lens, len, long, top);
    WordsWithout(lens, j, top);
    assert Share(0, top) == Pow2(top);
    assert len > 0;
    assert Pow2(top - len + 1) == 2 * Pow2(top - len);
    w', lens' := Without(w, j) + [sum], Without(lens, j) + [len - 1];
    WordsAppend(Without(lens, j), len - 1, top);
    CostWithout(w, lens, j);
    CostAppend(Without(w, j), Without(lens, j), sum, len - 1);
    Saved(a, w[j], len, long);
  }

  lemma Saved(a: nat, b: nat, len: nat, long: nat)
    requires 0 < len <= long
    ensures (a + b) * (len - 1) + a + b <= a * long + b * len
  {
    assert (a + b) * (len - 1) + a + b == a * len + b * len;
    MulMono(len, long, a);
    assert a * len == len * a && a * long == long * a;
  }

  function Plus(m: multiset<nat>, x: nat): multiset<nat> {
    m + multiset{x}
  }

  lemma PlusCancel(m: multiset<nat>, n: multiset<nat>, x: nat)
    requires Plus(m, x) == Plus(n, x)
    ensures m == n
  {
    assert m == Plus(m, x) - multiset{x};
    assert n == Plus(n, x) - multiset{x};
  }

  lemma PlusAppend(s: seq<nat>, x: nat)
    ensures multiset(s + [x]) == Plus(multiset(s), x)
  {
  }

  ghost predicate Least(x: nat, m: multiset<nat>) {
    x in m && forall y :: y in m ==> x <= y
  }

  lemma FindWeight(w: seq<nat>, x: nat) returns (i: nat)
    requires x in multiset(w)
    ensures i < |w| && w[i] == x
  {
    i :| 0 <= i < |w| && w[i] == x;
  }

  /** The lightest weight is given the longest word, and taken out. */
  lemma LightestOut(w: seq<nat>, lens: seq<nat>, top: nat, a: nat) returns (v: seq<nat>, rest: seq<nat>, long: nat)
    requires |w| == |lens| && Prefixable(lens, top) && Least(a, multiset(w))
    ensures |v| == |rest| && multiset(w) == Plus(multiset(v), a) && Prefixable(rest, top)
    ensures long <= top && Words(rest, top) + Share(long, top) <= Pow2(top) && forall i :: 0 <= i < |rest| ==> rest[i] <= long
    ensures a * long + Cost(v, rest) <= Cost(w, lens)
  {
    hide Words, Cost, Share, Without, Plus;
    var i := FindWeight(w, a);
    var k := Longest(lens);
    assert w[k] in multiset(w);
    var now := Exchange(w, lens, i, k, top);
    WithoutOne(w, i);
    WordsWithout(now, i, top);
    CostWithout(w, now, i);
    RestAtMost(now, i, top);
    v, rest, long := Without(w, i), Without(now, i), now[i];
  }

  /** One code, with the two lightest weights joined. */
  lemma JoinLightest(w: seq<nat>, lens: seq<nat>, top: nat, m: multiset<nat>, a: nat, b: nat)
    returns (w': seq<nat>, lens': seq<nat>)
    requires |w| == |lens| && Prefixable(lens, top) && multiset(w) == Plus(Plus(m, b), a)
    requires Least(a, multiset(w)) && Least(b, Plus(m, b))
    ensures |w'| == |lens'| && Prefixable(lens', top) && multiset(w') == Plus(m, a + b)
    ensures Cost(w', lens') + a + b <= Cost(w, lens)
  {
    hide Words, Cost, Share, Without, Prefixable, Plus;
    var v, rest, long := LightestOut(w, lens, top, a);
    PlusCancel(multiset(v), Plus(m, b), a);
    var j := FindWeight(v, b);
    var l := Longest(rest);
    assert v[l] in multiset(v);
    var now := Exchange(v, rest, j, l, top);
    w', lens' := Merged(v, now, j, a, a + b, long, top);
    WithoutOne(v, j);
    PlusCancel(multiset(Without(v, j)), m, b);
    PlusAppend(Without(v, j), a + b);
  }

  lemma RestAtMost(lens: seq<nat>, i: nat, top: nat)
    requires i < |lens| && forall j :: 0 <= j < |lens| ==> lens[j] <= lens[i]
    requires Prefixable(lens, top)
    ensures Prefixable(Without(lens, i), top) && forall j :: 0 <= j < |Without(lens, i)| ==> Without(lens, i)[j] <= lens[i]
  {
    hide Words, Share;
    WordsWithout(lens, i, top);
  }

  /** A bound for the weights with the two lightest joined gives one for the weights. */
  lemma StepBack(m: multiset<nat>, a: nat, b: nat, c: nat)
    requires Least(a, Plus(Plus(m, b), a)) && Least(b, Plus(m, b)) && AtLeast(Plus(m, a + b), c)
    ensures AtLeast(Plus(Plus(m, b), a), c + a + b)
  {
    hide Prefixable, Cost, Least, Plus;
    forall w: seq<nat>, lens: seq<nat>, top: nat | |w| == |lens| && multiset(w) == Plus(Plus(m, b), a) && Prefixable(lens, top)
      ensures Cost(w, lens) >= c + a + b
    {
      var w', lens' := JoinLightest(w, lens, top, m, a, b);
      assert Cost(w', lens') >= c;
    }
  }

  /** What bounds the weights `after` from below, and `spent` bits more, bounds the weights `before`. */
  ghost predicate Steps(before: multiset<nat>, after: multiset<nat>, spent: nat) {
    forall c: nat :: AtLeast(after, c) ==> AtLeast(before, c + spent)
  }

  lemma StepsJoin(m: multiset<nat>, a: nat, b: nat)
    requires Least(a, Plus(Plus(m, b), a)) && Least(b, Plus(m, b))
    ensures Steps(Plus(Plus(m, b), a), Plus(m, a + b), a + b)
  {
    hide AtLeast, Least, Plus;
    var now := Plus(m, a + b);
    forall c: nat | AtLeast(now, c)
      ensures AtLeast(Plus(Plus(m, b), a), c + (a + b))
    {
      StepBack(m, a, b, c);
    }
  }

  lemma StepsNone(m: multiset<nat>)
    ensures Steps(m, m, 0)
  {
  }

  lemma StepsOn(a: multiset<nat>, b: multiset<nat>, c: multiset<nat>, p: nat, q: nat)
    requires Steps(a, b, p) && Steps(b, c, q)
    ensures Steps(a, c, p + q)
  {
    hide AtLeast;
    forall n: nat | AtLeast(c, n)
      ensures AtLeast(a, n + (p + q))
    {
      assert AtLeast(b, n + q);
      assert AtLeast(a, (n + q) + p);
    }
  }

  /** Once there is nothing left to join, all that was spent had to be. */
  lemma StepsEnd(before: multiset<nat>, after: multiset<nat>, spent: nat)
    requires Steps(before, after, spent)
    ensures AtLeast(before, spent)
  {
    hide Cost;
    assert AtLeast(after, 0);
  }

  lemma {:induction false} ZeroCost(freq: seq<nat>, lens: seq<nat>)
    requires |lens| == |freq| && forall i :: 0 <= i < |lens| ==> lens[i] == 0
    ensures Cost(freq, lens) == 0
    decreases |lens|
  {
    if lens != [] {
      ZeroCost(freq[..|lens| - 1], lens[..|lens| - 1]);
    }
  }

  /** The values, among the first `k`, of the symbols that occur. */
  ghost function Kept(freq: seq<nat>, vals: seq<nat>, k: nat): (r: seq<nat>)
    requires k <= |freq| && k <= |vals|
    ensures |r| <= k
  {
    if k == 0 then [] else Kept(freq, vals, k - 1) + (if freq[k - 1] > 0 then [vals[k - 1]] else [])
  }

  lemma {:induction false} KeptSame(freq: seq<nat>, a: seq<nat>, b: seq<nat>, k: nat)
    requires k <= |freq| && k <= |a| && k <= |b|
    ensures |Kept(freq, a, k)| == |Kept(freq, b, k)|
  {
    if k > 0 {
      KeptSame(freq, a, b, k - 1);
    }
  }

  lemma NoCost()
    ensures Cost([], []) == 0
  {
  }

  /** Symbols that do not occur cost nothing. */
  lemma {:induction false} KeptCost(freq: seq<nat>, lens: seq<nat>, k: nat)
    requires k <= |freq| == |lens|
    ensures |Kept(freq, freq, k)| == |Kept(freq, lens, k)|
    ensures Cost(freq[..k], lens[..k]) == Cost(Kept(freq, freq, k), Kept(freq, lens, k))
  {
    hide Cost;
    KeptSame(freq, freq, lens, k);
    if k == 0 {
      NoCost();
    } else {
      KeptCost(freq, lens, k - 1);
      assert freq[..k] == freq[..k - 1] + [freq[k - 1]] && lens[..k] == lens[..k - 1] + [lens[k - 1]];
      CostAppend(freq[..k - 1], lens[..k - 1], freq[k - 1], lens[k - 1]);
      CostAppend(Kept(freq, freq, k - 1), Kept(freq, lens, k - 1), freq[k - 1], lens[k - 1]);
      assert freq[k - 1] == 0 ==> Kept(freq, freq, k) == Kept(freq, freq, k - 1) && Kept(freq, lens, k) == Kept(freq, lens, k - 1);
    }
  }

  /** No prefix code for the symbols that occur takes fewer bits than this one. */
  ghost predicate Cheapest(freq: seq<nat>, lens: seq<nat>) {
    && |lens| == |freq|
    && forall other: seq<nat>, top: nat :: |other| == |freq| && Prefixable(Kept(freq, other, |freq|), top) ==>
         Cost(freq, lens) <= Cost(freq, other)
  }

  lemma CheapestFrom(freq: seq<nat>, lens: seq<nat>)
    requires |lens| == |freq| && AtLeast(multiset(Kept(freq, freq, |freq|)), Cost(freq, lens))
    ensures Cheapest(freq, lens)
  {
    hide Cost, Prefixable, Kept;
    forall other: seq<nat>, top: nat | |other| == |freq| && Prefixable(Kept(freq, other, |freq|), top)
      ensures Cost(freq, lens) <= Cost(freq, other)
    {
      KeptCost(freq, other, |freq|);
      assert freq[..|freq|] == freq && other[..|freq|] == other;
    }
  }
}
