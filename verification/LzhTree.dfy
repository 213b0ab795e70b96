/** The Huffman tree of src/zupt_lzh.c:195-228, merged with a heap, and its depths clamped at 15. */
module LzhTree {
  import opened Bits
  import CodeCost
  import opened HuffLengths
  import opened HuffTree
  import opened LzhHeap

  datatype Trie = Leaf(sym: nat) | Fork(left: Trie, right: Trie)

  /** The symbols of a tree, left to right. */
  ghost function Symbols(t: Trie): seq<nat> {
    match t
    case Leaf(s) => [s]
    case Fork(l, r) => Symbols(l) + Symbols(r)
  }

  /** The total frequency of a tree's symbols. */
  ghost function Weighs(freq: seq<nat>, t: Trie): nat {
    match t
    case Leaf(s) => if s < |freq| then freq[s] else 0
    case Fork(l, r) => Weighs(freq, l) + Weighs(freq, r)
  }

  /** What the inner nodes of a tree weigh together: the bits its code takes. */
  ghost function Spent(freq: seq<nat>, t: Trie): nat {
    match t
    case Leaf(s) => 0
    case Fork(l, r) => Spent(freq, l) + Spent(freq, r) + Weighs(freq, t)
  }

  /** The symbols present among the first `k`, ascending. */
  ghost function Present(freq: seq<nat>, k: nat): (r: seq<nat>)
    requires k <= |freq|
    ensures |r| <= k
    ensures forall i :: 0 <= i < |r| ==> r[i] < k && freq[r[i]] > 0
    ensures forall i, j :: 0 <= i < j < |r| ==> r[i] < r[j]
    ensures forall s :: 0 <= s < k && freq[s] > 0 ==> s in r
  {
    if k == 0 then [] else if freq[k - 1] > 0 then Present(freq, k - 1) + [k - 1] else Present(freq, k - 1)
  }

  //////////////////////////////////////////////////////////////////////////////
  // The forest
  //////////////////////////////////////////////////////////////////////////////

  ghost predicate Known(trees: seq<Trie>, s: int) {
    s >= 0 || -s - 1 < |trees|
  }

  /** What a reference stands for: a symbol, or an inner node. */
  ghost function Ref(trees: seq<Trie>, s: int): Trie
    requires Known(trees, s)
  {
    if s >= 0 then Leaf(s) else trees[-s - 1]
  }

  /** Each inner node joins two older ones. */
  ghost predicate Linked(trees: seq<Trie>, left: seq<int>, right: seq<int>) {
    && |trees| <= |left| == |right|
    && forall x :: 0 <= x < |trees| ==>
         && (left[x] >= 0 || -left[x] - 1 < x) && (right[x] >= 0 || -right[x] - 1 < x)
         && trees[x] == Fork(Ref(trees, left[x]), Ref(trees, right[x]))
  }

  /** Roots stand for trees of the weight they carry. */
  ghost predicate Rooted(freq: seq<nat>, trees: seq<Trie>, roots: seq<Node>) {
    forall i :: 0 <= i < |roots| ==> Known(trees, roots[i].s) && roots[i].f == Weighs(freq, Ref(trees, roots[i].s))
  }

  /** All symbols under the roots. */
  ghost function Gather(freq: seq<nat>, trees: seq<Trie>, roots: seq<Node>): seq<nat>
    requires Rooted(freq, trees, roots)
  {
    if roots == [] then []
    else Gather(freq, trees, roots[..|roots| - 1]) + Symbols(Ref(trees, roots[|roots| - 1].s))
  }

  /** What the trees under the roots cost, and the weights of the roots. */
  ghost function AllSpent(freq: seq<nat>, trees: seq<Trie>, roots: seq<Node>): nat
    requires Rooted(freq, trees, roots)
  {
    if roots == [] then 0
    else AllSpent(freq, trees, roots[..|roots| - 1]) + Spent(freq, Ref(trees, roots[|roots| - 1].s))
  }

  ghost function Loads(roots: seq<Node>): multiset<nat> {
    if roots == [] then multiset{} else CodeCost.Plus(Loads(roots[..|roots| - 1]), roots[|roots| - 1].f)
  }

  lemma LoadsPush(roots: seq<Node>, x: Node)
    ensures Loads(roots + [x]) == CodeCost.Plus(Loads(roots), x.f)
  {
    assert (roots + [x])[..|roots|] == roots;
  }

  lemma PlusSwaps(m: multiset<nat>, a: nat, b: nat)
    ensures CodeCost.Plus(CodeCost.Plus(m, a), b) == CodeCost.Plus(CodeCost.Plus(m, b), a)
  {
  }

  lemma {:induction false} LoadsDrop(roots: seq<Node>, k: nat)
    requires k < |roots|
    ensures Loads(roots) == CodeCost.Plus(Loads(CodeCost.Without(roots, k)), roots[k].f)
    decreases |roots|
  {
    hide CodeCost.Without, CodeCost.Plus;
    var n := |roots| - 1;
    CodeCost.WithoutLast(roots, k);
    if k < n {
      LoadsDrop(roots[..n], k);
      LoadsPush(CodeCost.Without(roots[..n], k), roots[n]);
      PlusSwaps(Loads(CodeCost.Without(roots[..n], k)), roots[k].f, roots[n].f);
    }
  }

  lemma {:induction false} NoneLess(a: Node, roots: seq<Node>)
    requires NoneLighter(a, roots)
    ensures forall y :: y in Loads(roots) ==> a.f <= y
    decreases |roots|
  {
    if roots != [] {
      NoneLess(a, roots[..|roots| - 1]);
    }
  }

  /** Joining the two lightest roots is a step no code can save. */
  lemma LightestStep(roots: seq<Node>, i: nat, a: Node, rest: seq<Node>, j: nat, b: Node, both: seq<Node>, x: Node)
    requires i < |roots| && a == roots[i] && rest == CodeCost.Without(roots, i) && NoneLighter(a, roots)
    requires j < |rest| && b == rest[j] && both == CodeCost.Without(rest, j) && NoneLighter(b, rest) && x.f == a.f + b.f
    ensures CodeCost.Steps(Loads(roots), Loads(both + [x]), a.f + b.f)
  {
    hide CodeCost.Without, NoneLighter, Loads, CodeCost.Steps;
    LoadsDrop(roots, i);
    LoadsDrop(rest, j);
    NoneLess(a, roots);
    NoneLess(b, rest);
    LoadsPush(both, x);
    CodeCost.StepsJoin(Loads(both), a.f, b.f);
  }

  /** Together the roots hold each of the first `k` symbols that is present, once. */
  ghost predicate Forest(freq: seq<nat>, k: nat, trees: seq<Trie>, roots: seq<Node>) {
    k <= |freq| && Rooted(freq, trees, roots) && multiset(Gather(freq, trees, roots)) == multiset(Present(freq, k))
  }

  lemma GatherPush(freq: seq<nat>, trees: seq<Trie>, roots: seq<Node>, x: Node)
    requires Rooted(freq, trees, roots) && Known(trees, x.s) && x.f == Weighs(freq, Ref(trees, x.s))
    ensures Rooted(freq, trees, roots + [x])
    ensures Gather(freq, trees, roots + [x]) == Gather(freq, trees, roots) + Symbols(Ref(trees, x.s))
    ensures AllSpent(freq, trees, roots + [x]) == AllSpent(freq, trees, roots) + Spent(freq, Ref(trees, x.s))
  {
    assert (roots + [x])[..|roots|] == roots;
  }

  lemma RootedFront(freq: seq<nat>, trees: seq<Trie>, roots: seq<Node>)
    requires Rooted(freq, trees, roots) && roots != []
    ensures Rooted(freq, trees, roots[..|roots| - 1]) && Known(trees, roots[|roots| - 1].s)
    ensures roots[|roots| - 1].f == Weighs(freq, Ref(trees, roots[|roots| - 1].s))
    ensures Gather(freq, trees, roots) ==
            Gather(freq, trees, roots[..|roots| - 1]) + Symbols(Ref(trees, roots[|roots| - 1].s))
    ensures AllSpent(freq, trees, roots) ==
            AllSpent(freq, trees, roots[..|roots| - 1]) + Spent(freq, Ref(trees, roots[|roots| - 1].s))
  {
    hide Weighs, Symbols, Spent, Ref;
  }

  lemma {:induction false} GatherDrop(freq: seq<nat>, trees: seq<Trie>, roots: seq<Node>, k: nat)
    requires Rooted(freq, trees, roots) && k < |roots|
    ensures Known(trees, roots[k].s) && roots[k].f == Weighs(freq, Ref(trees, roots[k].s))
    ensures Rooted(freq, trees, CodeCost.Without(roots, k))
    ensures multiset(Gather(freq, trees, roots)) ==
            multiset(Gather(freq, trees, CodeCost.Without(roots, k))) + multiset(Symbols(Ref(trees, roots[k].s)))
    ensures AllSpent(freq, trees, roots) == AllSpent(freq, trees, CodeCost.Without(roots, k)) + Spent(freq, Ref(trees, roots[k].s))
    decreases |roots|
  {
    hide Rooted, Weighs, Symbols, Spent, Ref, Gather, AllSpent, CodeCost.Without, Known;
    var n := |roots| - 1;
    RootedFront(freq, trees, roots);
    CodeCost.WithoutLast(roots, k);
    if k < n {
      GatherDrop(freq, trees, roots[..n], k);
      GatherPush(freq, trees, CodeCost.Without(roots[..n], k), roots[n]);
    }
  }

  /** A new inner node changes nothing for the old roots. */
  lemma {:induction false} GatherStays(freq: seq<nat>, trees: seq<Trie>, t: Trie, roots: seq<Node>)
    requires Rooted(freq, trees, roots)
    ensures Rooted(freq, trees + [t], roots)
    ensures Gather(freq, trees + [t], roots) == Gather(freq, trees, roots)
    ensures AllSpent(freq, trees + [t], roots) == AllSpent(freq, trees, roots)
    decreases |roots|
  {
    if roots != [] {
      GatherStays(freq, trees, t, roots[..|roots| - 1]);
    }
  }

  /** Taking one node out of the heap. */
  lemma Taken(heap: multiset<Node>, rest: multiset<Node>, roots: seq<Node>, x: Node) returns (k: nat)
    requires multiset(roots) == heap == rest + multiset{x}
    ensures k < |roots| && roots[k] == x && multiset(CodeCost.Without(roots, k)) == rest
  {
    assert x in multiset(roots);
    k :| 0 <= k < |roots| && roots[k] == x;
    WithoutOne(roots, k);
    assert rest == multiset(roots) - multiset{x};
  }

  ghost function Join(trees: seq<Trie>, a: Node, b: Node): Trie
    requires Known(trees, a.s) && Known(trees, b.s)
  {
    Fork(Ref(trees, a.s), Ref(trees, b.s))
  }

  lemma LinkGrows(trees: seq<Trie>, left: seq<int>, right: seq<int>, a: Node, b: Node)
    requires Linked(trees, left, right) && |trees| < |left| && Known(trees, a.s) && Known(trees, b.s)
    ensures Linked(trees + [Join(trees, a, b)], left[|trees| := a.s], right[|trees| := b.s])
  {
    var now, l, r := trees + [Join(trees, a, b)], left[|trees| := a.s], right[|trees| := b.s];
    forall x | 0 <= x < |now|
      ensures (l[x] >= 0 || -l[x] - 1 < x) && (r[x] >= 0 || -r[x] - 1 < x)
      ensures now[x] == Fork(Ref(now, l[x]), Ref(now, r[x]))
    {
      if x < |trees| {
        assert trees[x] == Fork(Ref(trees, left[x]), Ref(trees, right[x]));
      }
    }
  }

  lemma NewRoot(freq: seq<nat>, trees: seq<Trie>, a: Node, b: Node)
    requires Known(trees, a.s) && Known(trees, b.s)
    requires a.f == Weighs(freq, Ref(trees, a.s)) && b.f == Weighs(freq, Ref(trees, b.s))
    ensures var (now, s) := (trees + [Join(trees, a, b)], -(|trees| + 1));
            Known(now, s) && Ref(now, s) == Join(trees, a, b) && a.f + b.f == Weighs(freq, Ref(now, s))
    ensures Symbols(Join(trees, a, b)) == Symbols(Ref(trees, a.s)) + Symbols(Ref(trees, b.s))
    ensures Spent(freq, Join(trees, a, b)) == Spent(freq, Ref(trees, a.s)) + Spent(freq, Ref(trees, b.s)) + a.f + b.f
  {
  }

  /** Joining two roots. */
  lemma Joined(freq: seq<nat>, trees: seq<Trie>, roots: seq<Node>, a: Node, rest: seq<Node>, b: Node, both: seq<Node>, i: nat, j: nat)
    requires Forest(freq, |freq|, trees, roots)
    requires i < |roots| && a == roots[i] && rest == CodeCost.Without(roots, i)
    requires j < |rest| && b == rest[j] && both == CodeCost.Without(rest, j)
    ensures Known(trees, a.s) && Known(trees, b.s)
    ensures Forest(freq, |freq|, trees + [Join(trees, a, b)], both + [Node(a.f + b.f, -(|trees| + 1))])
    ensures AllSpent(freq, trees + [Join(trees, a, b)], both + [Node(a.f + b.f, -(|trees| + 1))]) ==
            AllSpent(freq, trees, roots) + a.f + b.f
  {
    hide Rooted, Weighs, Symbols, Spent, Ref, Gather, AllSpent, CodeCost.Without, Known, Join;
    GatherDrop(freq, trees, roots, i);
    GatherDrop(freq, trees, rest, j);
    GatherStays(freq, trees, Join(trees, a, b), both);
    NewRoot(freq, trees, a, b);
    GatherPush(freq, trees + [Join(trees, a, b)], both, Node(a.f + b.f, -(|trees| + 1)));
  }

  lemma LeafJoins(freq: seq<nat>, k: nat, roots: seq<Node>)
    requires Forest(freq, k, [], roots) && k < |freq|
    ensures Forest(freq, k + 1, [], if freq[k] > 0 then roots + [Node(freq[k], k)] else roots)
    ensures freq[k] > 0 ==> Spending(freq, [], roots + [Node(freq[k], k)]) == Spending(freq, [], roots)
  {
    if freq[k] > 0 {
      GatherPush(freq, [], roots, Node(freq[k], k));
    }
  }

  lemma NoForest(freq: seq<nat>)
    ensures Forest(freq, 0, [], []) && multiset(Gather(freq, [], [])) == multiset{}
  {
  }

  //////////////////////////////////////////////////////////////////////////////
  // Building
  //////////////////////////////////////////////////////////////////////////////

  /** The heap holds the roots of the forest. */
  ghost predicate Growing(freq: seq<nat>, k: nat, heap: seq<Node>, trees: seq<Trie>, roots: seq<Node>) {
    Heap(heap) && multiset(roots) == multiset(heap) && |roots| == |heap| && Forest(freq, k, trees, roots)
  }

  lemma NothingGrows(freq: seq<nat>)
    ensures Growing(freq, 0, [], [], []) && Present(freq, 0) == [] && Spending(freq, [], []) == 0
    ensures Loads([]) == multiset(CodeCost.Kept(freq, freq, 0))
  {
    NoForest(freq);
  }

  lemma PresentNext(freq: seq<nat>, k: nat)
    requires k < |freq|
    ensures |Present(freq, k + 1)| == |Present(freq, k)| + (if freq[k] > 0 then 1 else 0) <= k + 1
    ensures |Present(freq, k)| <= k
  {
  }

  /** The heap of the symbols present. */
  method Collected(freq: seq<nat>) returns (hp: array<Node>, hn: nat, ghost roots: seq<Node>)
    ensures fresh(hp) && hp.Length == |freq| && hn == |Present(freq, |freq|)| <= |freq|
    ensures Growing(freq, |freq|, hp[..hn], [], roots)
    ensures Spending(freq, [], roots) == 0 && Loads(roots) == multiset(CodeCost.Kept(freq, freq, |freq|))
  {
    hide Growing, Present, Spending, Loads;
    hp, hn, roots := new Node[|freq|](_ => Node(0, 0)), 0, [];
    NothingGrows(freq);
    assert hp[..0] == [];
    for i := 0 to |freq|
      invariant hn == |Present(freq, i)| <= i && Growing(freq, i, hp[..hn], [], roots)
      invariant Spending(freq, [], roots) == 0 && Loads(roots) == multiset(CodeCost.Kept(freq, freq, i))
    {
      PresentNext(freq, i);
      if freq[i] > 0 {
        roots := PushLeaf(freq, i, hp, hn, roots);
        CodeCost.PlusAppend(CodeCost.Kept(freq, freq, i), freq[i]);
        hn := hn + 1;
      } else {
        NotPresent(freq, i, hp[..hn], roots);
      }
    }
  }

  lemma NotPresent(freq: seq<nat>, k: nat, heap: seq<Node>, roots: seq<Node>)
    requires k < |freq| && freq[k] == 0 && Growing(freq, k, heap, [], roots)
    ensures Growing(freq, k + 1, heap, [], roots)
  {
    LeafJoins(freq, k, roots);
  }

  method PushLeaf(freq: seq<nat>, i: nat, hp: array<Node>, hn: nat, ghost roots: seq<Node>) returns (ghost now: seq<Node>)
    requires i < |freq| && freq[i] > 0 && hn < hp.Length && Growing(freq, i, hp[..hn], [], roots)
    modifies hp
    ensures Growing(freq, i + 1, hp[..hn + 1], [], now) && Spending(freq, [], now) == Spending(freq, [], roots)
    ensures Loads(now) == CodeCost.Plus(Loads(roots), freq[i])
  {
    hide Heap, Forest, Present, Spending, Loads;
    LeafJoins(freq, i, roots);
    LoadsPush(roots, Node(freq[i], i));
    Push(hp, hn, Node(freq[i], i));
    now := roots + [Node(freq[i], i)];
  }

  ghost predicate NoneLighter(a: Node, roots: seq<Node>) {
    forall i :: 0 <= i < |roots| ==> a.f <= roots[i].f
  }

  /** Takes the lightest root `a`, which is at `i` among the roots. */
  method TakeRoot(hp: array<Node>, hn: nat, ghost roots: seq<Node>) returns (a: Node, ghost rest: seq<Node>, ghost i: nat)
    requires 1 <= hn <= hp.Length && Heap(hp[..hn]) && multiset(roots) == multiset(hp[..hn])
    modifies hp
    ensures Heap(hp[..hn - 1]) && multiset(rest) == multiset(hp[..hn - 1])
    ensures i < |roots| && a == roots[i] && rest == CodeCost.Without(roots, i)
    ensures NoneLighter(a, roots)
  {
    hide Heap, CodeCost.Without;
    a := Pop(hp, hn);
    i := Taken(multiset(roots), multiset(hp[..hn - 1]), roots, a);
    rest := CodeCost.Without(roots, i);
    forall k | 0 <= k < |roots|
      ensures a.f <= roots[k].f
    {
      assert roots[k] in multiset(roots);
    }
  }

  /** The cost of the roots' trees. */
  ghost function Spending(freq: seq<nat>, trees: seq<Trie>, roots: seq<Node>): nat {
    if Rooted(freq, trees, roots) then AllSpent(freq, trees, roots) else 0
  }

  lemma SpendingIs(freq: seq<nat>, k: nat, trees: seq<Trie>, roots: seq<Node>)
    requires Forest(freq, k, trees, roots)
    ensures Rooted(freq, trees, roots) && Spending(freq, trees, roots) == AllSpent(freq, trees, roots)
  {
  }

  /** Joins the two lightest roots under inner node `ni`: a step no code can save. */
  method JoinTop(freq: seq<nat>, hp: array<Node>, hn: nat, ni: nat, ghost trees: seq<Trie>, ghost roots: seq<Node>)
    returns (a: Node, b: Node, ghost i: nat, ghost rest: seq<Node>, ghost now: seq<Node>)
    requires 2 <= hn <= hp.Length && ni == |trees| && Growing(freq, |freq|, hp[..hn], trees, roots)
    modifies hp
    ensures Known(trees, a.s) && Known(trees, b.s)
    ensures Growing(freq, |freq|, hp[..hn - 1], trees + [Join(trees, a, b)], now)
    ensures i < |roots| && a == roots[i] && rest == CodeCost.Without(roots, i) && b in rest
    ensures NoneLighter(a, roots) && NoneLighter(b, rest)
    ensures Spending(freq, trees, roots) + a.f + b.f == Spending(freq, trees + [Join(trees, a, b)], now)
    ensures CodeCost.Steps(Loads(roots), Loads(now), a.f + b.f)
  {
    hide Heap, Forest, CodeCost.Without, Join, Known, Growing, NoneLighter, Loads, CodeCost.Steps, Spending;
    GrowingParts(freq, |freq|, hp[..hn], trees, roots);
    ghost var j, both;
    a, rest, i := TakeRoot(hp, hn, roots);
    var m := hn - 1;
    b, both, j := TakeRoot(hp, m, rest);
    Joined(freq, trees, roots, a, rest, b, both, i, j);
    LightestStep(roots, i, a, rest, j, b, both, Node(a.f + b.f, -(ni + 1)));
    SpendingIs(freq, |freq|, trees, roots);
    SpendingIs(freq, |freq|, trees + [Join(trees, a, b)], both + [Node(a.f + b.f, -(ni + 1))]);
    m := m - 1;
    now := PutJoined(freq, hp, m, Node(a.f + b.f, -(ni + 1)), trees + [Join(trees, a, b)], both);
    assert m + 1 == hn - 1;
  }

  method PutJoined(freq: seq<nat>, hp: array<Node>, m: nat, x: Node, ghost trees: seq<Trie>, ghost roots: seq<Node>)
    returns (ghost now: seq<Node>)
    requires m < hp.Length && Heap(hp[..m]) && multiset(roots) == multiset(hp[..m])
    requires Forest(freq, |freq|, trees, roots + [x])
    modifies hp
    ensures now == roots + [x] && Growing(freq, |freq|, hp[..m + 1], trees, now)
  {
    hide Heap, Forest, Growing;
    Push(hp, m, x);
    now := roots + [x];
    GrowingWhole(freq, hp[..m + 1], trees, roots, x);
  }

  lemma WithoutOne<T>(s: seq<T>, k: nat)
    requires k < |s|
    ensures multiset(s) == multiset(CodeCost.Without(s, k)) + multiset{s[k]}
  {
    assert s == s[..k] + [s[k]] + s[k + 1..];
  }

  lemma GrowingParts(freq: seq<nat>, k: nat, heap: seq<Node>, trees: seq<Trie>, roots: seq<Node>)
    requires Growing(freq, k, heap, trees, roots)
    ensures Heap(heap) && multiset(roots) == multiset(heap) && |roots| == |heap| && Forest(freq, k, trees, roots)
  {
  }

  lemma GrowingWhole(freq: seq<nat>, heap: seq<Node>, trees: seq<Trie>, roots: seq<Node>, x: Node)
    requires Heap(heap) && multiset(heap) == multiset(roots) + multiset{x}
    requires Forest(freq, |freq|, trees, roots + [x])
    ensures Growing(freq, |freq|, heap, trees, roots + [x])
  {
    hide Heap, Forest;
    assert multiset(roots + [x]) == multiset(heap);
    assert |multiset(roots + [x])| == |multiset(heap)|;
  }

  /** Merges the two lightest trees until one is left: no prefix code takes fewer bits than that tree. */
  method Merge(freq: seq<nat>) returns (left: array<int>, right: array<int>, root: int, ghost trees: seq<Trie>)
    requires |Present(freq, |freq|)| >= 2
    ensures Linked(trees, left[..], right[..]) && Known(trees, root)
    ensures multiset(Symbols(Ref(trees, root))) == multiset(Present(freq, |freq|))
    ensures Ref(trees, root).Fork?
    ensures CodeCost.AtLeast(multiset(CodeCost.Kept(freq, freq, |freq|)), Spent(freq, Ref(trees, root)))
  {
    hide Growing, Linked, Present, Join, Spending, Loads, CodeCost.Steps, CodeCost.AtLeast, CodeCost.Kept, Spent;
    ghost var roots;
    var hp, hn;
    hp, hn, roots := Collected(freq);
    left, right := new int[2 * |freq|](_ => 0), new int[2 * |freq|](_ => 0);
    trees := [];
    NothingLinked(left[..], right[..]);
    ghost var start, spent := Loads(roots), 0;
    CodeCost.StepsNone(start);
    var ni := 0;
    while hn > 1
      invariant 1 <= hn <= hp.Length && ni == |trees| && ni + hn == |Present(freq, |freq|)| <= |freq|
      invariant Growing(freq, |freq|, hp[..hn], trees, roots) && Linked(trees, left[..], right[..])
      invariant spent == Spending(freq, trees, roots) && CodeCost.Steps(start, Loads(roots), spent)
      invariant fresh(hp) && fresh(left) && fresh(right) && left.Length == right.Length == 2 * |freq| && left != right
    {
      var a, b;
      ghost var i, rest, now;
      a, b, i, rest, now := JoinTop(freq, hp, hn, ni, trees, roots);
      LinkGrows(trees, left[..], right[..], a, b);
      CodeCost.StepsOn(start, Loads(roots), Loads(now), spent, a.f + b.f);
      spent := spent + a.f + b.f;
      trees, roots := trees + [Join(trees, a, b)], now;
      left[ni], right[ni] := a.s, b.s;
      ni, hn := ni + 1, hn - 1;
    }
    root := hp[0].s;
    assert hp[..1] == [hp[0]];
    OneLeft(freq, trees, left[..], right[..], roots, hp[0]);
    CodeCost.StepsEnd(start, Loads(roots), spent);
  }

  lemma NothingLinked(left: seq<int>, right: seq<int>)
    requires |left| == |right|
    ensures Linked([], left, right)
  {
  }

  lemma OneLeft(freq: seq<nat>, trees: seq<Trie>, left: seq<int>, right: seq<int>, roots: seq<Node>, top: Node)
    requires Growing(freq, |freq|, [top], trees, roots)
    requires Linked(trees, left, right) && |Present(freq, |freq|)| >= 2
    ensures Known(trees, top.s) && multiset(Symbols(Ref(trees, top.s))) == multiset(Present(freq, |freq|))
    ensures Ref(trees, top.s).Fork? && Spending(freq, trees, roots) == Spent(freq, Ref(trees, top.s))
  {
    assert roots[0] in multiset(roots);
    assert roots == [] + [top];
    GatherPush(freq, trees, [], top);
    assert Gather(freq, trees, []) == [];
    var t := Ref(trees, top.s);
    assert Gather(freq, trees, roots) == Symbols(t);
    assert |multiset(Symbols(t))| == |multiset(Present(freq, |freq|))|;
  }

  //////////////////////////////////////////////////////////////////////////////
  // Depths
  //////////////////////////////////////////////////////////////////////////////

  function Clamp(d: nat): nat {
    if d > MAX_CODE_LEN then MAX_CODE_LEN else d
  }

  /** Each symbol with its depth, clamped, left to right. */
  ghost function Leaves(t: Trie, d: nat): (r: seq<Item>)
    ensures |r| == |Symbols(t)|
  {
    match t
    case Leaf(s) => [Item(Clamp(d), s)]
    case Fork(left, right) => Leaves(left, d + 1) + Leaves(right, d + 1)
  }

  lemma {:induction false} LeafSymbols(t: Trie, d: nat, i: nat)
    requires i < |Symbols(t)|
    ensures Leaves(t, d)[i].sym == Symbols(t)[i]
    ensures Clamp(d) <= Leaves(t, d)[i].key <= MAX_CODE_LEN
    decreases t
  {
    if t.Fork? {
      var n := |Symbols(t.left)|;
      if i < n {
        LeafSymbols(t.left, d + 1, i);
      } else {
        LeafSymbols(t.right, d + 1, i - n);
      }
    }
  }

  ghost predicate InAlphabet(items: seq<Item>, n: nat) {
    forall i :: 0 <= i < |items| ==> items[i].sym < n
  }

  /** Writes each item's key at its symbol, in order. */
  ghost function Put(base: seq<nat>, items: seq<Item>): (r: seq<nat>)
    requires InAlphabet(items, |base|)
    ensures |r| == |base|
    decreases |items|
  {
    if items == [] then base else Put(base[items[0].sym := items[0].key], items[1..])
  }

  lemma {:induction false} PutAppend(base: seq<nat>, a: seq<Item>, b: seq<Item>)
    requires InAlphabet(a, |base|)
    requires InAlphabet(b, |base|)
    ensures InAlphabet(a + b, |base|)
    ensures Put(base, a + b) == Put(Put(base, a), b)
    decreases |a|
  {
    if a == [] {
      assert a + b == b;
    } else {
      assert (a + b)[1..] == a[1..] + b;
      PutAppend(base[a[0].sym := a[0].key], a[1..], b);
    }
  }

  ghost predicate Separate(items: seq<Item>) {
    forall i, j :: 0 <= i < j < |items| ==> items[i].sym != items[j].sym
  }

  lemma {:induction false} PutKeeps(base: seq<nat>, items: seq<Item>, s: nat)
    requires InAlphabet(items, |base|)
    requires s < |base| && forall i :: 0 <= i < |items| ==> items[i].sym != s
    ensures Put(base, items)[s] == base[s]
    decreases |items|
  {
    if items != [] {
      PutKeeps(base[items[0].sym := items[0].key], items[1..], s);
    }
  }

  lemma {:induction false} PutAt(base: seq<nat>, items: seq<Item>, i: nat)
    requires InAlphabet(items, |base|)
    requires Separate(items) && i < |items|
    ensures Put(base, items)[items[i].sym] == items[i].key
    decreases |items|
  {
    var next := base[items[0].sym := items[0].key];
    if i == 0 {
      PutKeeps(next, items[1..], items[0].sym);
    } else {
      PutAt(next, items[1..], i - 1);
    }
  }

  /** A sum over what was put is a sum over the keys. */
  lemma {:induction false} PutSum(f: nat -> nat, base: seq<nat>, items: seq<Item>)
    requires forall i :: 0 <= i < |items| ==> items[i].sym < |base| && base[items[i].sym] == 0
    requires Separate(items) && f(0) == 0
    ensures SumBy(f, Put(base, items)) == SumBy(f, base) + SumBy(f, Keys(items))
    decreases |items|
  {
    if items == [] {
      assert Keys(items) == [];
    } else {
      var n := |items| - 1;
      var front := items[..n];
      assert items == front + [items[n]];
      PutAppend(base, front, [items[n]]);
      PutSum(f, base, front);
      PutKeeps(base, front, items[n].sym);
      var was := Put(base, front);
      assert Put(was, [items[n]]) == was[items[n].sym := items[n].key] by {
        assert [items[n]][1..] == [];
      }
      SumByUpdate(f, was, items[n].sym, items[n].key);
      assert Keys(items) == Keys(front) + [items[n].key];
      SumByAppend(f, Keys(front), items[n].key);
    }
  }

  /** Every symbol of the tree is below `n`. */
  ghost predicate Below(t: Trie, n: nat) {
    forall i :: 0 <= i < |Symbols(t)| ==> Symbols(t)[i] < n
  }

  lemma BelowParts(t: Trie, n: nat)
    requires Below(t, n) && t.Fork?
    ensures Below(t.left, n) && Below(t.right, n)
  {
    assert forall i :: 0 <= i < |Symbols(t.left)| ==> Symbols(t.left)[i] == Symbols(t)[i];
    assert forall i :: 0 <= i < |Symbols(t.right)| ==> Symbols(t.right)[i] == Symbols(t)[|Symbols(t.left)| + i];
  }

  lemma BelowLeaves(t: Trie, n: nat, d: nat)
    requires Below(t, n)
    ensures InAlphabet(Leaves(t, d), n)
  {
    forall i | 0 <= i < |Leaves(t, d)|
      ensures Leaves(t, d)[i].sym < n
    {
      LeafSymbols(t, d, i);
    }
  }

  lemma PutLeaf(base: seq<nat>, s: nat, d: nat)
    requires Below(Leaf(s), |base|)
    ensures s < |base|
    ensures Leaves(Leaf(s), d)[0].sym < |base| && Put(base, Leaves(Leaf(s), d)) == base[s := Clamp(d)]
  {
    assert Symbols(Leaf(s))[0] == s;
    assert Leaves(Leaf(s), d)[1..] == [];
  }

  lemma PutFork(base: seq<nat>, t: Trie, d: nat)
    requires t.Fork? && Below(t, |base|) && Below(t.left, |base|) && Below(t.right, |base|)
    ensures InAlphabet(Leaves(t, d), |base|)
    ensures InAlphabet(Leaves(t.left, d + 1), |base|)
    ensures InAlphabet(Leaves(t.right, d + 1), |base|)
    ensures Put(base, Leaves(t, d)) == Put(Put(base, Leaves(t.left, d + 1)), Leaves(t.right, d + 1))
  {
    BelowLeaves(t, |base|, d);
    BelowLeaves(t.left, |base|, d + 1);
    BelowLeaves(t.right, |base|, d + 1);
    PutAppend(base, Leaves(t.left, d + 1), Leaves(t.right, d + 1));
  }

  lemma InnerNode(trees: seq<Trie>, left: seq<int>, right: seq<int>, nd: int)
    requires Linked(trees, left, right) && Known(trees, nd) && nd < 0
    ensures -nd - 1 < |left| == |right|
    ensures var (l, r) := (left[-nd - 1], right[-nd - 1]);
            && (l >= 0 || -l < -nd) && (r >= 0 || -r < -nd) && Known(trees, l) && Known(trees, r)
            && Ref(trees, nd) == Fork(Ref(trees, l), Ref(trees, r))
  {
  }

  /** `tree_depths`. */
  method TreeDepths(nd: int, depth: nat, left: array<int>, right: array<int>, dp: array<nat>, ghost trees: seq<Trie>)
    requires dp != left as object && dp != right as object
    requires Linked(trees, left[..], right[..]) && Known(trees, nd) && Below(Ref(trees, nd), dp.Length)
    modifies dp
    ensures InAlphabet(Leaves(Ref(trees, nd), depth), dp.Length)
    ensures dp[..] == Put(old(dp[..]), Leaves(Ref(trees, nd), depth))
    decreases if nd >= 0 then 0 else -nd
  {
    hide Linked, Below, Leaves, Put;
    ghost var was := dp[..];
    BelowLeaves(Ref(trees, nd), dp.Length, depth);
    if 0 <= nd {
      PutLeaf(was, nd, depth);
      dp[nd] := if depth > MAX_CODE_LEN then MAX_CODE_LEN else depth;
      return;
    }
    InnerNode(trees, left[..], right[..], nd);
    BelowParts(Ref(trees, nd), dp.Length);
    PutFork(was, Ref(trees, nd), depth);
    TreeDepths(left[-nd - 1], depth + 1, left, right, dp, trees);
    TreeDepths(right[-nd - 1], depth + 1, left, right, dp, trees);
  }

  //////////////////////////////////////////////////////////////////////////////
  // Kraft's inequality, with depths clamped
  //////////////////////////////////////////////////////////////////////////////

  /** What a leaf at depth `d` takes of the 2^15 words of length 15. */
  ghost function Share(d: nat): nat {
    Pow2(MAX_CODE_LEN - Clamp(d))
  }

  /** Is a leaf deeper than 15? */
  ghost predicate TooDeep(t: Trie, d: nat) {
    match t
    case Leaf(_) => d > MAX_CODE_LEN
    case Fork(l, r) => TooDeep(l, d + 1) || TooDeep(r, d + 1)
  }

  lemma ShareSplits(d: nat)
    ensures d < MAX_CODE_LEN ==> Share(d) == 2 * Share(d + 1)
    ensures d >= MAX_CODE_LEN ==> Share(d) == 1
  {
  }

  lemma {:induction false} SumByJoin(f: nat -> nat, a: seq<nat>, b: seq<nat>)
    ensures SumBy(f, a + b) == SumBy(f, a) + SumBy(f, b)
    decreases |b|
  {
    if b == [] {
      assert a + b == a;
    } else {
      var n := |b| - 1;
      SumByJoin(f, a, b[..n]);
      assert a + b == (a + b[..n]) + [b[n]];
      SumByAppend(f, a + b[..n], b[n]);
    }
  }

  lemma KeysJoin(a: seq<Item>, b: seq<Item>)
    ensures Keys(a + b) == Keys(a) + Keys(b)
  {
  }

  lemma OneKey(f: nat -> nat, x: Item)
    ensures SumBy(f, Keys([x])) == f(x.key)
  {
    assert Keys([x]) == [x.key];
    assert [x.key][..0] == [];
  }

  lemma LeafShare(d: nat)
    requires d > 0
    ensures Weight(Clamp(d)) == Share(d)
  {
  }

  /** Clamping can only over-subscribe: exactly when a leaf was too deep. */
  lemma {:induction false} ClampedKraft(t: Trie, d: nat)
    requires d > 0 || t.Fork?
    ensures SumBy(Weight, Keys(Leaves(t, d))) >= Share(d)
    ensures d <= MAX_CODE_LEN ==> (SumBy(Weight, Keys(Leaves(t, d))) == Share(d) <==> !TooDeep(t, d))
    decreases t
  {
    hide Pow2, SumBy, Keys, Share, Weight;
    ShareSplits(d);
    match t {
      case Leaf(s) =>
        OneKey(Weight, Item(Clamp(d), s));
        LeafShare(d);
      case Fork(l, r) =>
        ClampedKraft(l, d + 1);
        ClampedKraft(r, d + 1);
        KeysJoin(Leaves(l, d + 1), Leaves(r, d + 1));
        SumByJoin(Weight, Keys(Leaves(l, d + 1)), Keys(Leaves(r, d + 1)));
        ShareSplits(d + 1);
        if d >= MAX_CODE_LEN {
          AllTooDeep(l, d + 1);
        }
    }
  }

  lemma {:induction false} AllTooDeep(t: Trie, d: nat)
    requires d > MAX_CODE_LEN
    ensures TooDeep(t, d)
    decreases t
  {
    if t.Fork? {
      AllTooDeep(t.left, d + 1);
    }
  }

  /** A length below 15. */
  function ShortWeight(len: nat): nat {
    if 1 <= len < MAX_CODE_LEN then Pow2(MAX_CODE_LEN - len) else 0
  }

  /** The leaves above depth 15 never over-subscribe. */
  lemma {:induction false} ShortKraft(t: Trie, d: nat)
    requires d > 0 || t.Fork?
    ensures SumBy(ShortWeight, Keys(Leaves(t, d))) <= if d < MAX_CODE_LEN then Share(d) else 0
    decreases t
  {
    hide Pow2;
    match t {
      case Leaf(s) =>
        OneKey(ShortWeight, Item(Clamp(d), s));
      case Fork(l, r) =>
        ShortKraft(l, d + 1);
        ShortKraft(r, d + 1);
        KeysJoin(Leaves(l, d + 1), Leaves(r, d + 1));
        SumByJoin(ShortWeight, Keys(Leaves(l, d + 1)), Keys(Leaves(r, d + 1)));
        ShareSplits(d);
    }
  }

  //////////////////////////////////////////////////////////////////////////////
  // The bits a tree's code takes
  //////////////////////////////////////////////////////////////////////////////

  ghost function ItemsCost(freq: seq<nat>, items: seq<Item>): nat
    requires InAlphabet(items, |freq|)
  {
    if items == [] then 0
    else
      assert InAlphabet(items[..|items| - 1], |freq|);
      ItemsCost(freq, items[..|items| - 1]) + freq[items[|items| - 1].sym] * items[|items| - 1].key
  }

  lemma ItemsCostAppend(freq: seq<nat>, items: seq<Item>, x: Item)
    requires InAlphabet(items, |freq|) && x.sym < |freq|
    ensures InAlphabet(items + [x], |freq|)
    ensures ItemsCost(freq, items + [x]) == ItemsCost(freq, items) + freq[x.sym] * x.key
  {
    assert (items + [x])[..|items|] == items;
  }

  lemma {:induction false} ItemsCostJoin(freq: seq<nat>, a: seq<Item>, b: seq<Item>)
    requires InAlphabet(a, |freq|)
    requires InAlphabet(b, |freq|)
    ensures InAlphabet(a + b, |freq|)
    ensures ItemsCost(freq, a + b) == ItemsCost(freq, a) + ItemsCost(freq, b)
    decreases |b|
  {
    if b == [] {
      assert a + b == a;
    } else {
      var n := |b| - 1;
      assert InAlphabet(b[..n], |freq|);
      ItemsCostJoin(freq, a, b[..n]);
      assert a + b == (a + b[..n]) + [b[n]];
      ItemsCostAppend(freq, a + b[..n], b[n]);
    }
  }

  /** What was put costs what the items cost. */
  lemma {:induction false} PutCost(freq: seq<nat>, base: seq<nat>, items: seq<Item>)
    requires |freq| == |base| && InAlphabet(items, |freq|)
    requires Separate(items) && forall i :: 0 <= i < |items| ==> base[items[i].sym] == 0
    ensures CodeCost.Cost(freq, Put(base, items)) == CodeCost.Cost(freq, base) + ItemsCost(freq, items)
    decreases |items|
  {
    hide CodeCost.Cost;
    if items != [] {
      var n := |items| - 1;
      var front, x := items[..n], items[n];
      assert items == front + [x];
      PutAppend(base, front, [x]);
      PutCost(freq, base, front);
      PutKeeps(base, front, x.sym);
      var was := Put(base, front);
      assert Put(was, [x]) == was[x.sym := x.key] by {
        assert [x][1..] == [];
      }
      CodeCost.Update(freq, was, x.sym, x.key, 0);
    }
  }

  /** A tree's leaves at their depths cost what its inner nodes weigh. */
  lemma {:induction false} LeavesCost(freq: seq<nat>, t: Trie, d: nat)
    requires Below(t, |freq|) && !TooDeep(t, d)
    ensures InAlphabet(Leaves(t, d), |freq|)
    ensures ItemsCost(freq, Leaves(t, d)) == d * Weighs(freq, t) + Spent(freq, t)
    decreases t
  {
    hide ItemsCost;
    BelowLeaves(t, |freq|, d);
    match t {
      case Leaf(s) =>
        assert Symbols(t)[0] == s;
        NoItems(freq);
        ItemsCostAppend(freq, [], Item(d, s));
        assert [] + [Item(d, s)] == Leaves(t, d);
      case Fork(l, r) =>
        BelowParts(t, |freq|);
        LeavesCost(freq, l, d + 1);
        LeavesCost(freq, r, d + 1);
        ItemsCostJoin(freq, Leaves(l, d + 1), Leaves(r, d + 1));
        OneDeeper(d, Weighs(freq, l), Weighs(freq, r));
    }
  }

  lemma NoItems(freq: seq<nat>)
    ensures ItemsCost(freq, []) == 0
  {
  }

  lemma OneDeeper(d: nat, a: nat, b: nat)
    ensures (d + 1) * a + (d + 1) * b == d * (a + b) + (a + b)
  {
  }

  /** Depths that need no clamping are the lengths of a code that no prefix code undercuts. */
  lemma TreeCheapest(freq: seq<nat>, t: Trie)
    requires Below(t, |freq|) && !TooDeep(t, 0) && InAlphabet(Leaves(t, 0), |freq|) && Separate(Leaves(t, 0))
    requires CodeCost.AtLeast(multiset(CodeCost.Kept(freq, freq, |freq|)), Spent(freq, t))
    ensures CodeCost.Cheapest(freq, Put(Zeros(|freq|), Leaves(t, 0)))
  {
    hide Leaves, Put, Spent, CodeCost.AtLeast, CodeCost.Cheapest, CodeCost.Kept, ItemsCost, CodeCost.Cost;
    LeavesCost(freq, t, 0);
    PutCost(freq, Zeros(|freq|), Leaves(t, 0));
    CodeCost.ZeroCost(freq, Zeros(|freq|));
    CodeCost.CheapestFrom(freq, Put(Zeros(|freq|), Leaves(t, 0)));
  }
}
