/** The in-place binary heap of src/zupt_lzh.c:176-193, 213-226: the lightest node is on top. */
module LzhHeap {
  /** A subtree of weight `f`: a symbol, or below zero the inner node `-s - 1`. */
  datatype Node = Node(f: nat, s: int)

  function Parent(k: nat): nat {
    if k == 0 then 0 else (k - 1) / 2
  }

  /** Node `k` is no lighter than its parent. */
  ghost predicate Above(h: seq<Node>, k: nat)
    requires k < |h|
  {
    h[Parent(k)].f <= h[k].f
  }

  ghost predicate Heap(h: seq<Node>) {
    forall k :: 0 < k < |h| ==> Above(h, k)
  }

  /** The children of `i` respect its parent. */
  ghost predicate Grandchildren(h: seq<Node>, i: nat)
    requires i < |h|
  {
    forall k :: 0 < i < k < |h| && Parent(k) == i ==> h[Parent(i)].f <= h[k].f
  }

  /** In order everywhere but below `i`. */
  ghost predicate HeapBut(h: seq<Node>, i: nat) {
    i < |h| && Grandchildren(h, i) && forall k :: 0 < k < |h| && Parent(k) != i ==> Above(h, k)
  }

  /** In order everywhere but above `i`. */
  ghost predicate HeapUpTo(h: seq<Node>, i: nat) {
    i < |h| && Grandchildren(h, i) && forall k :: 0 < k < |h| && k != i ==> Above(h, k)
  }

  lemma {:induction false} TopIsLightest(h: seq<Node>, k: nat)
    requires Heap(h) && k < |h|
    ensures h[0].f <= h[k].f
    decreases k
  {
    if k > 0 {
      assert Above(h, k);
      TopIsLightest(h, Parent(k));
    }
  }

  method Swap(h: array<Node>, n: nat, i: nat, j: nat)
    requires i < n <= h.Length && j < n
    modifies h
    ensures h[..n] == old(h[..n][i := h[j]][j := h[i]]) && h[n..] == old(h[n..])
    ensures multiset(h[..n]) == old(multiset(h[..n]))
  {
    h[i], h[j] := h[j], h[i];
    assert h[..n] == old(h[..n][i := h[j]][j := h[i]]);
  }

  lemma DownStep(h: seq<Node>, i: nat, b: nat)
    requires HeapBut(h, i) && 0 < b < |h| && i == Parent(b) && h[b].f < h[i].f
    requires forall k :: i < k < |h| && Parent(k) == i ==> h[b].f <= h[k].f
    ensures HeapBut(h[i := h[b]][b := h[i]], b)
  {
    var now := h[i := h[b]][b := h[i]];
    forall k | 0 < k < |h| && Parent(k) != b
      ensures Above(now, k)
    {
      if k != b && Parent(k) != i {
        assert Above(h, k);
      }
    }
    forall k | b < k < |h| && Parent(k) == b
      ensures now[Parent(b)].f <= now[k].f
    {
      assert Above(h, k);
    }
  }

  lemma DownEnd(h: seq<Node>, i: nat)
    requires HeapBut(h, i) && forall k :: i < k < |h| && Parent(k) == i ==> h[i].f <= h[k].f
    ensures Heap(h)
  {
    forall k | 0 < k < |h|
      ensures Above(h, k)
    {
    }
  }

  lemma UpStep(h: seq<Node>, i: nat)
    requires HeapUpTo(h, i) && 0 < i && h[i].f < h[Parent(i)].f
    ensures HeapUpTo(h[i := h[Parent(i)]][Parent(i) := h[i]], Parent(i))
  {
    var p := Parent(i);
    var now := h[i := h[p]][p := h[i]];
    forall k | 0 < k < |h| && k != p
      ensures Above(now, k)
    {
      if k != i {
        assert Above(h, k);
      }
    }
    forall k | 0 < p < k < |h| && Parent(k) == p
      ensures now[Parent(p)].f <= now[k].f
    {
      assert Above(h, p);
      if k != i {
        assert Above(h, k);
      }
    }
  }

  lemma UpEnd(h: seq<Node>, i: nat)
    requires HeapUpTo(h, i) && (i > 0 ==> h[Parent(i)].f <= h[i].f)
    ensures Heap(h)
  {
    forall k | 0 < k < |h|
      ensures Above(h, k)
    {
    }
  }

  /** The children of `i` in a heap of `n` nodes. */
  lemma Children(i: nat, k: nat)
    requires k > 0 && Parent(k) == i
    ensures k == 2 * i + 1 || k == 2 * i + 2
  {
  }

  lemma PushedLast(h: seq<Node>, x: Node)
    requires Heap(h)
    ensures HeapUpTo(h + [x], |h|)
  {
    forall k | 0 < k < |h|
      ensures Above(h + [x], k)
    {
      assert Above(h, k);
    }
  }

  lemma Replaced(h: seq<Node>, x: Node)
    requires Heap(h) && h != []
    ensures HeapBut(h[0 := x], 0)
  {
    forall k | 0 < k < |h| && Parent(k) != 0
      ensures Above(h[0 := x], k)
    {
      assert Above(h, k);
    }
  }

  lemma Shortened(h: seq<Node>, n: nat)
    requires Heap(h) && n <= |h|
    ensures Heap(h[..n])
  {
    forall k | 0 < k < n
      ensures Above(h[..n], k)
    {
      assert Above(h, k);
    }
  }

  /** `h_down`. */
  method Down(h: array<Node>, n: nat, start: nat)
    requires n <= h.Length && start < n && HeapBut(h[..n], start)
    modifies h
    ensures Heap(h[..n]) && multiset(h[..n]) == old(multiset(h[..n])) && h[n..] == old(h[n..])
  {
    hide HeapBut, Heap;
    var i: nat := start;
    while true
      invariant i < n && HeapBut(h[..n], i)
      invariant multiset(h[..n]) == old(multiset(h[..n])) && h[n..] == old(h[n..])
      decreases n - i
    {
      var b, l, r := i, 2 * i + 1, 2 * i + 2;
      if l < n && h[l].f < h[b].f { b := l; }
      if r < n && h[r].f < h[b].f { b := r; }
      ghost var was := h[..n];
      forall k | i < k < n && Parent(k) == i
        ensures was[b].f <= was[k].f
      {
        Children(i, k);
      }
      if b == i {
        DownEnd(was, i);
        break;
      }
      DownStep(was, i, b);
      Swap(h, n, i, b);
      i := b;
    }
  }

  /** `h_up`, on the heap with its last element out of place. */
  method Up(h: array<Node>, last: nat)
    requires last < h.Length && HeapUpTo(h[..last + 1], last)
    modifies h
    ensures Heap(h[..last + 1]) && multiset(h[..last + 1]) == old(multiset(h[..last + 1]))
    ensures h[last + 1..] == old(h[last + 1..])
  {
    hide HeapUpTo, Heap;
    var i: nat := last;
    while i > 0
      invariant i <= last && HeapUpTo(h[..last + 1], i)
      invariant multiset(h[..last + 1]) == old(multiset(h[..last + 1])) && h[last + 1..] == old(h[last + 1..])
    {
      var p: nat := (i - 1) / 2;
      if h[p].f <= h[i].f {
        break;
      }
      ghost var was := h[..last + 1];
      UpStep(was, i);
      Swap(h, last + 1, i, p);
      i := p;
    }
    UpEnd(h[..last + 1], i);
  }

  /** Adds a node. */
  method Push(h: array<Node>, n: nat, x: Node)
    requires n < h.Length && Heap(h[..n])
    modifies h
    ensures Heap(h[..n + 1]) && multiset(h[..n + 1]) == old(multiset(h[..n])) + multiset{x}
  {
    hide HeapUpTo, Heap;
    ghost var was := h[..n];
    h[n] := x;
    assert h[..n + 1] == was + [x];
    PushedLast(was, x);
    Up(h, n);
  }

  lemma TopOfAll(h: seq<Node>)
    requires Heap(h) && h != []
    ensures forall y: Node :: y in multiset(h) ==> h[0].f <= y.f
  {
    hide Heap;
    forall y: Node | y in multiset(h)
      ensures h[0].f <= y.f
    {
      var k :| 0 <= k < |h| && h[k] == y;
      TopIsLightest(h, k);
    }
  }

  /** `h` without its top, the last node in its place. */
  ghost function Topped(h: seq<Node>): (r: seq<Node>)
    requires h != []
    ensures |r| == |h| - 1
  {
    var n := |h| - 1;
    if n == 0 then [] else h[..n][0 := h[n]]
  }

  lemma ToppedHolds(h: seq<Node>)
    requires h != []
    ensures multiset(h) == multiset(Topped(h)) + multiset{h[0]}
  {
    var n := |h| - 1;
    assert h == h[..n] + [h[n]];
  }

  /** Takes the lightest node away. */
  method Pop(h: array<Node>, n: nat) returns (x: Node)
    requires 0 < n <= h.Length && Heap(h[..n])
    modifies h
    ensures Heap(h[..n - 1]) && old(multiset(h[..n])) == multiset(h[..n - 1]) + multiset{x}
    ensures forall y: Node :: y in old(multiset(h[..n])) ==> x.f <= y.f
  {
    hide HeapBut, Heap;
    ghost var was := h[..n];
    x := h[0];
    TopOfAll(was);
    ToppedHolds(was);
    h[0] := h[n - 1];
    assert h[..n - 1] == Topped(was);
    Shortened(was, n - 1);
    if n > 1 {
      Replaced(was[..n - 1], was[n - 1]);
      Down(h, n - 1, 0);
    } else {
      assert h[..0] == was[..0];
    }
  }
}
