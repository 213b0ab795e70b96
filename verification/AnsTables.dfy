/** The tANS state machine of src/vv_ans.c as functions of a normalized frequency vector. */
module AnsTables {
  import opened Arith
  import opened Bits
  import opened Bytes

  const ANS_LOG: nat := 12
  const ANS_L: nat := 4096
  const NSYM: nat := 256
  /** `(ANS_L >> 1) + (ANS_L >> 3) + 3`, and its inverse modulo ANS_L. */
  const STEP: nat := 2563
  const STEP_INVERSE: nat := 171

  //////////////////////////////////////////////////////////////////////////////
  // Cumulative frequencies
  //////////////////////////////////////////////////////////////////////////////

  function Sum(s: seq<nat>): nat {
    if s == [] then 0 else Sum(s[..|s| - 1]) + s[|s| - 1]
  }

  function Cum(norm: seq<nat>, i: nat): nat
    requires i <= |norm|
  {
    Sum(norm[..i])
  }

  predicate Normalized(norm: seq<nat>) {
    |norm| == NSYM && Sum(norm) == ANS_L
  }

  lemma CumStep(norm: seq<nat>, i: nat)
    requires i < |norm|
    ensures Cum(norm, i + 1) == Cum(norm, i) + norm[i]
    ensures Cum(norm, 0) == 0
    ensures Cum(norm, |norm|) == Sum(norm)
  {
    assert norm[..i + 1][..i] == norm[..i];
    assert norm[..|norm|] == norm;
  }

  lemma {:induction false} CumMonotone(norm: seq<nat>, i: nat, j: nat)
    requires i <= j <= |norm|
    ensures Cum(norm, i) <= Cum(norm, j)
    decreases j
  {
    if i < j {
      CumStep(norm, j - 1);
      CumMonotone(norm, i, j - 1);
    }
  }

  lemma {:induction false} SumUpdate(s: seq<nat>, i: nat, v: nat)
    requires i < |s|
    ensures Sum(s[i := v]) == Sum(s) - s[i] + v
  {
    var n := |s| - 1;
    if i == n {
      assert s[i := v][..n] == s[..n];
    } else {
      assert s[i := v][..n] == s[..n][i := v];
      SumUpdate(s[..n], i, v);
    }
  }

  /** The symbol that owns position `k` when symbols are laid out by frequency. */
  function SymAt(norm: seq<nat>, k: nat): (s: nat)
    requires k < Sum(norm)
    ensures s < |norm| && Cum(norm, s) <= k < Cum(norm, s + 1)
  {
    var n := |norm| - 1;
    assert norm[..n + 1] == norm;
    if k >= Sum(norm[..n]) then n
    else
      var s := SymAt(norm[..n], k);
      assert norm[..n][..s] == norm[..s] && norm[..n][..s + 1] == norm[..s + 1];
      s
  }

  lemma SymAtUnique(norm: seq<nat>, k: nat, s: nat)
    requires k < Sum(norm) && s < |norm|
    requires Cum(norm, s) <= k < Cum(norm, s + 1)
    ensures SymAt(norm, k) == s
  {
    var t := SymAt(norm, k);
    if t < s {
      CumMonotone(norm, t + 1, s);
    } else if s < t {
      CumMonotone(norm, s + 1, t);
    }
  }

  //////////////////////////////////////////////////////////////////////////////
  // Symbol spread
  //////////////////////////////////////////////////////////////////////////////

  /** The slot the `k`-th placement lands on, and the placement that lands on slot `x`. */
  function Slot(k: nat): (x: nat)
    ensures x < ANS_L
  {
    k * STEP % ANS_L
  }

  function Placement(x: nat): (k: nat)
    ensures k < ANS_L
  {
    x * STEP_INVERSE % ANS_L
  }

  /** The step is odd, so stepping visits every slot exactly once. */
  lemma SlotBijection(k: nat)
    requires k < ANS_L
    ensures Placement(Slot(k)) == k
    ensures Slot(Placement(k)) == k
  {
    var q := k * STEP / ANS_L;
    assert Slot(k) * STEP_INVERSE == k + (107 * k - q * STEP_INVERSE) * ANS_L;
    ModPlusMultiple(k, ANS_L, 107 * k - q * STEP_INVERSE);
    var p := k * STEP_INVERSE / ANS_L;
    assert Placement(k) * STEP == k + (107 * k - p * STEP) * ANS_L;
    ModPlusMultiple(k, ANS_L, 107 * k - p * STEP);
  }

  lemma SlotStep(k: nat)
    ensures Slot(k + 1) == (Slot(k) + STEP) % ANS_L
    ensures Slot(0) == 0
  {
    ModSum(k * STEP, STEP, ANS_L);
  }

  /** `spread_symbols`: slot `x` holds the symbol of the placement that lands on it. */
  function Spread(norm: seq<nat>): (sp: seq<Byte>)
    requires Normalized(norm)
    ensures |sp| == ANS_L
  {
    seq(ANS_L, x requires 0 <= x < ANS_L => SymAt(norm, Placement(x)))
  }

  /** The spread after the first `k` placements; -1 marks a slot not reached yet. */
  ghost function Placed(norm: seq<nat>, k: nat): (p: seq<int>)
    requires Normalized(norm) && k <= ANS_L
    ensures |p| == ANS_L
  {
    if k == 0 then seq(ANS_L, x requires 0 <= x < ANS_L => -1)
    else Placed(norm, k - 1)[Slot(k - 1) := SymAt(norm, k - 1)]
  }

  lemma {:induction false} PlacedAt(norm: seq<nat>, k: nat, j: nat)
    requires Normalized(norm) && k <= ANS_L && j < ANS_L
    ensures Placed(norm, k)[Slot(j)] == if j < k then SymAt(norm, j) else -1
  {
    hide Sum, SymAt, Slot, Placement;
    if k > 0 {
      PlacedAt(norm, k - 1, j);
      SlotBijection(j);
      SlotBijection(k - 1);
    }
  }

  /** How many of the first `k` positions of the layout belong to symbol `s`. */
  ghost function Owned(norm: seq<nat>, k: nat, s: nat): nat
    requires s < |norm|
  {
    if k <= Cum(norm, s) then 0 else if k <= Cum(norm, s) + norm[s] then k - Cum(norm, s) else norm[s]
  }

  lemma {:induction false} PlacedCount(norm: seq<nat>, k: nat, s: nat)
    requires Normalized(norm) && k <= ANS_L && s < NSYM
    ensures multiset(Placed(norm, k))[s] == Owned(norm, k, s)
  {
    hide Sum, Cum, SymAt, Slot, Placement;
    CumStep(norm, s);
    if k == 0 {
      NothingPlaced(norm, s);
    } else {
      PlacedCount(norm, k - 1, s);
      PlacedAt(norm, k - 1, k - 1);
      var before := Placed(norm, k - 1);
      CountUpdate(before, Slot(k - 1), SymAt(norm, k - 1), s);
      OwnedStep(norm, k - 1, s);
    }
  }

  lemma NothingPlaced(norm: seq<nat>, s: nat)
    requires Normalized(norm)
    ensures multiset(Placed(norm, 0))[s] == 0
  {
    assert s !in Placed(norm, 0);
  }

  lemma OwnedStep(norm: seq<nat>, k: nat, s: nat)
    requires k < Sum(norm) && s < |norm|
    ensures Owned(norm, k + 1, s) == Owned(norm, k, s) + (if SymAt(norm, k) == s then 1 else 0)
  {
    hide Sum, Cum;
    CumStep(norm, s);
    if Cum(norm, s) <= k < Cum(norm, s + 1) {
      SymAtUnique(norm, k, s);
    }
  }

  lemma CountUpdate(p: seq<int>, i: nat, t: int, s: int)
    requires i < |p| && p[i] == -1 && s >= 0
    ensures multiset(p[i := t])[s] == multiset(p)[s] + (if t == s then 1 else 0)
  {
  }

  lemma PlacedAll(norm: seq<nat>)
    requires Normalized(norm)
    ensures Placed(norm, ANS_L) == Spread(norm)
  {
    forall x | 0 <= x < ANS_L
      ensures Placed(norm, ANS_L)[x] == Spread(norm)[x]
    {
      PlacedAt(norm, ANS_L, Placement(x));
      SlotBijection(x);
    }
  }

  /** Each symbol occupies exactly as many slots as its frequency. */
  lemma SpreadCount(norm: seq<nat>, s: nat)
    requires Normalized(norm) && s < NSYM
    ensures multiset(Spread(norm))[s] == norm[s]
  {
    PlacedAll(norm);
    PlacedCount(norm, ANS_L, s);
    CumStep(norm, s);
    CumMonotone(norm, s + 1, NSYM);
    CumStep(norm, 0);
  }

  /** The number of slots below `x` that hold symbol `s`. */
  ghost function Count(sp: seq<Byte>, x: nat, s: nat): nat
    requires x <= |sp|
  {
    multiset(sp[..x])[s]
  }

  lemma CountStep(sp: seq<Byte>, x: nat, s: nat)
    requires x < |sp|
    ensures Count(sp, x + 1, s) == Count(sp, x, s) + (if sp[x] == s then 1 else 0)
    ensures Count(sp, 0, s) == 0
    ensures Count(sp, |sp|, s) == multiset(sp)[s]
  {
    assert sp[..x + 1] == sp[..x] + [sp[x]];
    assert sp[..|sp|] == sp;
  }

  lemma {:induction false} CountMonotone(sp: seq<Byte>, x: nat, y: nat, s: nat)
    requires x <= y <= |sp|
    ensures Count(sp, x, s) <= Count(sp, y, s)
    decreases y
  {
    if x < y {
      CountStep(sp, y - 1, s);
      CountMonotone(sp, x, y - 1, s);
    }
  }

  /** The slot of the `k`-th occurrence of symbol `s`. */
  ghost function Occurrence(sp: seq<Byte>, s: nat, k: nat): (x: nat)
    requires k < multiset(sp)[s]
    ensures x < |sp| && sp[x] == s && Count(sp, x, s) == k
  {
    var n := |sp| - 1;
    CountStep(sp, n, s);
    if Count(sp, n, s) <= k then n
    else
      var x := Occurrence(sp[..n], s, k);
      assert sp[..n][..x] == sp[..x];
      x
  }

  lemma OccurrenceUnique(sp: seq<Byte>, s: nat, x: nat)
    requires x < |sp| && sp[x] == s
    ensures Count(sp, x, s) < multiset(sp)[s]
    ensures Occurrence(sp, s, Count(sp, x, s)) == x
  {
    hide Count, Occurrence;
    CountStep(sp, x, s);
    CountMonotone(sp, x + 1, |sp|, s);
    CountStep(sp, |sp| - 1, s);
    var y := Occurrence(sp, s, Count(sp, x, s));
    CountStep(sp, y, s);
    if y < x {
      CountMonotone(sp, y + 1, x, s);
    } else if x < y {
      CountMonotone(sp, x + 1, y, s);
    }
  }

  //////////////////////////////////////////////////////////////////////////////
  // Decode windows
  //////////////////////////////////////////////////////////////////////////////

  function Ilog2(v: nat): (r: nat)
    requires v > 0
    ensures Pow2(r) <= v < Pow2(r + 1)
  {
    if v == 1 then 0 else 1 + Ilog2(v / 2)
  }

  lemma Ilog2Bound(v: nat, n: nat)
    requires 0 < v < Pow2(n)
    ensures Ilog2(v) < n
  {
    if Ilog2(v) >= n {
      Pow2Monotone(n, Ilog2(v));
    }
  }

  predicate Splittable(f: nat) {
    0 < f < ANS_L
  }

  /** `nb_max`: the wider of the two window widths of a symbol of frequency `f`. */
  function NbMax(f: nat): (nb: nat)
    requires Splittable(f)
    ensures 1 <= nb <= ANS_LOG
  {
    Pow2Small();
    Ilog2Bound(f, 12);
    ANS_LOG - Ilog2(f)
  }

  /** `low_count`: how many occurrences carry the wider window. */
  function LowCount(f: nat): (n: nat)
    requires Splittable(f)
  {
    Pow2(Ilog2(f) + 1) - f
  }

  function WindowBits(f: nat, k: nat): (nb: nat)
    ensures nb <= ANS_LOG
  {
    if !Splittable(f) then 0 else if k < LowCount(f) then NbMax(f) else NbMax(f) - 1
  }

  function WindowBase(f: nat, k: nat): nat {
    if !Splittable(f) then 0
    else if k < LowCount(f) then Times(k, Pow2(NbMax(f)))
    else Times(LowCount(f), Pow2(NbMax(f))) + Times(k - LowCount(f), Pow2(NbMax(f) - 1))
  }

  function Times(a: nat, b: nat): nat {
    a * b
  }

  /** The occurrence whose window holds state `x`, computed as `enc_sym` does. */
  function WindowIndex(f: nat, x: nat): nat
    requires Splittable(f)
  {
    var threshold := Times(LowCount(f), Pow2(NbMax(f)));
    if x < threshold then Quotient(x, Pow2(NbMax(f))) else LowCount(f) + Quotient(x - threshold, Pow2(NbMax(f) - 1))
  }

  function Quotient(a: nat, b: nat): nat
    requires b > 0
  {
    DigitBound(a, b, a + 1);
    a / b
  }

  /** With q the narrow width and p the power of two at or below f: p * q is half the table. */
  lemma WindowShape(f: nat) returns (p: nat, q: nat)
    requires Splittable(f)
    ensures p <= f < 2 * p && q >= 1 && p * q == ANS_L / 2
    ensures LowCount(f) == 2 * p - f && Pow2(NbMax(f)) == 2 * q && Pow2(NbMax(f) - 1) == q
  {
    p, q := Pow2(Ilog2(f)), Pow2(NbMax(f) - 1);
    Pow2Small();
    Pow2Add(Ilog2(f), NbMax(f) - 1);
  }

  /** Window k starts at k·2q while wide and at (k + low)·q once narrow. */
  lemma WindowBaseForm(f: nat, k: nat, p: nat, q: nat)
    requires Splittable(f)
    requires p <= f < 2 * p && q >= 1 && p * q == ANS_L / 2
    requires LowCount(f) == 2 * p - f && Pow2(NbMax(f)) == 2 * q && Pow2(NbMax(f) - 1) == q
    ensures k < LowCount(f) ==> WindowBase(f, k) == (2 * k) * q && Pow2(WindowBits(f, k)) == 2 * q
    ensures k >= LowCount(f) ==> WindowBase(f, k) == (k + LowCount(f)) * q && Pow2(WindowBits(f, k)) == q
    ensures LowCount(f) * Pow2(NbMax(f)) == (2 * LowCount(f)) * q
  {
    var low := LowCount(f);
    MulAssociative(k, 2, q);
    MulAssociative(low, 2, q);
    if k >= low {
      Distribute(2 * low, k - low, q);
    }
  }

  lemma Distribute(a: int, b: int, q: int)
    ensures (a + b) * q == a * q + b * q
  {
  }

  /** The windows of a symbol tile the state space: the computed window holds the state. */
  lemma WindowHolds(f: nat, x: nat)
    requires Splittable(f) && x < ANS_L
    ensures var k := WindowIndex(f, x);
            k < f && WindowBase(f, k) <= x < WindowBase(f, k) + Pow2(WindowBits(f, k))
  {
    hide WindowBase, WindowBits, LowCount, NbMax, Pow2;
    var p, q := WindowShape(f);
    var k := WindowIndex(f, x);
    var low := LowCount(f);
    WindowBaseForm(f, k, p, q);
    if x < (2 * low) * q {
      WideIndex(x, low, q);
    } else {
      NarrowIndex(x, f, p, low, q);
    }
  }

  lemma WideIndex(x: nat, low: nat, q: nat)
    requires q >= 1 && x < (2 * low) * q
    ensures var k := x / (2 * q); 0 <= k < low && (2 * k) * q <= x < (2 * k) * q + 2 * q
  {
    MulAssociative(low, 2, q);
    DigitBound(x, 2 * q, low);
    MulAssociative(x / (2 * q), 2, q);
  }

  lemma NarrowIndex(x: nat, f: nat, p: nat, low: nat, q: nat)
    requires q >= 1 && p * q == ANS_L / 2 && low == 2 * p - f && low <= f
    requires (2 * low) * q <= x < ANS_L
    ensures var k := low + (x - (2 * low) * q) / q; low <= k < f && (k + low) * q <= x < (k + low) * q + q
  {
    var r := x - (2 * low) * q;
    MulAssociative(2, p, q);
    Distribute(2 * p, -(2 * low), q);
    DigitBound(r, q, f - low);
    Distribute(2 * low, r / q, q);
  }

  lemma WindowOrder(f: nat, j: nat, k: nat)
    requires Splittable(f) && j < k
    ensures WindowBase(f, j) + Pow2(WindowBits(f, j)) <= WindowBase(f, k)
  {
    hide WindowBase, WindowBits, LowCount, NbMax, Pow2;
    var p, q := WindowShape(f);
    var low := LowCount(f);
    WindowBaseForm(f, j, p, q);
    WindowBaseForm(f, k, p, q);
    if k < low {
      MulMono(2 * j + 2, 2 * k, q);
      Distribute(2 * j, 2, q);
    } else if j < low {
      MulMono(2 * j + 2, k + low, q);
      Distribute(2 * j, 2, q);
    } else {
      MulMono(j + low + 1, k + low, q);
      Distribute(j + low, 1, q);
    }
  }

  /** Exactly one window of a symbol holds a given state. */
  lemma WindowUnique(f: nat, x: nat, k: nat)
    requires Splittable(f) && x < ANS_L
    requires WindowBase(f, k) <= x < WindowBase(f, k) + Pow2(WindowBits(f, k))
    ensures k == WindowIndex(f, x)
  {
    hide WindowBase, WindowBits, WindowIndex;
    var j := WindowIndex(f, x);
    WindowHolds(f, x);
    if j < k {
      WindowOrder(f, j, k);
    } else if k < j {
      WindowOrder(f, k, j);
    }
  }

  /** No window reaches past the state space. */
  lemma WindowInside(f: nat, k: nat)
    requires Splittable(f) && k < f
    ensures WindowBase(f, k) + Pow2(WindowBits(f, k)) <= ANS_L
  {
    hide WindowBase, WindowBits, LowCount, NbMax, Pow2;
    var p, q := WindowShape(f);
    WindowBaseForm(f, k, p, q);
    var low := LowCount(f);
    MulAssociative(2, p, q);
    if k < low {
      MulMono(2 * k + 2, 2 * p, q);
      Distribute(2 * k, 2, q);
    } else {
      MulMono(k + low + 1, 2 * p, q);
      Distribute(k + low, 1, q);
    }
  }

  //////////////////////////////////////////////////////////////////////////////
  // Decode table and encode step
  //////////////////////////////////////////////////////////////////////////////

  /** `vva_dec_entry_t`. */
  datatype Entry = Entry(symbol: Byte, nbits: nat, baseline: nat)

  ghost function DecEntry(norm: seq<nat>, sp: seq<Byte>, x: nat): Entry
    requires |norm| == NSYM && x < |sp|
  {
    var f, k := norm[sp[x]], Count(sp, x, sp[x]);
    Entry(sp[x], WindowBits(f, k), WindowBase(f, k))
  }

  /** The decode table of a frequency vector. */
  ghost function DecTable(norm: seq<nat>): (dec: seq<Entry>)
    requires Normalized(norm)
    ensures |dec| == ANS_L
  {
    var sp := Spread(norm);
    seq(ANS_L, x requires 0 <= x < ANS_L => DecEntry(norm, sp, x))
  }

  /** What one encode step yields: the next state and the bits to emit. */
  datatype Emit = Emit(slot: nat, value: nat, nbits: nat)

  /** A state the encoder can be in: a table of one symbol never leaves state 0. */
  ghost predicate ValidState(norm: seq<nat>, state: nat) {
    state < ANS_L && (ANS_L in norm ==> state == 0)
  }

  lemma {:induction false} SumAtLeast(s: seq<nat>, i: nat, j: nat)
    requires i < j < |s|
    ensures Sum(s) >= s[i] + s[j]
  {
    CumStep(s, i);
    CumStep(s, j);
    CumMonotone(s, i + 1, j);
    CumMonotone(s, j + 1, |s|);
  }

  lemma NormBound(norm: seq<nat>, s: nat)
    requires Normalized(norm) && s < NSYM
    ensures norm[s] <= ANS_L
    ensures 0 < norm[s] < ANS_L ==> ANS_L !in norm
  {
    CumStep(norm, s);
    CumMonotone(norm, s + 1, NSYM);
    CumStep(norm, 0);
    if 0 < norm[s] < ANS_L && ANS_L in norm {
      var i :| 0 <= i < NSYM && norm[i] == ANS_L;
      SumAtLeast(norm, if i < s then i else s, if i < s then s else i);
    }
  }

  /** `enc_sym`: emit the state's offset in its window and move to the occurrence's slot. */
  ghost function EncStep(norm: seq<nat>, state: nat, s: nat): (e: Emit)
    requires Normalized(norm) && s < NSYM && norm[s] > 0 && ValidState(norm, state)
  {
    var f := norm[s];
    if f == ANS_L then Emit(0, 0, 0)
    else
      NormBound(norm, s);
      WindowHolds(f, state);
      SpreadCount(norm, s);
      var k := WindowIndex(f, state);
      Emit(Occurrence(Spread(norm), s, k), state - WindowBase(f, k), WindowBits(f, k))
  }

  /** A frequent symbol costs few bits: at most `w` from a frequency of 2^(12 - w) on. */
  lemma NarrowStep(norm: seq<nat>, state: nat, s: nat, w: nat)
    requires Normalized(norm) && s < NSYM && norm[s] > 0 && ValidState(norm, state)
    requires w <= ANS_LOG && norm[s] >= Pow2(ANS_LOG - w)
    ensures EncStep(norm, state, s).nbits <= w
  {
    hide Spread, Occurrence, WindowIndex, WindowBase, Sum;
    var f := norm[s];
    if f != ANS_L {
      NormBound(norm, s);
      if Ilog2(f) < ANS_LOG - w {
        Pow2Monotone(Ilog2(f) + 1, ANS_LOG - w);
      }
    }
  }

  /** A table of one symbol has that symbol in every slot. */
  lemma SingleSymbol(norm: seq<nat>, s: nat, x: nat)
    requires Normalized(norm) && s < NSYM && norm[s] == ANS_L && x < ANS_L
    ensures Spread(norm)[x] == s
  {
    var k := Placement(x);
    CumStep(norm, s);
    CumMonotone(norm, s + 1, NSYM);
    CumStep(norm, 0);
    SymAtUnique(norm, k, s);
  }

  /** A decoder step undoes an encoder step: the table entry at the new state names the symbol,
      asks for exactly the emitted bits, and leads back to the old state. */
  lemma StepInverse(norm: seq<nat>, state: nat, s: nat)
    requires Normalized(norm) && s < NSYM && norm[s] > 0 && ValidState(norm, state)
    ensures var e := EncStep(norm, state, s);
            && ValidState(norm, e.slot)
            && e.nbits <= ANS_LOG && e.value < Pow2(e.nbits)
            && DecTable(norm)[e.slot] == Entry(s, e.nbits, state - e.value)
            && e.value <= state
  {
    hide WindowBase, WindowBits, WindowIndex, SymAt, Placement;
    var f := norm[s];
    var sp := Spread(norm);
    NormBound(norm, s);
    if f == ANS_L {
      SingleSymbol(norm, s, 0);
      assert DecEntry(norm, sp, 0) == Entry(s, WindowBits(f, 0), WindowBase(f, 0));
      OneWindow();
    } else {
      WindowHolds(f, state);
      SpreadCount(norm, s);
      assert DecTable(norm)[EncStep(norm, state, s).slot] == DecEntry(norm, sp, EncStep(norm, state, s).slot);
    }
  }

  lemma OneWindow()
    ensures forall k: nat {:trigger WindowBits(ANS_L, k)} :: WindowBits(ANS_L, k) == 0 && WindowBase(ANS_L, k) == 0
  {
  }
}
