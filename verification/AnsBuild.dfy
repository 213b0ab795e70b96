/** The table builders of src/vv_ans.c, proved to fill the tables of AnsTables. */
module AnsBuild {
  import opened Arith
  import opened AnsTables
  import opened Bits
  import opened Bytes

  /** `ilog2`. */
  method Log2(v: nat) returns (r: nat)
    requires v > 0
    ensures r == Ilog2(v)
  {
    r := 0;
    var w := v / 2;
    while w > 0
      invariant Ilog2(v) == r + (if w > 0 then 1 + Ilog2(w) else 0)
    {
      w := w / 2;
      r := r + 1;
    }
  }

  /** `sp` agrees with the placements made so far. */
  ghost predicate Agrees(sp: seq<int>, placed: seq<int>) {
    |sp| == |placed| && forall x :: 0 <= x < |sp| && placed[x] != -1 ==> sp[x] == placed[x]
  }

  lemma NextPlacement(norm: seq<nat>, s: nat, i: nat)
    requires Normalized(norm) && s < NSYM && i < norm[s]
    ensures Cum(norm, s) + i < ANS_L && SymAt(norm, Cum(norm, s) + i) == s
  {
    CumStep(norm, s);
    CumStep(norm, 0);
    CumMonotone(norm, s + 1, NSYM);
    SymAtUnique(norm, Cum(norm, s) + i, s);
  }

  lemma AgreesAll(norm: seq<nat>, sp: seq<int>)
    requires Normalized(norm) && Agrees(sp, Placed(norm, ANS_L))
    ensures sp == Spread(norm)
  {
    PlacedAll(norm);
  }

  lemma AgreesNone(norm: seq<nat>, sp: seq<int>)
    requires Normalized(norm) && |sp| == ANS_L
    ensures Agrees(sp, Placed(norm, 0))
  {
  }

  lemma AgreesPlace(norm: seq<nat>, sp: seq<int>, k: nat, s: nat)
    requires Normalized(norm) && k < ANS_L && SymAt(norm, k) == s
    requires Agrees(sp, Placed(norm, k))
    ensures Agrees(sp[Slot(k) := s], Placed(norm, k + 1))
  {
  }

  /** `spread_symbols`. */
  method SpreadSymbols(norm: seq<nat>, sp: array<Byte>)
    requires Normalized(norm) && sp.Length == ANS_L
    modifies sp
    ensures sp[..] == Spread(norm)
  {
    hide Cum, Sum, SymAt, Slot, Placed, Spread, Agrees;
    var pos := 0;
    SlotStep(0);
    CumStep(norm, 0);
    AgreesNone(norm, sp[..]);
    for s := 0 to NSYM
      invariant Cum(norm, s) <= ANS_L && pos == Slot(Cum(norm, s))
      invariant Agrees(sp[..], Placed(norm, Cum(norm, s)))
    {
      CumStep(norm, s);
      CumMonotone(norm, s + 1, NSYM);
      for i := 0 to norm[s]
        invariant pos == Slot(Cum(norm, s) + i)
        invariant Agrees(sp[..], Placed(norm, Cum(norm, s) + i))
      {
        NextPlacement(norm, s, i);
        AgreesPlace(norm, sp[..], Cum(norm, s) + i, s);
        sp[pos] := s;
        SlotStep(Cum(norm, s) + i);
        pos := (pos + STEP) % ANS_L;
      }
    }
    AgreesAll(norm, sp[..]);
  }

  //////////////////////////////////////////////////////////////////////////////
  // Decode table
  //////////////////////////////////////////////////////////////////////////////

  /** The hoisted per-symbol values: zero for symbols that need no bits. */
  function NbTab(f: nat): nat {
    if Splittable(f) then NbMax(f) else 0
  }

  function LowTab(f: nat): nat {
    if Splittable(f) then LowCount(f) else 0
  }

  method SymbolWidths(norm: seq<nat>) returns (nbmax: array<nat>, lowcnt: array<nat>)
    requires Normalized(norm)
    ensures fresh(nbmax) && fresh(lowcnt) && nbmax != lowcnt && nbmax.Length == lowcnt.Length == NSYM
    ensures forall s :: 0 <= s < NSYM ==> nbmax[s] == NbTab(norm[s]) && lowcnt[s] == LowTab(norm[s])
  {
    nbmax := new nat[NSYM](_ => 0);
    lowcnt := new nat[NSYM](_ => 0);
    for s := 0 to NSYM
      invariant forall t :: 0 <= t < s ==> nbmax[t] == NbTab(norm[t]) && lowcnt[t] == LowTab(norm[t])
    {
      var f := norm[s];
      NormBound(norm, s);
      if f == 0 || f == ANS_L {
        nbmax[s], lowcnt[s] := 0, 0;
      } else {
        var flg := Log2(f);
        assert NbMax(f) == ANS_LOG - flg;
        nbmax[s] := ANS_LOG - flg;
        lowcnt[s] := Pow2(flg + 1) - f;
      }
    }
  }

  /** The table entry of occurrence `k`, from the hoisted values. */
  function MakeEntry(s: Byte, k: nat, nb: nat, low: nat): Entry {
    if nb == 0 then Entry(s, 0, 0)
    else if k < low then Entry(s, nb, Times(k, Pow2(nb)))
    else Entry(s, nb - 1, Times(low, Pow2(nb)) + Times(k - low, Pow2(nb - 1)))
  }

  lemma MakeEntryCorrect(norm: seq<nat>, x: nat)
    requires Normalized(norm) && x < ANS_L
    ensures var sp := Spread(norm);
            var s := sp[x];
            MakeEntry(s, Count(sp, x, s), NbTab(norm[s]), LowTab(norm[s])) == DecTable(norm)[x]
  {
    hide Spread, Count, LowCount;
    var sp := Spread(norm);
    assert DecTable(norm)[x] == DecEntry(norm, sp, x);
  }

  /** `build_dec`: fills the table from the spread. */
  method BuildDec(norm: seq<nat>, sp: seq<Byte>, dec: array<Entry>)
    requires Normalized(norm) && sp == Spread(norm) && dec.Length == ANS_L
    modifies dec
    ensures dec[..] == DecTable(norm)
  {
    hide Spread, Count, DecTable, NbTab, LowTab;
    var nbmax, lowcnt := SymbolWidths(norm);
    var occ := new nat[NSYM](_ => 0);
    CountStart(sp);
    for x := 0 to ANS_L
      invariant forall s :: 0 <= s < NSYM ==> occ[s] == Count(sp, x, s)
      invariant forall s :: 0 <= s < NSYM ==> nbmax[s] == NbTab(norm[s]) && lowcnt[s] == LowTab(norm[s])
      invariant forall y :: 0 <= y < x ==> dec[y] == DecTable(norm)[y]
    {
      var s := sp[x];
      var k := occ[s];
      CountAdvance(sp, x);
      occ[s] := occ[s] + 1;
      MakeEntryCorrect(norm, x);
      dec[x] := MakeEntry(s, k, nbmax[s], lowcnt[s]);
    }
  }

  lemma CountStart(sp: seq<Byte>)
    requires |sp| > 0
    ensures forall s :: 0 <= s < NSYM ==> Count(sp, 0, s) == 0
  {
  }

  lemma CountAdvance(sp: seq<Byte>, x: nat)
    requires x < |sp|
    ensures forall s :: 0 <= s < NSYM ==> Count(sp, x + 1, s) == Count(sp, x, s) + (if sp[x] == s then 1 else 0)
  {
    forall s | 0 <= s < NSYM
      ensures Count(sp, x + 1, s) == Count(sp, x, s) + (if sp[x] == s then 1 else 0)
    {
      CountStep(sp, x, s);
    }
  }

  ghost function Symbols(dec: seq<Entry>): (r: seq<int>)
    ensures |r| == |dec|
  {
    seq(|dec|, x requires 0 <= x < |dec| => dec[x].symbol)
  }

  /** `build_dec_direct`: spreads into the table itself, then completes it in state order. */
  method BuildDecDirect(norm: seq<nat>, dec: array<Entry>)
    requires Normalized(norm) && dec.Length == ANS_L
    modifies dec
    ensures dec[..] == DecTable(norm)
  {
    hide Cum, Sum, SymAt, Slot, Placed, Spread, Agrees, Count, DecTable, NbTab, LowTab;
    var nbmax, lowcnt := SymbolWidths(norm);
    var pos := 0;
    SlotStep(0);
    CumStep(norm, 0);
    AgreesNone(norm, Symbols(dec[..]));
    for s := 0 to NSYM
      invariant Cum(norm, s) <= ANS_L && pos == Slot(Cum(norm, s))
      invariant Agrees(Symbols(dec[..]), Placed(norm, Cum(norm, s)))
      invariant forall t :: 0 <= t < NSYM ==> nbmax[t] == NbTab(norm[t]) && lowcnt[t] == LowTab(norm[t])
    {
      CumStep(norm, s);
      CumMonotone(norm, s + 1, NSYM);
      for i := 0 to norm[s]
        invariant pos == Slot(Cum(norm, s) + i)
        invariant Agrees(Symbols(dec[..]), Placed(norm, Cum(norm, s) + i))
        invariant forall t :: 0 <= t < NSYM ==> nbmax[t] == NbTab(norm[t]) && lowcnt[t] == LowTab(norm[t])
      {
        NextPlacement(norm, s, i);
        AgreesPlace(norm, Symbols(dec[..]), Cum(norm, s) + i, s);
        SymbolsUpdate(dec[..], pos, dec[pos].(symbol := s));
        dec[pos] := dec[pos].(symbol := s);
        SlotStep(Cum(norm, s) + i);
        pos := (pos + STEP) % ANS_L;
      }
    }
    AgreesAll(norm, Symbols(dec[..]));
    CompleteEntries(norm, dec, nbmax, lowcnt);
  }

  lemma SymbolsUpdate(dec: seq<Entry>, i: nat, e: Entry)
    requires i < |dec|
    ensures Symbols(dec[i := e]) == Symbols(dec)[i := e.symbol]
  {
  }

  /** The second pass: symbols are in place, widths and baselines are filled in. */
  method CompleteEntries(norm: seq<nat>, dec: array<Entry>, nbmax: array<nat>, lowcnt: array<nat>)
    requires Normalized(norm) && dec.Length == ANS_L && Symbols(dec[..]) == Spread(norm)
    requires nbmax.Length == lowcnt.Length == NSYM
    requires forall s :: 0 <= s < NSYM ==> nbmax[s] == NbTab(norm[s]) && lowcnt[s] == LowTab(norm[s])
    modifies dec
    ensures dec[..] == DecTable(norm)
  {
    hide Spread, Count, DecTable, NbTab, LowTab;
    ghost var sp := Spread(norm);
    var occ := new nat[NSYM](_ => 0);
    CountStart(sp);
    assert forall y :: 0 <= y < ANS_L ==> dec[y].symbol == Symbols(dec[..])[y];
    for x := 0 to ANS_L
      invariant forall s :: 0 <= s < NSYM ==> occ[s] == Count(sp, x, s)
      invariant forall s :: 0 <= s < NSYM ==> nbmax[s] == NbTab(norm[s]) && lowcnt[s] == LowTab(norm[s])
      invariant forall y :: x <= y < ANS_L ==> dec[y].symbol == sp[y]
      invariant forall y :: 0 <= y < x ==> dec[y] == DecTable(norm)[y]
    {
      var s := dec[x].symbol;
      var k := occ[s];
      CountAdvance(sp, x);
      occ[s] := occ[s] + 1;
      MakeEntryCorrect(norm, x);
      dec[x] := MakeEntry(s, k, nbmax[s], lowcnt[s]);
    }
  }

  //////////////////////////////////////////////////////////////////////////////
  // Encode table
  //////////////////////////////////////////////////////////////////////////////

  /** `enc_occ_t`. */
  datatype EncOcc = EncOcc(bl: nat, nb: nat, slot: nat)

  ghost function EncEntry(norm: seq<nat>, i: nat): EncOcc
    requires Normalized(norm) && i < ANS_L
  {
    var s := SymAt(norm, i);
    var k := i - Cum(norm, s);
    SpreadCount(norm, s);
    CumStep(norm, s);
    EncOcc(WindowBase(norm[s], k), WindowBits(norm[s], k), Occurrence(Spread(norm), s, k))
  }

  /** The encode table: the occurrences of each symbol in turn, with their slots. */
  ghost function EncTable(norm: seq<nat>): (o: seq<EncOcc>)
    requires Normalized(norm)
    ensures |o| == ANS_L
  {
    seq(ANS_L, i requires 0 <= i < ANS_L => EncEntry(norm, i))
  }

  /** The index `build_enc` files slot `x` under. */
  ghost function EncIndex(norm: seq<nat>, x: nat): (i: nat)
    requires Normalized(norm) && x < ANS_L
    ensures i < ANS_L
  {
    var sp := Spread(norm);
    OccurrenceUnique(sp, sp[x], x);
    SpreadCount(norm, sp[x]);
    NextPlacement(norm, sp[x], Count(sp, x, sp[x]));
    Cum(norm, sp[x]) + Count(sp, x, sp[x])
  }

  /** Filing by symbol and rank is the inverse of looking up the occurrence. */
  lemma EncIndexEntry(norm: seq<nat>, x: nat)
    requires Normalized(norm) && x < ANS_L
    ensures EncTable(norm)[EncIndex(norm, x)] ==
            EncOcc(DecTable(norm)[x].baseline, DecTable(norm)[x].nbits, x)
  {
    hide Spread, Count, SymAt, Cum, WindowBase, WindowBits, Occurrence;
    var sp := Spread(norm);
    var s := sp[x];
    OccurrenceUnique(sp, s, x);
    SpreadCount(norm, s);
    NextPlacement(norm, s, Count(sp, x, s));
    var i := EncIndex(norm, x);
    assert EncTable(norm)[i] == EncEntry(norm, i);
    assert DecTable(norm)[x] == DecEntry(norm, sp, x);
  }

  lemma EncIndexOnto(norm: seq<nat>, i: nat)
    requires Normalized(norm) && i < ANS_L
    ensures var x := EncEntry(norm, i).slot; x < ANS_L && EncIndex(norm, x) == i
  {
    hide Spread, Count, SymAt, WindowBase, WindowBits;
    var s := SymAt(norm, i);
    SpreadCount(norm, s);
    CumStep(norm, s);
  }

  lemma EncIndexInjective(norm: seq<nat>, x: nat, y: nat)
    requires Normalized(norm) && x < ANS_L && y < ANS_L && EncIndex(norm, x) == EncIndex(norm, y)
    ensures x == y
  {
    hide EncIndex, EncTable, DecTable;
    EncIndexEntry(norm, x);
    EncIndexEntry(norm, y);
  }

  /** Baselines never decrease along a symbol's run, so the sort has nothing to move. */
  lemma RunAscends(norm: seq<nat>, s: nat, i: nat)
    requires Normalized(norm) && s < NSYM
    requires Cum(norm, s) < i < Cum(norm, s) + norm[s]
    ensures i < ANS_L && EncTable(norm)[i - 1].bl <= EncTable(norm)[i].bl
  {
    hide Spread, SymAt, WindowBase, WindowBits, Occurrence, Sum, Cum;
    var k := i - Cum(norm, s);
    NextPlacement(norm, s, k);
    NextPlacement(norm, s, k - 1);
    assert EncTable(norm)[i] == EncEntry(norm, i) && EncTable(norm)[i - 1] == EncEntry(norm, i - 1);
    NormBound(norm, s);
    if norm[s] < ANS_L {
      WindowOrder(norm[s], k - 1, k);
    } else {
      OneWindow();
    }
  }

  /** `build_enc`: files every slot under its symbol, then sorts each symbol's run by baseline. */
  method BuildEnc(norm: seq<nat>, sp: seq<Byte>, dec: seq<Entry>) returns (o: array<EncOcc>, cum: array<nat>)
    requires Normalized(norm) && sp == Spread(norm) && dec == DecTable(norm)
    ensures fresh(o) && fresh(cum) && o.Length == ANS_L && cum.Length == NSYM + 1
    ensures o[..] == EncTable(norm)
    ensures forall s :: 0 <= s <= NSYM ==> cum[s] == Cum(norm, s)
  {
    hide Spread, Count, SymAt, EncTable, DecTable, Cum, Sum;
    cum := new nat[NSYM + 1](_ => 0);
    CumStep(norm, 0);
    for i := 0 to NSYM
      invariant forall s :: 0 <= s <= i ==> cum[s] == Cum(norm, s)
    {
      CumStep(norm, i);
      cum[i + 1] := cum[i] + norm[i];
    }
    o := new EncOcc[ANS_L](_ => EncOcc(0, 0, 0));
    FileSlots(norm, sp, dec, o, cum);
    SortRuns(norm, o, cum);
  }

  method FileSlots(norm: seq<nat>, sp: seq<Byte>, dec: seq<Entry>, o: array<EncOcc>, cum: array<nat>)
    requires Normalized(norm) && sp == Spread(norm) && dec == DecTable(norm)
    requires o.Length == ANS_L && cum.Length == NSYM + 1
    requires forall s :: 0 <= s <= NSYM ==> cum[s] == Cum(norm, s)
    modifies o
    ensures o[..] == EncTable(norm)
  {
    hide Spread, Count, SymAt, EncTable, DecTable, Cum, Sum;
    var oi := new nat[NSYM](_ => 0);
    CountStart(sp);
    for x := 0 to ANS_L
      invariant forall s :: 0 <= s < NSYM ==> oi[s] == Count(sp, x, s)
      invariant forall s :: 0 <= s <= NSYM ==> cum[s] == Cum(norm, s)
      invariant forall y :: 0 <= y < x ==> o[EncIndex(norm, y)] == EncTable(norm)[EncIndex(norm, y)]
    {
      var s := sp[x];
      var idx := cum[s] + oi[s];
      assert idx == EncIndex(norm, x);
      CountAdvance(sp, x);
      oi[s] := oi[s] + 1;
      EncIndexEntry(norm, x);
      DistinctIndices(norm, x);
      o[idx] := EncOcc(dec[x].baseline, dec[x].nbits, x);
    }
    forall i | 0 <= i < ANS_L
      ensures o[i] == EncTable(norm)[i]
    {
      EncIndexOnto(norm, i);
    }
  }

  lemma DistinctIndices(norm: seq<nat>, x: nat)
    requires Normalized(norm) && x < ANS_L
    ensures forall y :: 0 <= y < x ==> EncIndex(norm, y) != EncIndex(norm, x)
  {
    forall y | 0 <= y < x
      ensures EncIndex(norm, y) != EncIndex(norm, x)
    {
      if EncIndex(norm, y) == EncIndex(norm, x) {
        EncIndexInjective(norm, x, y);
      }
    }
  }

  /** The insertion sort over each symbol's run. */
  method SortRuns(ghost norm: seq<nat>, o: array<EncOcc>, cum: array<nat>)
    requires Normalized(norm) && o.Length == ANS_L && cum.Length == NSYM + 1
    requires forall s :: 0 <= s <= NSYM ==> cum[s] == Cum(norm, s)
    requires o[..] == EncTable(norm)
    modifies o
    ensures o[..] == EncTable(norm)
  {
    hide EncTable, Cum, Sum;
    for s := 0 to NSYM
      invariant o[..] == EncTable(norm)
    {
      CumStep(norm, s);
      CumMonotone(norm, s + 1, NSYM);
      var st, cnt := cum[s], cum[s + 1] - cum[s];
      var i := st + 1;
      while i < st + cnt
        invariant st + 1 <= i
        invariant o[..] == EncTable(norm)
      {
        var tmp := o[i];
        var j := i - 1;
        while j >= st && o[j].bl > tmp.bl
          invariant st - 1 <= j <= i - 1
          invariant j == i - 1 ==> o[..] == EncTable(norm)
          invariant j < i - 1 ==> EncTable(norm)[i - 1].bl > tmp.bl
        {
          o[j + 1] := o[j];
          j := j - 1;
        }
        RunAscends(norm, s, i);
        o[j + 1] := tmp;
        i := i + 1;
      }
    }
  }

  /** The window of a symbol of frequency `cnt` that holds `state`, and its width. */
  method FindWindow(cnt: nat, state: nat) returns (k: nat, bn: nat)
    requires Splittable(cnt) && state < ANS_L
    ensures k == WindowIndex(cnt, state) && bn == WindowBits(cnt, k)
  {
    hide Pow2;
    var flg := Log2(cnt);
    var nbMax := ANS_LOG - flg;
    assert nbMax == NbMax(cnt);
    var lowCount := Pow2(flg + 1) - cnt;
    var threshold := Times(lowCount, Pow2(nbMax));
    if state < threshold {
      bn := nbMax;
      k := Quotient(state, Pow2(nbMax));
    } else {
      bn := nbMax - 1;
      k := lowCount + Quotient(state - threshold, Pow2(nbMax - 1));
    }
    IndexWidth(cnt, state);
  }

  lemma OneSymbolStep(norm: seq<nat>, state: nat, s: nat)
    requires Normalized(norm) && ValidState(norm, state) && s < NSYM && norm[s] == ANS_L
    ensures EncStep(norm, state, s) == Emit(0, 0, 0)
  {
  }

  /** `enc_sym`: the constant-time slot lookup is the encode step of AnsTables. A symbol absent
      from the table yields slot -1. */
  method EncSym(ghost norm: seq<nat>, o: array<EncOcc>, cum: array<nat>, state: nat, sym: Byte)
    returns (slot: int, bv: nat, bn: nat)
    requires Normalized(norm) && ValidState(norm, state)
    requires o.Length == ANS_L && cum.Length == NSYM + 1 && o[..] == EncTable(norm)
    requires forall s :: 0 <= s <= NSYM ==> cum[s] == Cum(norm, s)
    ensures norm[sym] == 0 ==> slot == -1
    ensures norm[sym] > 0 ==> slot >= 0 && Emit(slot, bv, bn) == EncStep(norm, state, sym)
  {
    hide Sum, EncTable, EncStep, WindowBits, WindowIndex;
    CumStep(norm, sym);
    var base := cum[sym];
    var cnt := cum[sym + 1] - base;
    if cnt == 0 {
      return -1, 0, 0;
    }
    if cnt == ANS_L {
      OneSymbolStep(norm, state, sym);
      return 0, 0, 0;
    }
    NormBound(norm, sym);
    var k;
    k, bn := FindWindow(cnt, state);
    FoundEntry(norm, state, sym, base);
    var e := o[base + k];
    assert e == EncTable(norm)[base + k];
    bv := state - e.bl;
    slot := e.slot;
  }

  /** The entry at the computed index carries the encode step's slot and baseline. */
  lemma FoundEntry(norm: seq<nat>, state: nat, sym: nat, base: nat)
    requires Normalized(norm) && ValidState(norm, state) && sym < NSYM && Splittable(norm[sym])
    requires base == Cum(norm, sym)
    ensures var k := WindowIndex(norm[sym], state);
            && base + k < ANS_L && EncTable(norm)[base + k].bl <= state
            && EncStep(norm, state, sym) ==
               Emit(EncTable(norm)[base + k].slot, state - EncTable(norm)[base + k].bl, WindowBits(norm[sym], k))
  {
    hide Spread, SymAt, Sum, WindowBase, WindowBits, WindowIndex, Cum;
    var k := WindowIndex(norm[sym], state);
    WindowHolds(norm[sym], state);
    NextPlacement(norm, sym, k);
    assert EncTable(norm)[base + k] == EncEntry(norm, base + k);
  }

  /** The branch taken by the lookup fixes the width of the window it finds. */
  lemma IndexWidth(f: nat, x: nat)
    requires Splittable(f) && x < ANS_L
    ensures WindowBits(f, WindowIndex(f, x)) ==
            if x < Times(LowCount(f), Pow2(NbMax(f))) then NbMax(f) else NbMax(f) - 1
  {
    var p, q := WindowShape(f);
    WindowBaseForm(f, 0, p, q);
    if x < Times(LowCount(f), Pow2(NbMax(f))) {
      WideIndex(x, LowCount(f), q);
    }
  }
}
