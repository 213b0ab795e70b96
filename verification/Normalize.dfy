/** Frequency normalization (`normalize_freq`, src/vv_ans.c): apportions 4096 table slots to the
    symbols of a histogram. */
module Normalize {
  import opened Arith
  import opened AnsTables

  const USED: int := 0x7FFF_FFFF

  predicate Histogram(raw: seq<nat>) {
    |raw| == NSYM && Sum(raw) <= 0x8000_0000
  }

  function PresentCount(raw: seq<nat>, i: nat): (n: nat)
    requires i <= |raw|
    ensures n <= i
    ensures n == 0 <==> forall j :: 0 <= j < i ==> raw[j] == 0
  {
    if i == 0 then 0 else PresentCount(raw, i - 1) + (if raw[i - 1] > 0 then 1 else 0)
  }

  /** The whole slots a symbol earns, at least one when present, and the remainder of its share. */
  function BaseShare(r: nat, total: nat): nat
    requires r <= total && total > 0
  {
    if r == 0 then 0 else if r * ANS_L / total == 0 then 1 else ShareFloor(r, total)
  }

  function ShareFloor(r: nat, total: nat): (q: nat)
    requires r <= total && total > 0
    ensures q <= ANS_L
  {
    MulMono(r, total, ANS_L);
    DigitBound(r * ANS_L, total, ANS_L + 1);
    r * ANS_L / total
  }

  function Remainder(r: nat, total: nat): nat
    requires total > 0
  {
    r * ANS_L % total
  }

  function Bases(raw: seq<nat>): (b: seq<nat>)
    requires Sum(raw) > 0
    ensures |b| == |raw|
  {
    seq(|raw|, i requires 0 <= i < |raw| => (ElementBound(raw, i); BaseShare(raw[i], Sum(raw))))
  }

  function Remainders(raw: seq<nat>): (b: seq<nat>)
    requires Sum(raw) > 0
    ensures |b| == |raw|
  {
    seq(|raw|, i requires 0 <= i < |raw| => Remainder(raw[i], Sum(raw)))
  }

  lemma ElementBound(s: seq<nat>, i: nat)
    requires i < |s|
    ensures s[i] <= Sum(s)
  {
    CumStep(s, i);
    CumMonotone(s, i + 1, |s|);
  }

  /** What the apportionment promises. When the base shares do not exceed the table, they are
      topped up by at most one slot each, largest remainders first; otherwise the surplus is taken
      from the smallest remainders and then from the largest shares. */
  ghost predicate Apportioned(raw: seq<nat>, norm: seq<nat>)
    requires Sum(raw) > 0
  {
    && |norm| == |raw|
    && Sum(norm) == ANS_L
    && (forall i :: 0 <= i < |raw| ==> (norm[i] > 0 <==> raw[i] > 0))
    && (Sum(Bases(raw)) <= ANS_L ==> LargestRemainders(raw, norm))
    && (Sum(Bases(raw)) > ANS_L ==> exists mid :: SmallestRemainders(raw, mid) && Levelled(raw, mid, norm))
  }

  /** At equal remainders the lower symbol comes first. */
  ghost predicate LargestRemainders(raw: seq<nat>, norm: seq<nat>)
    requires Sum(raw) > 0 && |norm| == |raw|
  {
    && (forall i :: 0 <= i < |raw| ==>
          Bases(raw)[i] <= norm[i] <= Bases(raw)[i] + (if raw[i] > 0 then 1 else 0))
    && (forall i, j :: 0 <= i < |raw| && 0 <= j < |raw| && raw[j] > 0
                       && norm[i] == Bases(raw)[i] + 1 && norm[j] == Bases(raw)[j] ==>
                       Before(Remainders(raw)[j], i, Remainders(raw)[i], j))
  }

  predicate Before(x: int, i: nat, y: int, j: nat) {
    x < y || (x == y && i < j)
  }

  /** The shares a surplus can be taken from in order of their remainders. */
  ghost predicate Reducible(raw: seq<nat>, i: nat)
    requires Sum(raw) > 0 && i < |raw|
  {
    Bases(raw)[i] > 1 && Remainders(raw)[i] < USED
  }

  /** Some shares have given up one slot, smallest remainders first. */
  ghost predicate SmallestRemainders(raw: seq<nat>, mid: seq<nat>)
    requires Sum(raw) > 0
  {
    && |mid| == |raw|
    && (forall i :: 0 <= i < |raw| ==>
          mid[i] == Bases(raw)[i] || (mid[i] + 1 == Bases(raw)[i] && Reducible(raw, i)))
    && (forall i, j :: 0 <= i < |raw| && 0 <= j < |raw| && mid[i] < Bases(raw)[i] && mid[j] == Bases(raw)[j] && Reducible(raw, j) ==>
          Before(Remainders(raw)[i], i, Remainders(raw)[j], j))
  }

  ghost predicate AllReduced(raw: seq<nat>, mid: seq<nat>)
    requires Sum(raw) > 0 && |mid| == |raw|
  {
    forall i :: 0 <= i < |raw| && Reducible(raw, i) ==> mid[i] < Bases(raw)[i]
  }

  /** Once every share that can has given up a slot, the largest ones are cut down to one level. */
  ghost predicate Levelled(raw: seq<nat>, mid: seq<nat>, norm: seq<nat>)
    requires Sum(raw) > 0 && |mid| == |raw|
  {
    && |norm| == |raw| && (norm == mid || AllReduced(raw, mid))
    && (forall i :: 0 <= i < |raw| ==> norm[i] <= mid[i])
    && (forall i, j :: 0 <= i < |raw| && 0 <= j < |raw| && norm[i] < mid[i] ==>
          norm[j] <= norm[i] || (norm[j] == norm[i] + 1 && i < j))
  }

  //////////////////////////////////////////////////////////////////////////////
  // The shortfall is covered by the remainders
  //////////////////////////////////////////////////////////////////////////////

  lemma ShareSplit(r: nat, total: nat)
    requires r <= total && total > 0
    ensures BaseShare(r, total) * total + Remainder(r, total) >= r * ANS_L
  {
    var q := r * ANS_L / total;
    assert r * ANS_L == q * total + Remainder(r, total);
    if r > 0 && q == 0 {
    }
  }

  lemma {:induction false} SharesCover(raw: seq<nat>, i: nat)
    requires Sum(raw) > 0 && i <= |raw|
    ensures Cum(Bases(raw), i) * Sum(raw) + Cum(Remainders(raw), i) >= Cum(raw, i) * ANS_L
  {
    hide Cum, Sum, BaseShare, Remainder;
    if i == 0 {
      CumStart(Bases(raw));
      CumStart(Remainders(raw));
      CumStart(raw);
    } else {
      SharesCover(raw, i - 1);
      CumStep(Bases(raw), i - 1);
      CumStep(Remainders(raw), i - 1);
      CumStep(raw, i - 1);
      ElementBound(raw, i - 1);
      ShareSplit(raw[i - 1], Sum(raw));
      Distribute(Cum(Bases(raw), i - 1), Bases(raw)[i - 1], Sum(raw));
    }
  }

  lemma CumStart(s: seq<nat>)
    ensures Cum(s, 0) == 0
  {
  }

  lemma CumEnd(s: seq<nat>)
    ensures Cum(s, |s|) == Sum(s)
  {
    assert s[..|s|] == s;
  }

  lemma ShortfallCovered(raw: seq<nat>)
    requires Sum(raw) > 0
    ensures (ANS_L - Sum(Bases(raw))) * Sum(raw) <= Sum(Remainders(raw))
  {
    hide Cum, Sum, BaseShare, Remainder, Bases, Remainders;
    SharesCover(raw, |raw|);
    CumEnd(Bases(raw));
    CumEnd(Remainders(raw));
    CumEnd(raw);
    var given: int := Sum(Bases(raw));
    Distribute(ANS_L, -given, Sum(raw));
  }

  lemma {:induction false} PositiveSum(s: seq<nat>)
    requires Sum(s) > 0
    ensures exists i :: 0 <= i < |s| && s[i] > 0
  {
    var n := |s| - 1;
    if s[n] == 0 {
      PositiveSum(s[..n]);
      var i :| 0 <= i < n && s[..n][i] > 0;
      assert s[i] > 0;
    }
  }

  /** A sum above the length needs an element above one. */
  lemma {:induction false} LargeSum(s: seq<nat>)
    requires Sum(s) > |s|
    ensures exists i :: 0 <= i < |s| && s[i] > 1
  {
    var n := |s| - 1;
    if s[n] <= 1 {
      LargeSum(s[..n]);
      var i :| 0 <= i < n && s[..n][i] > 1;
      assert s[i] > 1;
    }
  }

  lemma {:induction false} ZeroSum(s: seq<nat>)
    requires forall i :: 0 <= i < |s| ==> s[i] == 0
    ensures Sum(s) == 0
  {
    if s != [] {
      ZeroSum(s[..|s| - 1]);
    }
  }

  //////////////////////////////////////////////////////////////////////////////
  // The three passes
  //////////////////////////////////////////////////////////////////////////////

  /** The remainders not used up yet, as naturals. */
  ghost function Fresh(frac: seq<int>): (r: seq<nat>)
    ensures |r| == |frac|
  {
    seq(|frac|, i requires 0 <= i < |frac| => if frac[i] >= 0 then frac[i] else 0)
  }

  lemma FreshUse(frac: seq<int>, b: nat)
    requires b < |frac| && frac[b] >= 0
    ensures Sum(Fresh(frac[b := -1])) == Sum(Fresh(frac)) - frac[b]
  {
    assert Fresh(frac[b := -1]) == Fresh(frac)[b := 0];
    SumUpdate(Fresh(frac), b, 0);
  }

  /** The present symbol with the largest unused remainder. */
  method LargestFresh(raw: seq<nat>, frac: array<int>) returns (b: int)
    requires |raw| == frac.Length
    ensures -1 <= b < |raw|
    ensures b == -1 ==> forall i :: 0 <= i < |raw| && raw[i] > 0 ==> frac[i] <= -1
    ensures b >= 0 ==> raw[b] > 0 && frac[b] > -1
    ensures b >= 0 ==> forall i :: 0 <= i < |raw| && raw[i] > 0 && i != b ==> Before(frac[i], b, frac[b], i)
  {
    b := -1;
    var br := -1;
    for i := 0 to |raw|
      invariant -1 <= b < i
      invariant br == if b >= 0 then frac[b] else -1
      invariant b >= 0 ==> raw[b] > 0 && frac[b] > -1
      invariant forall j :: 0 <= j < i && raw[j] > 0 && j != b ==> if b >= 0 then Before(frac[j], b, br, j) else frac[j] <= -1
    {
      if raw[i] > 0 && frac[i] > br {
        br := frac[i];
        b := i;
      }
    }
  }

  /** First pass: base shares and remainders. */
  method Apportion(raw: seq<nat>, total: nat, norm: array<nat>, frac: array<int>) returns (handedOut: nat)
    requires Histogram(raw) && total == Sum(raw) > 0
    requires norm.Length == frac.Length == NSYM
    requires forall i :: 0 <= i < NSYM ==> norm[i] == 0 && frac[i] == 0
    modifies norm, frac
    ensures norm[..] == Bases(raw) && frac[..] == Remainders(raw)
    ensures handedOut == Sum(Bases(raw))
  {
    hide Sum, BaseShare, Remainder, Cum;
    handedOut := 0;
    CumStart(Bases(raw));
    for i := 0 to NSYM
      invariant forall j :: 0 <= j < i ==> norm[j] == Bases(raw)[j] && frac[j] == Remainders(raw)[j]
      invariant forall j :: i <= j < NSYM ==> norm[j] == 0 && frac[j] == 0
      invariant handedOut == Cum(Bases(raw), i)
    {
      ElementBound(raw, i);
      CumStep(Bases(raw), i);
      ShareOf(raw[i], total);
      if raw[i] > 0 {
        var sc := raw[i] * ANS_L;
        var base := ShareFloor(raw[i], total);
        if base == 0 {
          base := 1;
        }
        norm[i] := base;
        frac[i] := sc % total;
        handedOut := handedOut + base;
      }
    }
    CumEnd(Bases(raw));
  }

  lemma ShareOf(r: nat, total: nat)
    requires r <= total && total > 0
    ensures r == 0 ==> BaseShare(r, total) == 0 && Remainder(r, total) == 0
    ensures r > 0 ==> BaseShare(r, total) == (if ShareFloor(r, total) == 0 then 1 else ShareFloor(r, total))
    ensures Remainder(r, total) == r * ANS_L % total
  {
    if r == 0 {
      DivModUnique(0, total, 0, 0);
    }
  }

  /** The state of the top-up loop: used symbols hold one extra slot and outrank unused ones. */
  ghost predicate ToppedUp(raw: seq<nat>, norm: seq<nat>, frac: seq<int>)
    requires Sum(raw) > 0
  {
    && |norm| == |frac| == |raw|
    && (forall i :: 0 <= i < |raw| ==>
          || (frac[i] == Remainders(raw)[i] && norm[i] == Bases(raw)[i])
          || (frac[i] == -1 && norm[i] == Bases(raw)[i] + 1 && raw[i] > 0))
    && (forall i, j :: 0 <= i < |raw| && 0 <= j < |raw| && frac[i] == -1 && frac[j] != -1 && raw[j] > 0 ==>
                         Before(Remainders(raw)[j], i, Remainders(raw)[i], j))
  }

  lemma TopUpStep(raw: seq<nat>, norm: seq<nat>, frac: seq<int>, b: nat)
    requires Sum(raw) > 0 && ToppedUp(raw, norm, frac)
    requires b < |raw| && raw[b] > 0 && frac[b] > -1
    requires forall i :: 0 <= i < |raw| && raw[i] > 0 && i != b ==> Before(frac[i], b, frac[b], i)
    ensures ToppedUp(raw, norm[b := norm[b] + 1], frac[b := -1])
  {
    hide Sum, Bases, Remainders;
  }

  /** While slots are missing, the unused remainders still cover the shortfall. */
  lemma FreshRemains(raw: seq<nat>, norm: seq<nat>, frac: seq<int>, diff: nat)
    requires Sum(raw) > 0 && ToppedUp(raw, norm, frac)
    requires diff > 0 && diff * Sum(raw) <= Sum(Fresh(frac))
    ensures exists i :: 0 <= i < |raw| && raw[i] > 0 && frac[i] > -1
  {
    hide Sum, Bases;
    MulMono(1, diff, Sum(raw));
    PositiveSum(Fresh(frac));
    var i :| 0 <= i < |frac| && Fresh(frac)[i] > 0;
    assert frac[i] > 0;
    if raw[i] == 0 {
      DivModUnique(0, Sum(raw), 0, 0);
    }
  }

  lemma RemainderSmall(raw: seq<nat>, i: nat)
    requires Sum(raw) > 0 && i < |raw|
    ensures Remainders(raw)[i] < Sum(raw)
  {
  }

  /** Second pass: hands out missing slots by largest remainder. */
  method AddMissing(raw: seq<nat>, norm: array<nat>, frac: array<int>, missing: nat)
    requires Histogram(raw) && Sum(raw) > 0 && norm.Length == frac.Length == NSYM
    requires norm[..] == Bases(raw) && frac[..] == Remainders(raw)
    requires missing == ANS_L - Sum(Bases(raw))
    modifies norm, frac
    ensures Sum(norm[..]) == ANS_L && LargestRemainders(raw, norm[..])
  {
    hide Sum, Bases, Remainders, ToppedUp, Fresh;
    var diff := missing;
    StartTopUp(raw);
    ShortfallCovered(raw);
    while diff > 0
      invariant 0 <= diff && Sum(norm[..]) == ANS_L - diff
      invariant ToppedUp(raw, norm[..], frac[..])
      invariant diff * Sum(raw) <= Sum(Fresh(frac[..]))
    {
      FreshRemains(raw, norm[..], frac[..], diff);
      var b := LargestFresh(raw, frac);
      if b < 0 {
        break;
      }
      TopUpStep(raw, norm[..], frac[..], b);
      FreshUse(frac[..], b);
      SumUpdate(norm[..], b, norm[b] + 1);
      UsedRemainder(raw, norm[..], frac[..], b);
      Distribute(diff, -1, Sum(raw));
      norm[b] := norm[b] + 1;
      frac[b] := -1;
      diff := diff - 1;
    }
    EndTopUp(raw, norm[..], frac[..]);
  }

  lemma UsedRemainder(raw: seq<nat>, norm: seq<nat>, frac: seq<int>, b: nat)
    requires Sum(raw) > 0 && ToppedUp(raw, norm, frac) && b < |raw| && frac[b] > -1
    ensures frac[b] <= Sum(raw)
  {
    RemainderSmall(raw, b);
  }

  lemma StartTopUp(raw: seq<nat>)
    requires Sum(raw) > 0
    ensures ToppedUp(raw, Bases(raw), Remainders(raw))
    ensures Fresh(Remainders(raw)) == Remainders(raw)
  {
  }

  lemma EndTopUp(raw: seq<nat>, norm: seq<nat>, frac: seq<int>)
    requires Sum(raw) > 0 && ToppedUp(raw, norm, frac)
    ensures LargestRemainders(raw, norm)
  {
    hide Sum, Bases;
  }

  /** The symbol of more than one slot with the smallest remainder not marked used. */
  method SmallestReducible(norm: array<nat>, frac: array<int>) returns (b: int)
    requires norm.Length == frac.Length
    ensures -1 <= b < norm.Length
    ensures b == -1 ==> forall i :: 0 <= i < norm.Length && norm[i] > 1 ==> frac[i] >= USED
    ensures b >= 0 ==> norm[b] > 1 && frac[b] < USED
    ensures b >= 0 ==> forall i :: 0 <= i < norm.Length && norm[i] > 1 && i != b ==> Before(frac[b], b, frac[i], i)
  {
    b := -1;
    var br := USED;
    for i := 0 to norm.Length
      invariant -1 <= b < i
      invariant br == if b >= 0 then frac[b] else USED
      invariant b >= 0 ==> norm[b] > 1 && frac[b] < USED
      invariant forall j :: 0 <= j < i && norm[j] > 1 && j != b ==> if b >= 0 then Before(br, b, frac[j], j) else frac[j] >= USED
    {
      if norm[i] > 1 && frac[i] < br {
        br := frac[i];
        b := i;
      }
    }
  }

  method LargestNorm(norm: array<nat>) returns (lg: int)
    ensures -1 <= lg < norm.Length
    ensures lg == -1 ==> forall i :: 0 <= i < norm.Length ==> norm[i] == 0
    ensures lg >= 0 ==> forall i :: 0 <= i < norm.Length && i != lg ==> Before(norm[i], lg, norm[lg], i)
  {
    lg := -1;
    var lf := 0;
    for i := 0 to norm.Length
      invariant -1 <= lg < i
      invariant lf == if lg >= 0 then norm[lg] else 0
      invariant forall j :: 0 <= j < i && j != lg ==> if lg >= 0 then Before(norm[j], lg, lf, j) else norm[j] == 0
    {
      if norm[i] > lf {
        lf := norm[i];
        lg := i;
      }
    }
  }

  ghost predicate Shrunk(raw: seq<nat>, norm: seq<nat>)
    requires Sum(raw) > 0
  {
    && |norm| == |raw|
    && forall i :: 0 <= i < |raw| ==> norm[i] <= Bases(raw)[i] && (norm[i] > 0 <==> raw[i] > 0)
  }

  /** The remainders, with those of the shares that have given up a slot marked. */
  ghost predicate Marked(raw: seq<nat>, mid: seq<nat>, frac: seq<int>)
    requires Sum(raw) > 0 && |mid| == |raw|
  {
    && |frac| == |raw|
    && forall i :: 0 <= i < |raw| ==> frac[i] == if mid[i] < Bases(raw)[i] then USED else Remainders(raw)[i]
  }

  ghost predicate Surplus(raw: seq<nat>, mid: seq<nat>, norm: seq<nat>, frac: seq<int>)
    requires Sum(raw) > 0
  {
    SmallestRemainders(raw, mid) && Levelled(raw, mid, norm) && Marked(raw, mid, frac) && Shrunk(raw, norm)
  }

  lemma SurplusStart(raw: seq<nat>)
    requires Sum(raw) > 0
    ensures Surplus(raw, Bases(raw), Bases(raw), Remainders(raw))
  {
  }

  lemma SurplusReduce(raw: seq<nat>, mid: seq<nat>, norm: seq<nat>, frac: seq<int>, b: nat)
    requires Sum(raw) > 0 && Surplus(raw, mid, norm, frac)
    requires b < |norm| && norm[b] > 1 && frac[b] < USED
    requires forall i :: 0 <= i < |norm| && norm[i] > 1 && i != b ==> Before(frac[b], b, frac[i], i)
    ensures var now := norm[b := norm[b] - 1];
            Surplus(raw, now, now, frac[b := USED])
  {
    hide Sum, Bases, Remainders;
    assert mid[b] == Bases(raw)[b] && Reducible(raw, b);
    assert norm == mid;
  }

  lemma SurplusLevel(raw: seq<nat>, mid: seq<nat>, norm: seq<nat>, frac: seq<int>, lg: nat)
    requires Sum(raw) > 0 && Surplus(raw, mid, norm, frac)
    requires forall i :: 0 <= i < |norm| && norm[i] > 1 ==> frac[i] >= USED
    requires lg < |norm| && norm[lg] > 1
    requires forall i :: 0 <= i < |norm| && i != lg ==> Before(norm[i], lg, norm[lg], i)
    ensures Surplus(raw, mid, norm[lg := norm[lg] - 1], frac)
  {
    hide Sum, Bases, Remainders;
    forall i | 0 <= i < |raw| && Reducible(raw, i)
      ensures mid[i] < Bases(raw)[i]
    {
      if mid[i] == Bases(raw)[i] {
      }
    }
  }

  /** Third pass: takes back surplus slots, never the last slot of a symbol. */
  method TakeSurplus(raw: seq<nat>, norm: array<nat>, frac: array<int>, surplus: nat)
    requires Histogram(raw) && Sum(raw) > 0 && norm.Length == frac.Length == NSYM
    requires norm[..] == Bases(raw) && frac[..] == Remainders(raw) && Sum(Bases(raw)) == ANS_L + surplus
    modifies norm, frac
    ensures Sum(norm[..]) == ANS_L && Shrunk(raw, norm[..])
    ensures exists mid :: SmallestRemainders(raw, mid) && Levelled(raw, mid, norm[..])
  {
    hide Sum, Bases, Remainders, Surplus;
    var diff: int := surplus;
    diff := -diff;
    ghost var mid := Bases(raw);
    SurplusStart(raw);
    while diff < 0
      invariant diff <= 0 && Sum(norm[..]) == ANS_L - diff
      invariant Surplus(raw, mid, norm[..], frac[..])
    {
      LargeSum(norm[..]);
      assert exists i :: 0 <= i < NSYM && norm[i] > 1;
      var b := SmallestReducible(norm, frac);
      if b < 0 {
        var lg := LargestNorm(norm);
        if lg >= 0 && norm[lg] > 1 {
          SurplusLevel(raw, mid, norm[..], frac[..], lg);
          SumUpdate(norm[..], lg, norm[lg] - 1);
          norm[lg] := norm[lg] - 1;
          diff := diff + 1;
        } else {
          break;
        }
      } else {
        SurplusReduce(raw, mid, norm[..], frac[..], b);
        SumUpdate(norm[..], b, norm[b] - 1);
        norm[b] := norm[b] - 1;
        frac[b] := USED;
        mid := norm[..];
        diff := diff + 1;
      }
    }
    SurplusEnd(raw, mid, norm[..], frac[..]);
  }

  lemma SurplusEnd(raw: seq<nat>, mid: seq<nat>, norm: seq<nat>, frac: seq<int>)
    requires Sum(raw) > 0 && Surplus(raw, mid, norm, frac)
    ensures Shrunk(raw, norm) && SmallestRemainders(raw, mid) && Levelled(raw, mid, norm)
  {
  }

  /** `normalize_freq`: terminates on every histogram of total at most 2^31 and, unless the
      histogram is empty, returns an apportionment of exactly 4096 slots. */
  method NormalizeFreq(raw: seq<nat>) returns (norm: array<nat>, np: nat)
    requires Histogram(raw)
    ensures fresh(norm) && norm.Length == NSYM
    ensures np == PresentCount(raw, NSYM)
    ensures np == 0 ==> Sum(raw) == 0 && forall i :: 0 <= i < NSYM ==> norm[i] == 0
    ensures np > 0 ==> Sum(raw) > 0 && Apportioned(raw, norm[..])
    ensures np > 0 ==> Normalized(norm[..])
  {
    hide Sum, Bases, Remainders, LargestRemainders, Cum;
    var total := 0;
    np := 0;
    CumStart(raw);
    for i := 0 to NSYM
      invariant total == Cum(raw, i) && np == PresentCount(raw, i)
    {
      CumStep(raw, i);
      total := total + raw[i];
      if raw[i] > 0 {
        np := np + 1;
      }
    }
    CumEnd(raw);
    norm := new nat[NSYM](_ => 0);
    if np == 0 {
      ZeroSum(raw);
      return;
    }
    SomePresent(raw);
    ZeroSum(norm[..]);
    if np == 1 {
      for i := 0 to NSYM
        invariant Sum(norm[..]) == ANS_L * PresentCount(raw, i)
        invariant forall j :: 0 <= j < i ==> norm[j] == if raw[j] > 0 then ANS_L else 0
        invariant forall j :: i <= j < NSYM ==> norm[j] == 0
      {
        if raw[i] > 0 {
          SumUpdate(norm[..], i, ANS_L);
          norm[i] := ANS_L;
        }
      }
      OnePresent(raw, norm[..]);
      return;
    }
    var frac := new int[NSYM](_ => 0);
    var handedOut := Apportion(raw, total, norm, frac);
    if handedOut <= ANS_L {
      AddMissing(raw, norm, frac, ANS_L - handedOut);
      TopUpKeepsPresence(raw, norm[..]);
    } else {
      TakeSurplus(raw, norm, frac, handedOut - ANS_L);
    }
  }

  lemma SomePresent(raw: seq<nat>)
    requires |raw| == NSYM && PresentCount(raw, NSYM) > 0
    ensures Sum(raw) > 0
  {
    var i :| 0 <= i < NSYM && raw[i] > 0;
    ElementBound(raw, i);
  }

  lemma TopUpKeepsPresence(raw: seq<nat>, norm: seq<nat>)
    requires Sum(raw) > 0 && |norm| == |raw| && LargestRemainders(raw, norm) && Sum(norm) == ANS_L
    requires Sum(Bases(raw)) <= ANS_L
    ensures Apportioned(raw, norm)
  {
    hide Sum, Bases;
    forall i | 0 <= i < |raw|
      ensures norm[i] > 0 <==> raw[i] > 0
    {
      BasePositive(raw, i);
    }
  }

  lemma BasePositive(raw: seq<nat>, i: nat)
    requires Sum(raw) > 0 && i < |raw|
    ensures Bases(raw)[i] > 0 <==> raw[i] > 0
  {
    hide Sum;
    ElementBound(raw, i);
    ShareOf(raw[i], Sum(raw));
  }

  lemma {:induction false} OnlyOne(raw: seq<nat>, i: nat, j: nat)
    requires i < j <= |raw| && raw[i] > 0 && PresentCount(raw, j) == 1
    ensures forall k :: 0 <= k < j && k != i ==> raw[k] == 0
    ensures Cum(raw, j) == raw[i]
  {
    CumStep(raw, j - 1);
    if i < j - 1 {
      OnlyOne(raw, i, j - 1);
    } else {
      assert forall k :: 0 <= k < i ==> raw[k] == 0;
      ZeroSum(raw[..i]);
    }
  }

  /** A histogram of one symbol gives it the whole table. */
  lemma OnePresent(raw: seq<nat>, norm: seq<nat>)
    requires |raw| == |norm| == NSYM && PresentCount(raw, NSYM) == 1 && Sum(raw) > 0
    requires forall j :: 0 <= j < NSYM ==> norm[j] == if raw[j] > 0 then ANS_L else 0
    requires Sum(norm) == ANS_L
    ensures Apportioned(raw, norm)
  {
    hide Cum;
    var i :| 0 <= i < NSYM && raw[i] > 0;
    OnlyOne(raw, i, NSYM);
    CumEnd(raw);
    DivModUnique(raw[i] * ANS_L, Sum(raw), ANS_L, 0);
    assert forall j :: 0 <= j < NSYM ==> Bases(raw)[j] == norm[j];
    assert Bases(raw) == norm;
  }

  //////////////////////////////////////////////////////////////////////////////
  // The apportionment is determined
  //////////////////////////////////////////////////////////////////////////////

  /** Of two unlike lists of one length and sum, either is somewhere below the other. */
  lemma {:induction false} Lower(a: seq<nat>, b: seq<nat>)
    requires |a| == |b| && Sum(a) <= Sum(b) && a != b
    ensures exists i :: 0 <= i < |a| && a[i] < b[i]
  {
    var n := |a| - 1;
    assert a == a[..n] + [a[n]] && b == b[..n] + [b[n]];
    if a[n] >= b[n] {
      Lower(a[..n], b[..n]);
      var i :| 0 <= i < n && a[..n][i] < b[..n][i];
      assert a[i] < b[i];
    }
  }

  /** A histogram has only one apportionment. */
  lemma OneApportionment(raw: seq<nat>, a: seq<nat>, b: seq<nat>)
    requires Sum(raw) > 0 && Apportioned(raw, a) && Apportioned(raw, b)
    ensures a == b
  {
    hide Sum, Bases, Remainders, LargestRemainders, Levelled;
    if a != b {
      Lower(a, b);
      Lower(b, a);
      var i :| 0 <= i < |a| && a[i] < b[i];
      if Sum(Bases(raw)) > ANS_L {
        var m :| SmallestRemainders(raw, m) && Levelled(raw, m, a);
        var n :| SmallestRemainders(raw, n) && Levelled(raw, n, b);
        OneLevel(raw, m, a, n, b, i);
      } else {
        OneTopUp(raw, a, b, i);
      }
    }
  }

  lemma OneTopUp(raw: seq<nat>, a: seq<nat>, b: seq<nat>, i: nat)
    requires Sum(raw) > 0 && |a| == |b| == |raw| && LargestRemainders(raw, a) && LargestRemainders(raw, b)
    requires i < |a| && a[i] < b[i]
    ensures forall j :: 0 <= j < |a| ==> a[j] <= b[j]
  {
    hide Sum, Bases, Remainders;
  }

  lemma OneLevel(raw: seq<nat>, m: seq<nat>, a: seq<nat>, n: seq<nat>, b: seq<nat>, i: nat)
    requires Sum(raw) > 0 && SmallestRemainders(raw, m) && Levelled(raw, m, a)
    requires SmallestRemainders(raw, n) && Levelled(raw, n, b)
    requires i < |a| && a[i] < b[i]
    ensures forall j :: 0 <= j < |a| ==> a[j] <= b[j]
  {
    hide Sum, Bases, Remainders;
  }
}
