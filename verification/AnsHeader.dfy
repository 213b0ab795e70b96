/** The adaptive table header (`write_hdr_v2`, `read_hdr_v2`, src/vv_ans.c). */
module AnsHeader {
  import opened AnsTables
  import opened Arith
  import opened Bytes
  import opened Normalize

  const HDR_SINGLE: Byte := 1
  const HDR_SPARSE: Byte := 2
  const HDR_DENSE: Byte := 3
  const SPARSE_THRESHOLD: nat := 64

  function Le16(v: nat): (b: seq<Byte>)
    requires v < 0x1_0000
    ensures |b| == 2
  {
    [v % 0x100, v / 0x100]
  }

  function FromLe16(lo: Byte, hi: Byte): nat {
    lo + 0x100 * hi
  }

  /** `[symbol][frequency]` for each symbol present among the first `i`. */
  function Sparse(norm: seq<nat>, i: nat): (b: seq<Byte>)
    requires i <= |norm| <= NSYM && forall j :: 0 <= j < |norm| ==> norm[j] < 0x1_0000
    ensures |b| == 3 * PresentCount(norm, i)
  {
    if i == 0 then []
    else if norm[i - 1] > 0 then Sparse(norm, i - 1) + [i - 1] + Le16(norm[i - 1])
    else Sparse(norm, i - 1)
  }

  /** The frequencies of the first `i` symbols in order. */
  function Dense(norm: seq<nat>, i: nat): (b: seq<Byte>)
    requires i <= |norm| && forall j :: 0 <= j < |norm| ==> norm[j] < 0x1_0000
    ensures |b| == 2 * i
  {
    if i == 0 then [] else Dense(norm, i - 1) + Le16(norm[i - 1])
  }

  /** One past the last symbol present. */
  function LastPresent(norm: seq<nat>, i: nat): (m: nat)
    requires i <= |norm|
    ensures m <= i && (m > 0 ==> norm[m - 1] > 0)
    ensures forall j :: m <= j < i ==> norm[j] == 0
  {
    if i == 0 then 0 else if norm[i - 1] > 0 then i else LastPresent(norm, i - 1)
  }

  ghost predicate TableShape(norm: seq<nat>) {
    |norm| == NSYM && forall j :: 0 <= j < NSYM ==> norm[j] < 0x1_0000
  }

  /** The header bytes; empty when no symbol is present. */
  ghost function Header(norm: seq<nat>): seq<Byte>
    requires TableShape(norm)
  {
    var active, last := PresentCount(norm, NSYM), LastPresent(norm, NSYM);
    if active == 0 then []
    else if active == 1 then [HDR_SINGLE, last - 1]
    else if active <= SPARSE_THRESHOLD then [HDR_SPARSE, active] + Sparse(norm, NSYM)
    else [HDR_DENSE, last - 1] + Dense(norm, last)
  }

  lemma NormalizedShape(norm: seq<nat>)
    requires Normalized(norm)
    ensures TableShape(norm) && PresentCount(norm, NSYM) > 0
  {
    forall j | 0 <= j < NSYM
      ensures norm[j] < 0x1_0000
    {
      NormBound(norm, j);
    }
    PositiveSum(norm);
  }

  /** `write_hdr_v2`: the empty result stands for the failure code 0. */
  method WriteHeader(norm: seq<nat>, cap: nat) returns (d: seq<Byte>)
    requires TableShape(norm)
    ensures d == if |Header(norm)| <= cap then Header(norm) else []
  {
    hide Le16;
    var active, last := 0, 0;
    for i := 0 to NSYM
      invariant active == PresentCount(norm, i) && last == LastPresent(norm, i)
    {
      if norm[i] > 0 {
        active := active + 1;
        last := i + 1;
      }
    }
    if active == 0 {
      return [];
    }
    if active == 1 {
      if cap < 2 {
        return [];
      }
      return [HDR_SINGLE, last - 1];
    }
    if active <= SPARSE_THRESHOLD {
      if 2 + 3 * active > cap {
        return [];
      }
      d := [HDR_SPARSE, active];
      for i := 0 to NSYM
        invariant d == [HDR_SPARSE, active] + Sparse(norm, i)
      {
        if norm[i] > 0 {
          d := d + [i] + Le16(norm[i]);
        }
      }
      return;
    }
    if 2 + 2 * last > cap {
      return [];
    }
    d := [HDR_DENSE, last - 1];
    for i := 0 to last
      invariant d == [HDR_DENSE, last - 1] + Dense(norm, i)
    {
      d := d + Le16(norm[i]);
    }
  }

  //////////////////////////////////////////////////////////////////////////////
  // Reading
  //////////////////////////////////////////////////////////////////////////////

  datatype HeaderResult = BadHeader | GoodHeader(norm: seq<nat>, size: nat)

  function NoFrequencies(): (z: seq<nat>)
    ensures |z| == NSYM
  {
    seq(NSYM, i requires 0 <= i < NSYM => 0)
  }

  /** The first `n` sparse entries of header `s`, later ones overwriting earlier ones. */
  function ReadSparse(s: seq<Byte>, n: nat): (norm: seq<nat>)
    requires 2 + 3 * n <= |s|
    ensures |norm| == NSYM
  {
    if n == 0 then NoFrequencies()
    else
      var p := 2 + 3 * (n - 1);
      ReadSparse(s, n - 1)[s[p] := FromLe16(s[p + 1], s[p + 2])]
  }

  /** `n` consecutive frequencies from position `p`, the rest zero. */
  function ReadDense(s: seq<Byte>, p: nat, n: nat): (norm: seq<nat>)
    requires p + 2 * n <= |s| && n <= NSYM
    ensures |norm| == NSYM
  {
    seq(NSYM, i requires 0 <= i < NSYM => if i < n then FromLe16(s[p + 2 * i], s[p + 2 * i + 1]) else 0)
  }

  /** `read_hdr_v2`, including the format without a leading format code. */
  function ReadHeader(s: seq<Byte>): (r: HeaderResult)
    ensures r.GoodHeader? ==> |r.norm| == NSYM && 0 < r.size <= |s|
  {
    if |s| < 1 then BadHeader
    else if s[0] == HDR_SINGLE then
      if |s| < 2 then BadHeader else GoodHeader(NoFrequencies()[s[1] := ANS_L], 2)
    else if s[0] == HDR_SPARSE then
      if |s| < 2 || 2 + 3 * s[1] as int > |s| then BadHeader else GoodHeader(ReadSparse(s, s[1]), 2 + 3 * s[1] as int)
    else if s[0] == HDR_DENSE then
      if |s| < 2 || 2 + 2 * (s[1] as int + 1) > |s| then BadHeader else GoodHeader(ReadDense(s, 2, s[1] as int + 1), 2 + 2 * (s[1] as int + 1))
    else if 1 + 2 * (s[0] as int + 1) <= |s| then GoodHeader(ReadDense(s, 1, s[0] as int + 1), 1 + 2 * (s[0] as int + 1))
    else BadHeader
  }

  lemma {:induction false} SparseExtends(s: seq<Byte>, x: seq<Byte>, n: nat)
    requires 2 + 3 * n <= |s|
    ensures ReadSparse(s + x, n) == ReadSparse(s, n)
  {
    if n > 0 {
      SparseExtends(s, x, n - 1);
    }
  }

  /** A header that can be read is read alike whatever follows. */
  lemma HeaderExtends(s: seq<Byte>, x: seq<Byte>)
    requires ReadHeader(s).GoodHeader?
    ensures ReadHeader(s + x) == ReadHeader(s)
  {
    if s[0] == HDR_SPARSE {
      SparseExtends(s, x, s[1]);
    } else if s[0] == HDR_DENSE {
      assert ReadDense(s + x, 2, s[1] as int + 1) == ReadDense(s, 2, s[1] as int + 1);
    } else if s[0] != HDR_SINGLE {
      assert ReadDense(s + x, 1, s[0] as int + 1) == ReadDense(s, 1, s[0] as int + 1);
    }
  }

  /** The reader's loops over a frequency array. */
  method ReadHeaderInto(s: seq<Byte>, norm: array<nat>) returns (size: nat)
    requires norm.Length == NSYM
    modifies norm
    ensures ReadHeader(s).BadHeader? ==> size == 0 && norm[..] == NoFrequencies()
    ensures ReadHeader(s).GoodHeader? ==> ReadHeader(s) == GoodHeader(norm[..], size)
  {
    hide FromLe16;
    for i := 0 to NSYM
      invariant forall j :: 0 <= j < i ==> norm[j] == 0
    {
      norm[i] := 0;
    }
    assert norm[..] == NoFrequencies();
    if |s| < 1 {
      return 0;
    }
    if s[0] == HDR_SINGLE {
      if |s| < 2 {
        return 0;
      }
      norm[s[1]] := ANS_L;
      return 2;
    }
    if s[0] == HDR_SPARSE {
      if |s| < 2 || 2 + 3 * s[1] as int > |s| {
        return 0;
      }
      for i := 0 to s[1]
        invariant norm[..] == ReadSparse(s, i)
      {
        var p := 2 + 3 * i;
        norm[s[p]] := FromLe16(s[p + 1], s[p + 2]);
      }
      return 2 + 3 * s[1] as int;
    }
    if s[0] == HDR_DENSE {
      if |s| < 2 || 2 + 2 * (s[1] as int + 1) > |s| {
        return 0;
      }
      ReadRun(s, 2, s[1] as int + 1, norm);
      return 2 + 2 * (s[1] as int + 1);
    }
    if 1 + 2 * (s[0] as int + 1) <= |s| {
      ReadRun(s, 1, s[0] as int + 1, norm);
      return 1 + 2 * (s[0] as int + 1);
    }
    return 0;
  }

  method ReadRun(s: seq<Byte>, p: nat, n: nat, norm: array<nat>)
    requires norm.Length == NSYM && p + 2 * n <= |s| && n <= NSYM
    requires forall j :: 0 <= j < NSYM ==> norm[j] == 0
    modifies norm
    ensures norm[..] == ReadDense(s, p, n)
  {
    for i := 0 to n
      invariant forall j :: 0 <= j < i ==> norm[j] == FromLe16(s[p + 2 * j], s[p + 2 * j + 1])
      invariant forall j :: i <= j < NSYM ==> norm[j] == 0
    {
      norm[i] := FromLe16(s[p + 2 * i], s[p + 2 * i + 1]);
    }
  }

  //////////////////////////////////////////////////////////////////////////////
  // Round trip
  //////////////////////////////////////////////////////////////////////////////

  lemma Le16RoundTrip(v: nat)
    requires v < 0x1_0000
    ensures FromLe16(Le16(v)[0], Le16(v)[1]) == v
  {
  }

  ghost function Masked(norm: seq<nat>, i: nat): (m: seq<nat>)
    requires |norm| == NSYM
    ensures |m| == NSYM
  {
    seq(NSYM, j requires 0 <= j < NSYM => if j < i then norm[j] else 0)
  }

  lemma {:induction false} SparseRoundTrip(norm: seq<nat>, s: seq<Byte>, i: nat)
    requires TableShape(norm) && i <= NSYM
    requires 2 <= |s| && Sparse(norm, i) <= s[2..]
    ensures ReadSparse(s, PresentCount(norm, i)) == Masked(norm, i)
  {
    hide FromLe16, Le16;
    if i == 0 {
    } else {
      SparsePrefix(norm, i);
      SparseRoundTrip(norm, s, i - 1);
      if norm[i - 1] > 0 {
        SparseEntry(norm, s, i);
        assert Masked(norm, i) == Masked(norm, i - 1)[i - 1 := norm[i - 1]];
      } else {
        assert Masked(norm, i) == Masked(norm, i - 1);
      }
    }
  }

  lemma SparsePrefix(norm: seq<nat>, i: nat)
    requires TableShape(norm) && 0 < i <= NSYM
    ensures Sparse(norm, i - 1) <= Sparse(norm, i)
  {
    hide Le16;
  }

  lemma SparseEntry(norm: seq<nat>, s: seq<Byte>, i: nat)
    requires TableShape(norm) && 0 < i <= NSYM && norm[i - 1] > 0
    requires 2 <= |s| && Sparse(norm, i) <= s[2..]
    ensures var p := 2 + 3 * PresentCount(norm, i - 1);
            p + 2 < |s| && s[p] == i - 1 && FromLe16(s[p + 1], s[p + 2]) == norm[i - 1]
  {
    hide Le16, FromLe16;
    var k := 3 * PresentCount(norm, i - 1);
    var t := Sparse(norm, i);
    assert |t| == k + 3;
    assert t[k] == i - 1 && t[k + 1] == Le16(norm[i - 1])[0] && t[k + 2] == Le16(norm[i - 1])[1];
    assert s[2..][k] == t[k] && s[2..][k + 1] == t[k + 1] && s[2..][k + 2] == t[k + 2];
    Le16RoundTrip(norm[i - 1]);
  }

  lemma {:induction false} DenseAt(norm: seq<nat>, i: nat, j: nat)
    requires TableShape(norm) && j < i <= NSYM
    ensures Dense(norm, i)[2 * j] == Le16(norm[j])[0] && Dense(norm, i)[2 * j + 1] == Le16(norm[j])[1]
  {
    if j < i - 1 {
      DenseAt(norm, i - 1, j);
    }
  }

  /** Reading back a written header yields the frequencies and the header's length, whatever
      bytes follow it. */
  lemma HeaderRoundTrip(norm: seq<nat>, rest: seq<Byte>)
    requires Normalized(norm)
    ensures TableShape(norm) && ReadHeader(Header(norm) + rest) == GoodHeader(norm, |Header(norm)|)
  {
    hide Sum, Sparse, Dense, ReadSparse, ReadDense, NoFrequencies, ReadHeader, PresentCount;
    NormalizedShape(norm);
    var active, last := PresentCount(norm, NSYM), LastPresent(norm, NSYM);
    if active == 1 {
      SingleHeader(norm, last - 1);
      ReadsSingle(last - 1, rest);
    } else if active <= SPARSE_THRESHOLD {
      ReadsSparse(norm, active, rest);
    } else {
      ReadsDense(norm, last, rest);
    }
  }

  lemma ReadsSingle(b: Byte, rest: seq<Byte>)
    ensures ReadHeader([HDR_SINGLE, b] + rest) == GoodHeader(NoFrequencies()[b := ANS_L], 2)
  {
  }

  lemma ReadsSparse(norm: seq<nat>, active: Byte, rest: seq<Byte>)
    requires TableShape(norm) && active == PresentCount(norm, NSYM)
    ensures ReadHeader([HDR_SPARSE, active] + Sparse(norm, NSYM) + rest) == GoodHeader(norm, 2 + 3 * active as int)
  {
    hide Sparse, ReadSparse, FromLe16;
    var s := [HDR_SPARSE, active] + Sparse(norm, NSYM) + rest;
    assert s[2..] == Sparse(norm, NSYM) + rest;
    SparseRoundTrip(norm, s, NSYM);
    assert Masked(norm, NSYM) == norm;
  }

  lemma ReadsDense(norm: seq<nat>, last: nat, rest: seq<Byte>)
    requires TableShape(norm) && last == LastPresent(norm, NSYM) && last > 0
    ensures ReadHeader([HDR_DENSE, last - 1] + Dense(norm, last) + rest) == GoodHeader(norm, 2 + 2 * last)
  {
    hide Dense, ReadDense, FromLe16;
    var s := [HDR_DENSE, last - 1] + Dense(norm, last) + rest;
    assert s[2..] == Dense(norm, last) + rest;
    DenseRoundTrip(norm, s, last);
  }

  lemma DenseRoundTrip(norm: seq<nat>, s: seq<Byte>, last: nat)
    requires TableShape(norm) && last == LastPresent(norm, NSYM)
    requires 2 <= |s| && Dense(norm, last) <= s[2..]
    ensures ReadDense(s, 2, last) == norm
  {
    hide Le16, FromLe16;
    forall j | 0 <= j < NSYM
      ensures ReadDense(s, 2, last)[j] == norm[j]
    {
      if j < last {
        DenseAt(norm, last, j);
        Le16RoundTrip(norm[j]);
        assert s[2..][2 * j] == Dense(norm, last)[2 * j] && s[2..][2 * j + 1] == Dense(norm, last)[2 * j + 1];
      }
    }
  }

  /** A table of one symbol gives it every slot. */
  lemma SingleHeader(norm: seq<nat>, s: nat)
    requires Normalized(norm) && PresentCount(norm, NSYM) == 1 && s < NSYM && norm[s] > 0
    ensures norm[s] == ANS_L && NoFrequencies()[s := ANS_L] == norm
  {
    OnlyOne(norm, s, NSYM);
    CumEnd(norm);
  }
}
