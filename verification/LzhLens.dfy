/** Run-length coding of code lengths (`cl_encode` and `cl_decode`, src/zupt_lzh.c:363-440). The codes
    16, 17 and 18 are those of section 3.2.7 of RFC 1951, with their counts in a byte of their own. */
module LzhLens {
  import opened Bytes

  function Repeat(v: nat, n: nat): (r: seq<nat>)
    ensures |r| == n && forall i :: 0 <= i < n ==> r[i] == v
  {
    seq(n, _ => v)
  }

  /** How many lengths the code `c` with count byte `n` stands for. */
  function Reps(c: Byte, n: Byte): nat {
    var base := if c == 18 then 11 else 3;
    base + n as nat
  }

  datatype Lengths = BadLengths | Lengths(lens: seq<nat>, used: nat)

  /** The decoder from position `p`, `lens` being known so far and `prev` the last length spelt out.
      A repetition never runs past `count` lengths. */
  function Expand(s: seq<Byte>, p: nat, lens: seq<nat>, prev: nat, count: nat): (r: Lengths)
    requires p <= |s| && |lens| <= count
    ensures r.Lengths? ==> |r.lens| <= count && r.used <= |s|
    decreases |s| - p
  {
    if |lens| >= count || p >= |s| then Lengths(lens, p)
    else if s[p] <= 15 then Expand(s, p + 1, lens + [s[p] as nat], s[p], count)
    else if s[p] > 18 || p + 1 >= |s| then BadLengths
    else
      var reps := Reps(s[p], s[p + 1]);
      var n := if reps > count - |lens| then count - |lens| else reps;
      Expand(s, p + 2, lens + Repeat(if s[p] == 16 then prev else 0, n), prev, count)
  }

  /** Every length the decoder gives is at most 15. */
  lemma {:induction false} ExpandSmall(s: seq<Byte>, p: nat, lens: seq<nat>, prev: nat, count: nat)
    requires p <= |s| && |lens| <= count && prev <= 15 && forall i :: 0 <= i < |lens| ==> lens[i] <= 15
    ensures var r := Expand(s, p, lens, prev, count);
            r.Lengths? ==> forall i :: 0 <= i < |r.lens| ==> r.lens[i] <= 15
    decreases |s| - p
  {
    if |lens| < count && p < |s| {
      if s[p] <= 15 {
        ExpandSmall(s, p + 1, lens + [s[p] as nat], s[p], count);
      } else if s[p] <= 18 && p + 1 < |s| {
        var reps := Reps(s[p], s[p + 1]);
        var n := if reps > count - |lens| then count - |lens| else reps;
        ExpandSmall(s, p + 2, lens + Repeat(if s[p] == 16 then prev else 0, n), prev, count);
      }
    }
  }

  //////////////////////////////////////////////////////////////////////////////
  // Encoding
  //////////////////////////////////////////////////////////////////////////////

  /** Whatever follows `out`, the decoder gets behind it with `lens` and `prev`. */
  ghost predicate Reaches(out: seq<Byte>, lens: seq<nat>, prev: nat, count: nat) {
    |lens| <= count && forall tail: seq<Byte> :: Expand(out + tail, 0, [], 0, count) == Expand(out + tail, |out|, lens, prev, count)
  }

  lemma ReachesStart(count: nat)
    ensures Reaches([], [], 0, count)
  {
  }

  lemma ReachesEnd(out: seq<Byte>, lens: seq<nat>, prev: nat)
    requires Reaches(out, lens, prev, |lens|)
    ensures Expand(out, 0, [], 0, |lens|) == Lengths(lens, |out|)
  {
    assert out + [] == out;
  }

  lemma ReachesLength(out: seq<Byte>, lens: seq<nat>, prev: nat, count: nat, c: Byte)
    requires Reaches(out, lens, prev, count) && |lens| < count && c <= 15
    ensures Reaches(out + [c], lens + [c as nat], c, count)
  {
    forall tail: seq<Byte>
      ensures Expand(out + [c] + tail, 0, [], 0, count) == Expand(out + [c] + tail, |out + [c]|, lens + [c as nat], c, count)
    {
      assert out + [c] + tail == out + ([c] + tail);
      assert (out + [c] + tail)[|out|] == c;
    }
  }

  lemma ReachesRun(out: seq<Byte>, lens: seq<nat>, prev: nat, count: nat, c: Byte, n: Byte)
    requires Reaches(out, lens, prev, count) && 16 <= c <= 18
    requires |lens| + Reps(c, n) <= count
    ensures Reaches(out + [c, n], lens + Repeat(if c == 16 then prev else 0, Reps(c, n)), prev, count)
  {
    var reps := Reps(c, n);
    var now := lens + Repeat(if c == 16 then prev else 0, reps);
    forall tail: seq<Byte>
      ensures Expand(out + [c, n] + tail, 0, [], 0, count) == Expand(out + [c, n] + tail, |out + [c, n]|, now, prev, count)
    {
      var s := out + [c, n] + tail;
      assert s == out + ([c, n] + tail);
      assert s[|out|] == c && s[|out| + 1] == n;
    }
  }

  lemma NextLengths(lens: seq<nat>, i: nat, v: nat, n: nat)
    requires i + n <= |lens| && forall k :: i <= k < i + n ==> lens[k] == v
    ensures lens[..i] + Repeat(v, n) == lens[..i + n]
    ensures n == 1 ==> lens[..i] + [v] == lens[..i + 1]
  {
  }

  /** The length of the run of `v` from `i` on, at most `most`. */
  method RunOf(lens: seq<nat>, i: nat, v: nat, most: nat) returns (run: nat)
    requires i <= |lens|
    ensures run <= most && i + run <= |lens| && forall k :: i <= k < i + run ==> lens[k] == v
    ensures i < |lens| && lens[i] == v && most > 0 ==> run > 0
  {
    run := 0;
    while i + run < |lens| && lens[i + run] == v && run < most
      invariant run <= most && i + run <= |lens| && forall k :: i <= k < i + run ==> lens[k] == v
    {
      run := run + 1;
    }
  }

  /** One run of zeros: codes 18 and 17, and zeros one by one. */
  method PutZeros(lens: seq<nat>, i0: nat, run0: nat, out0: seq<Byte>, ocap: nat, ghost prev0: nat)
    returns (ok: bool, out: seq<Byte>, ghost prev: nat)
    requires i0 + run0 <= |lens| && run0 <= 138 && forall k :: i0 <= k < i0 + run0 ==> lens[k] == 0
    requires |out0| <= i0 && Reaches(out0, lens[..i0], prev0, |lens|)
    ensures |lens| <= ocap ==> ok
    ensures ok ==> |out| <= i0 + run0 && Reaches(out, lens[..i0 + run0], prev, |lens|)
  {
    hide Reaches;
    var i, run := i0, run0;
    ok, out, prev := true, out0, prev0;
    while run > 0
      invariant i + run == i0 + run0 && |out| <= i && Reaches(out, lens[..i], prev, |lens|)
      invariant forall k :: i <= k < i + run ==> lens[k] == 0
    {
      if run >= 3 {
        if |out| + 2 > ocap { return false, out, prev; }
        NextLengths(lens, i, 0, run);
        if run >= 11 {
          assert Reps(18, run - 11) == run;
          ReachesRun(out, lens[..i], prev, |lens|, 18, run - 11);
          out := out + [18, run - 11];
        } else {
          assert Reps(17, run - 3) == run;
          ReachesRun(out, lens[..i], prev, |lens|, 17, run - 3);
          out := out + [17, run - 3];
        }
        i, run := i + run, 0;
      } else {
        if |out| + 1 > ocap { return false, out, prev; }
        NextLengths(lens, i, 0, 1);
        ReachesLength(out, lens[..i], prev, |lens|, 0);
        out, prev := out + [0], 0;
        i, run := i + 1, run - 1;
      }
    }
  }

  /** A length and up to six repetitions of it: code 16, or the length spelt out again. */
  method PutRun(lens: seq<nat>, i0: nat, out0: seq<Byte>, ocap: nat, ghost prev0: nat)
    returns (ok: bool, out: seq<Byte>, i: nat)
    requires i0 < |lens| && 0 < lens[i0] <= 15
    requires |out0| <= i0 && Reaches(out0, lens[..i0], prev0, |lens|)
    ensures |lens| <= ocap ==> ok
    ensures ok ==> i0 < i <= |lens| && |out| <= i && Reaches(out, lens[..i], lens[i0], |lens|)
  {
    hide Reaches;
    var v := lens[i0];
    ok, out, i := true, out0, i0;
    if |out| + 1 > ocap { return false, out, i; }
    NextLengths(lens, i, v, 1);
    ReachesLength(out, lens[..i], prev0, |lens|, v);
    out, i := out + [v], i + 1;
    var run := RunOf(lens, i, v, 6);
    if run >= 3 {
      if |out| + 2 > ocap { return false, out, i; }
      NextLengths(lens, i, v, run);
      assert Reps(16, run - 3) == run;
      ReachesRun(out, lens[..i], v, |lens|, 16, run - 3);
      out := out + [16, run - 3];
      i, run := i + run, 0;
    }
    while run > 0
      invariant i0 < i && i + run <= |lens| && |out| <= i && Reaches(out, lens[..i], v, |lens|)
      invariant forall k :: i <= k < i + run ==> lens[k] == v
    {
      if |out| + 1 > ocap { return false, out, i; }
      NextLengths(lens, i, v, 1);
      ReachesLength(out, lens[..i], v, |lens|, v);
      out := out + [v];
      i, run := i + 1, run - 1;
    }
  }

  /** `cl_encode`: never longer than the lengths, so it cannot fail in a buffer of that size; the empty
      result stands for failure. */
  method ClEncode(lens: seq<nat>, ocap: nat) returns (out: seq<Byte>)
    requires forall i :: 0 <= i < |lens| ==> lens[i] <= 15
    ensures |lens| <= ocap ==> |out| <= |lens| && Expand(out, 0, [], 0, |lens|) == Lengths(lens, |out|)
    ensures |lens| <= ocap && lens != [] ==> out != []
  {
    hide Reaches;
    out := [];
    var i := 0;
    ghost var prev := 0;
    ReachesStart(|lens|);
    while i < |lens| && |out| < ocap
      invariant i <= |lens| && |out| <= i && Reaches(out, lens[..i], prev, |lens|)
      invariant i > 0 ==> out != [] || i == 0
      decreases |lens| - i
    {
      var ok;
      if lens[i] == 0 {
        var run := RunOf(lens, i, 0, 138);
        ok, out, prev := PutZeros(lens, i, run, out, ocap, prev);
        if !ok { return []; }
        i := i + run;
      } else {
        ghost var v := lens[i];
        ok, out, i := PutRun(lens, i, out, ocap, prev);
        if !ok { return []; }
        prev := v;
      }
      NotEmpty(out, lens[..i], prev, |lens|);
    }
    if i == |lens| {
      assert lens[..i] == lens;
      ReachesEnd(out, lens, prev);
    }
  }

  lemma NotEmpty(out: seq<Byte>, lens: seq<nat>, prev: nat, count: nat)
    requires Reaches(out, lens, prev, count) && lens != []
    ensures out != []
  {
    assert out + [] == out;
  }

  //////////////////////////////////////////////////////////////////////////////
  // Decoding
  //////////////////////////////////////////////////////////////////////////////

  /** `cl_decode`: the lengths go to the front of `lens`; the result is how much was read. */
  method ClDecode(s: seq<Byte>, lens: array<nat>, count: nat) returns (ok: bool, used: nat)
    requires count <= lens.Length
    modifies lens
    ensures var r := Expand(s, 0, [], 0, count);
            && ok == r.Lengths?
            && (ok ==> used == r.used && lens[..] == r.lens + old(lens[|r.lens|..]))
  {
    hide Expand;
    var li: nat, prev: nat := 0, 0;
    used := 0;
    while li < count && used < |s|
      invariant used <= |s| && li <= count && lens[li..] == old(lens[li..])
      invariant Expand(s, 0, [], 0, count) == Expand(s, used, lens[..li], prev, count)
      decreases |s| - used
    {
      ExpandStep(s, used, lens[..li], prev, count);
      var c := s[used];
      used := used + 1;
      if c <= 15 {
        ghost var was := lens[..li];
        lens[li] := c;
        assert lens[..li + 1] == was + [c as nat];
        li := li + 1;
        prev := c;
      } else if c <= 18 {
        if used >= |s| { return false, used; }
        var reps := Reps(c, s[used]);
        used := used + 1;
        li := Spread(lens, li, count, if c == 16 then prev else 0, reps);
      } else {
        return false, used;
      }
    }
    ExpandEnd(s, used, lens[..li], prev, count);
    ok := true;
    assert lens[..] == lens[..li] + lens[li..];
  }

  lemma ExpandStep(s: seq<Byte>, p: nat, lens: seq<nat>, prev: nat, count: nat)
    requires p < |s| && |lens| < count
    ensures var r := Expand(s, p, lens, prev, count);
            if s[p] <= 15 then r == Expand(s, p + 1, lens + [s[p] as nat], s[p], count)
            else if s[p] > 18 || p + 1 >= |s| then r == BadLengths
            else
              var reps := Reps(s[p], s[p + 1]);
              var n := if reps > count - |lens| then count - |lens| else reps;
              r == Expand(s, p + 2, lens + Repeat(if s[p] == 16 then prev else 0, n), prev, count)
  {
  }

  lemma ExpandEnd(s: seq<Byte>, p: nat, lens: seq<nat>, prev: nat, count: nat)
    requires p <= |s| && |lens| <= count && (|lens| >= count || p >= |s|)
    ensures Expand(s, p, lens, prev, count) == Lengths(lens, p)
  {
  }

  /** Repeats `v`, at most up to `count`. */
  method Spread(lens: array<nat>, li0: nat, count: nat, v: nat, reps: nat) returns (li: nat)
    requires li0 <= count <= lens.Length
    modifies lens
    ensures li == li0 + (if reps > count - li0 then count - li0 else reps)
    ensures lens[..li] == old(lens[..li0]) + Repeat(v, li - li0) && lens[li..] == old(lens[li..])
  {
    li := li0;
    var j := 0;
    while j < reps && li < count
      invariant j <= reps && li == li0 + j <= count
      invariant lens[..li0] == old(lens[..li0]) && lens[li..] == old(lens[li..])
      invariant forall k :: li0 <= k < li ==> lens[k] == v
    {
      lens[li] := v;
      li, j := li + 1, j + 1;
    }
    assert lens[..li] == lens[..li0] + lens[li0..li];
  }
}
