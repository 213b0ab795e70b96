/** Run-length coding of zero bytes (`rle_encode` and `rle_decode`, src/zupt_lzh.c:112-144): a zero is
    followed by how often it is repeated, a lone zero by another zero. */
module LzhRle {
  import opened Bytes

  function ZeroBytes(n: nat): (r: seq<Byte>)
    ensures |r| == n && forall i :: 0 <= i < n ==> r[i] == 0
  {
    seq(n, _ => 0)
  }

  /** How many zeros a count byte stands for. */
  function Zeros(n: Byte): (k: nat)
    ensures k > 0
  {
    if n == 0 then 1 else n
  }

  datatype Unpacked = TooLong | Unpacked(out: seq<Byte>)

  /** The decoder from position `p`, with `out` written so far. */
  function Unpack(s: seq<Byte>, p: nat, out: seq<Byte>, cap: nat): (r: Unpacked)
    requires p <= |s| && |out| <= cap
    ensures r.Unpacked? ==> |r.out| <= cap
    decreases |s| - p
  {
    if p >= |s| || |out| >= cap then Unpacked(out)
    else if s[p] == 0 && p + 1 < |s| then
      if s[p + 1] == 0 then Unpack(s, p + 2, out + [0], cap)
      else if |out| + s[p + 1] > cap then TooLong
      else Unpack(s, p + 2, out + ZeroBytes(s[p + 1]), cap)
    else Unpack(s, p + 1, out + [s[p]], cap)
  }

  /** `rle_decode`: a run that does not fit gives nothing at all. */
  function Decoded(s: seq<Byte>, cap: nat): (r: seq<Byte>)
    ensures |r| <= cap
  {
    match Unpack(s, 0, [], cap)
    case TooLong => []
    case Unpacked(out) => out
  }

  //////////////////////////////////////////////////////////////////////////////
  // Encoding
  //////////////////////////////////////////////////////////////////////////////

  /** Whatever follows `out`, a decoder with room for `most` bytes gets behind it with `done`. */
  ghost predicate Reaches(out: seq<Byte>, done: seq<Byte>, most: nat) {
    && |done| <= most
    && forall tail: seq<Byte>, cap: nat :: cap >= most ==> Unpack(out + tail, 0, [], cap) == Unpack(out + tail, |out|, done, cap)
  }

  lemma ReachesStart(most: nat)
    ensures Reaches([], [], most)
  {
  }

  lemma ReachesEnd(out: seq<Byte>, done: seq<Byte>, most: nat, cap: nat)
    requires Reaches(out, done, most) && cap >= most
    ensures Decoded(out, cap) == done
  {
    assert out + [] == out;
  }

  lemma ReachesByte(out: seq<Byte>, done: seq<Byte>, most: nat, b: Byte)
    requires Reaches(out, done, most) && |done| < most && b != 0
    ensures Reaches(out + [b], done + [b], most)
  {
    forall tail: seq<Byte>, cap: nat | cap >= most
      ensures Unpack(out + [b] + tail, 0, [], cap) == Unpack(out + [b] + tail, |out + [b]|, done + [b], cap)
    {
      assert out + [b] + tail == out + ([b] + tail);
      assert (out + [b] + tail)[|out|] == b;
    }
  }

  lemma ReachesZeros(out: seq<Byte>, done: seq<Byte>, most: nat, n: Byte)
    requires Reaches(out, done, most) && |done| < most && |done| + n <= most
    ensures Reaches(out + [0, n], done + ZeroBytes(Zeros(n)), most)
  {
    var now := done + ZeroBytes(Zeros(n));
    forall tail: seq<Byte>, cap: nat | cap >= most
      ensures Unpack(out + [0, n] + tail, 0, [], cap) == Unpack(out + [0, n] + tail, |out + [0, n]|, now, cap)
    {
      var s := out + [0, n] + tail;
      assert s == out + ([0, n] + tail);
      assert s[|out|] == 0 && s[|out| + 1] == n;
      assert ZeroBytes(1) == [0];
    }
  }

  /** How many zeros stand at `i`, at most `most`. */
  function Leading(s: seq<Byte>, i: nat, most: nat): (n: nat)
    ensures n <= most && (i <= |s| ==> i + n <= |s|)
    ensures i < |s| && s[i] == 0 && most > 0 ==> n > 0
    decreases most
  {
    if most == 0 || i >= |s| || s[i] != 0 then 0 else 1 + Leading(s, i + 1, most - 1)
  }

  lemma {:induction false} LeadingIs(s: seq<Byte>, i: nat, n: nat, most: nat)
    requires i + n <= |s| && n <= most && forall k :: i <= k < i + n ==> s[k] == 0
    requires n == most || i + n == |s| || s[i + n] != 0
    ensures Leading(s, i, most) == n
    decreases n
  {
    if n > 0 {
      LeadingIs(s, i + 1, n - 1, most - 1);
    }
  }

  /** The size of the coded bytes from `i` on: two for every 255 zeros of a run or part of that, one for each other
      byte. */
  function Packed(s: seq<Byte>, i: nat): nat
    decreases |s| - i
  {
    if i >= |s| then 0
    else if s[i] != 0 then 1 + Packed(s, i + 1)
    else 2 + Packed(s, i + Leading(s, i, 255))
  }

  /** How many zeros stand at `i`, at most 65535. */
  method ZeroRun(s: seq<Byte>, i: nat) returns (run: nat)
    requires i < |s| && s[i] == 0
    ensures 1 <= run && i + run <= |s| && forall k :: i <= k < i + run ==> s[k] == 0
    ensures run <= 65535 && (run == 65535 || i + run == |s| || s[i + run] != 0)
  {
    run := 0;
    while i + run < |s| && s[i + run] == 0 && run < 65535
      invariant run <= 65535 && i + run <= |s| && forall k :: i <= k < i + run ==> s[k] == 0
      invariant run == 0 ==> s[i + run] == 0
    {
      run := run + 1;
    }
  }

  lemma NextZeros(s: seq<Byte>, i: nat, n: nat)
    requires i + n <= |s| && forall k :: i <= k < i + n ==> s[k] == 0
    ensures s[..i] + ZeroBytes(n) == s[..i + n]
  {
  }

  /** A zero byte and its count. */
  method PutPair(s: seq<Byte>, i: nat, n: Byte, d: array<Byte>, op: nat)
    requires i + Zeros(n) <= |s| && op + 2 <= d.Length && Reaches(d[..op], s[..i], |s|)
    requires forall k :: i <= k < i + Zeros(n) ==> s[k] == 0
    modifies d
    ensures Reaches(d[..op + 2], s[..i + Zeros(n)], |s|)
  {
    hide Reaches;
    ReachesZeros(d[..op], s[..i], |s|, n);
    NextZeros(s, i, Zeros(n));
    ghost var was := d[..op];
    d[op], d[op + 1] := 0, n;
    assert d[..op + 2] == was + [0, n];
  }

  lemma PackedRun(s: seq<Byte>, i: nat, n: nat)
    requires 1 <= n <= 255 && i + n <= |s| && forall k :: i <= k < i + n ==> s[k] == 0
    requires n == 255 || i + n == |s| || s[i + n] != 0
    ensures Packed(s, i) == 2 + Packed(s, i + n)
  {
    hide Leading;
    LeadingIs(s, i, n, 255);
  }

  /** A run of zeros, 255 at a time. */
  method PutZeros(s: seq<Byte>, i0: nat, run0: nat, d: array<Byte>, op0: nat) returns (ok: bool, op: nat)
    requires 1 <= run0 && i0 + run0 <= |s| && forall k :: i0 <= k < i0 + run0 ==> s[k] == 0
    requires run0 == 65535 || i0 + run0 == |s| || s[i0 + run0] != 0
    requires run0 <= 65535 && op0 <= d.Length && Reaches(d[..op0], s[..i0], |s|)
    modifies d
    ensures ok ==> op <= d.Length && Reaches(d[..op], s[..i0 + run0], |s|)
    ensures if ok then op + Packed(s, i0 + run0) == op0 + Packed(s, i0) else op0 + Packed(s, i0) > d.Length
  {
    hide Reaches, Packed, Leading;
    ghost var total := op0 + Packed(s, i0);
    var i: nat, run: nat := i0, run0;
    op := op0;
    if run == 1 {
      PackedRun(s, i, 1);
      if op + 2 > d.Length { return false, op; }
      PutPair(s, i, 0, d, op);
      return true, op + 2;
    }
    while run > 0
      invariant i + run == i0 + run0 && op <= d.Length && Reaches(d[..op], s[..i], |s|)
      invariant total == op + Packed(s, i) && (run0 == 65535 ==> run % 255 == 0)
    {
      var ch := if run > 255 then 255 else run;
      PackedRun(s, i, ch);
      if op + 2 > d.Length { return false, op; }
      PutPair(s, i, ch, d, op);
      op, i, run := op + 2, i + ch, run - ch;
    }
    ok := true;
  }

  /** `rle_encode`: the size of the coding if that fits and is shorter, else 0. What it accepts decodes to the source in
      any buffer that can hold it. */
  method RleEncode(s: seq<Byte>, d: array<Byte>) returns (n: nat)
    modifies d
    ensures n <= d.Length && (n > 0 ==> n < |s|)
    ensures var size := Packed(s, 0); n == if size <= d.Length && size < |s| then size else 0
    ensures n > 0 ==> forall cap: nat :: cap >= |s| ==> Decoded(d[..n], cap) == s
  {
    hide Reaches, Decoded, Leading;
    var i: nat, op: nat := 0, 0;
    assert d[..0] == [] && s[..0] == [];
    ReachesStart(|s|);
    while i < |s|
      invariant i <= |s| && op <= d.Length && Reaches(d[..op], s[..i], |s|)
      invariant op + Packed(s, i) == Packed(s, 0)
      decreases |s| - i
    {
      if s[i] == 0 {
        var run := ZeroRun(s, i);
        var ok;
        ok, op := PutZeros(s, i, run, d, op);
        if !ok { return 0; }
        i := i + run;
      } else {
        if op + 1 > d.Length { return 0; }
        ReachesByte(d[..op], s[..i], |s|, s[i]);
        ghost var was := d[..op];
        d[op] := s[i];
        assert d[..op + 1] == was + [s[i]];
        assert s[..i + 1] == s[..i] + [s[i]];
        i, op := i + 1, op + 1;
      }
    }
    assert s[..i] == s;
    forall cap: nat | cap >= |s|
      ensures Decoded(d[..op], cap) == s
    {
      ReachesEnd(d[..op], s, |s|, cap);
    }
    n := if op < |s| then op else 0;
  }

  //////////////////////////////////////////////////////////////////////////////
  // Decoding
  //////////////////////////////////////////////////////////////////////////////

  /** `rle_decode` of the first `n` bytes of `s`, into the first `cap` bytes of `d`. */
  method RleDecode(s: seq<Byte>, d: array<Byte>, cap: nat) returns (op: nat)
    requires cap <= d.Length
    modifies d
    ensures op <= cap && d[..op] == Decoded(s, cap)
  {
    hide Unpack;
    var i: nat := 0;
    op := 0;
    assert d[..0] == [];
    while i < |s| && op < cap
      invariant i <= |s| && op <= cap && Unpack(s, 0, [], cap) == Unpack(s, i, d[..op], cap)
      decreases |s| - i
    {
      UnpackStep(s, i, d[..op], cap);
      ghost var was := d[..op];
      if s[i] == 0 && i + 1 < |s| {
        var c := s[i + 1];
        i := i + 2;
        if c == 0 {
          d[op] := 0;
          assert d[..op + 1] == was + [0];
          op := op + 1;
        } else {
          if op + c > cap { return 0; }
          forall k | op <= k < op + c {
            d[k] := 0;
          }
          assert d[..op + c] == was + ZeroBytes(c);
          op := op + c;
        }
      } else {
        d[op] := s[i];
        assert d[..op + 1] == was + [s[i]];
        i, op := i + 1, op + 1;
      }
    }
    UnpackEnd(s, i, d[..op], cap);
  }

  lemma UnpackStep(s: seq<Byte>, p: nat, out: seq<Byte>, cap: nat)
    requires p < |s| && |out| < cap
    ensures Unpack(s, p, out, cap) ==
            if s[p] == 0 && p + 1 < |s| then
              if s[p + 1] == 0 then Unpack(s, p + 2, out + [0], cap)
              else if |out| + s[p + 1] > cap then TooLong
              else Unpack(s, p + 2, out + ZeroBytes(s[p + 1]), cap)
            else Unpack(s, p + 1, out + [s[p]], cap)
  {
  }

  lemma UnpackEnd(s: seq<Byte>, p: nat, out: seq<Byte>, cap: nat)
    requires p <= |s| && |out| <= cap && (p >= |s| || |out| >= cap)
    ensures Unpack(s, p, out, cap) == Unpacked(out)
  {
  }
}
