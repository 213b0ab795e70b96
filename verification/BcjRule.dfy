/** The x86 branch filter by what it does to each byte of a text, without running it (src/vv_bcj.c:45-105): which
    branch instructions are converted, and what their operands become. */
module BcjRule {
  import opened Arith
  import opened Bytes

  predicate Branch(b: Byte) {
    b == 0xE8 || b == 0xE9
  }

  /** The top byte of a displacement that fits 25 bits. */
  predicate Extreme(b: Byte) {
    b == 0x00 || b == 0xFF
  }

  /** `marks[p]` says that the branch at `p` is converted. */
  ghost predicate Marked(marks: seq<bool>, p: int) {
    0 <= p < |marks| && marks[p]
  }

  /** Not in the operand of a converted branch. */
  ghost predicate Clear(marks: seq<bool>, p: int) {
    !Marked(marks, p - 1) && !Marked(marks, p - 2) && !Marked(marks, p - 3) && !Marked(marks, p - 4)
  }

  /** A branch opcode `d` bytes before `p` that was seen and passed over. */
  ghost predicate Passed(s: seq<Byte>, marks: seq<bool>, p: int, d: nat) {
    0 <= p - d < |s| && Branch(s[p - d]) && Clear(marks, p - d) && !Marked(marks, p - d)
  }

  /** How many of them are in the three bytes before `p`. */
  ghost function Passes(s: seq<Byte>, marks: seq<bool>, p: int): nat {
    (if Passed(s, marks, p, 1) then 1 else 0) + (if Passed(s, marks, p, 2) then 1 else 0) + (if Passed(s, marks, p, 3) then 1 else 0)
  }

  /** How far back the only one is, and 0 if there is none. */
  ghost function Back(s: seq<Byte>, marks: seq<bool>, p: int): (d: nat)
    ensures d <= 3
  {
    if Passed(s, marks, p, 1) then 1 else if Passed(s, marks, p, 2) then 2 else if Passed(s, marks, p, 3) then 3 else 0
  }

  /** A branch is converted when it is not in an operand, its displacement fits, and of the three bytes before it
      at most one holds a branch that was passed over, for not fitting. */
  ghost predicate Converts(s: seq<Byte>, marks: seq<bool>, p: nat) {
    && p + 5 <= |s| && Branch(s[p]) && Clear(marks, p) && Extreme(s[p + 4]) && Passes(s, marks, p) <= 1
    && (Back(s, marks, p) > 0 ==> !Extreme(s[p - Back(s, marks, p) + 4]))
  }

  const LIMIT: int := 0x200_0000

  /** The low 25 bits of a displacement. */
  function Displacement(s: seq<Byte>, p: nat): (v: int)
    requires p + 5 <= |s|
    ensures 0 <= v < LIMIT
  {
    var b1: int, b2: int, b3: int, b4: int := s[p + 1], s[p + 2], s[p + 3], s[p + 4];
    b1 + 0x100 * b2 + 0x1_0000 * b3 + 0x100_0000 * (b4 % 2)
  }

  /** The displacement moved to or from the end of the instruction, which is five bytes behind its start. */
  function Moved(v: int, ip: int, p: int, encoding: bool): int {
    (if encoding then v + (ip + p + 5) else v - (ip + p + 5)) % LIMIT
  }

  /** The bits of the operand that the passed branch `d` back takes for its own, as a modulus, and its top byte. */
  function Shared(d: nat): int {
    if d == 1 then 0x100_0000 else if d == 2 then 0x1_0000 else 0x100
  }

  predicate Spoiled(v: int, d: nat) {
    var top := v % Shared(d) / (Shared(d) / 0x100);
    top == 0 || top == 0xFF
  }

  /** What a converted displacement becomes: moved, and if that made the byte extreme that an earlier branch was
      passed over for, moved again with the shared bits complemented. */
  function Result(v: int, ip: int, p: int, d: nat, encoding: bool): int {
    var w := Moved(v, ip, p, encoding);
    if d > 0 && Spoiled(w, d) then Moved(w - w % Shared(d) + (Shared(d) - 1 - w % Shared(d)), ip, p, encoding) else w
  }

  /** `r` is the filtered text: converted operands hold their results with the sign in the top byte, all else stays. */
  ghost predicate Filtered(s: seq<Byte>, r: seq<Byte>, ip: int, marks: seq<bool>, encoding: bool) {
    && |r| == |s| == |marks|
    && (forall p :: 0 <= p < |s| ==> Settled(s, r, ip, marks, p, encoding))
  }

  ghost predicate Settled(s: seq<Byte>, r: seq<Byte>, ip: int, marks: seq<bool>, p: nat, encoding: bool)
    requires |r| == |s| == |marks| && p < |s|
  {
    && marks[p] == Converts(s, marks, p)
    && (Clear(marks, p) ==> r[p] == s[p])
    && (marks[p] ==> Displacement(r, p) == Result(Displacement(s, p), ip, p, Back(s, marks, p), encoding))
    && (marks[p] ==> r[p + 4] == if Displacement(r, p) < 0x100_0000 then 0x00 else 0xFF)
  }

  /** A branch that fits, with no branch opcode in the four bytes before it. */
  ghost predicate Lone(s: seq<Byte>, p: nat) {
    && p + 5 <= |s| && Branch(s[p]) && Extreme(s[p + 4])
    && forall k :: 0 <= k < |s| && p - 4 <= k < p ==> !Branch(s[k])
  }

  /** It is converted, by adding or taking away the position of the next instruction. */
  lemma LoneConverts(s: seq<Byte>, r: seq<Byte>, ip: int, marks: seq<bool>, p: nat, encoding: bool)
    requires Filtered(s, r, ip, marks, encoding) && Lone(s, p)
    ensures Displacement(r, p) == Moved(Displacement(s, p), ip, p, encoding)
    ensures r[p + 4] == if Displacement(r, p) < 0x100_0000 then 0x00 else 0xFF
  {
    hide Displacement, Moved;
    assert Settled(s, r, ip, marks, p, encoding);
    assert Clear(marks, p) by {
      forall k: nat | p - 4 <= k < p ensures !marks[k] {
        assert Settled(s, r, ip, marks, k, encoding);
      }
    }
  }

  /** What the filter is for: two calls of one target hold the same bytes after encoding. */
  lemma SameTarget(s: seq<Byte>, r: seq<Byte>, ip: int, marks: seq<bool>, p: nat, q: nat)
    requires Filtered(s, r, ip, marks, true) && Lone(s, p) && Lone(s, q)
    requires (Displacement(s, p) + p) % LIMIT == (Displacement(s, q) + q) % LIMIT
    ensures r[p + 1..p + 5] == r[q + 1..q + 5]
  {
    assert |r| == |s|;
    hide Filtered, Displacement, Branch, Extreme;
    LoneConverts(s, r, ip, marks, p, true);
    LoneConverts(s, r, ip, marks, q, true);
    var v, w := Displacement(s, p) + p, Displacement(s, q) + q;
    ModSum(v, ip + 5, LIMIT);
    ModSum(w, ip + 5, LIMIT);
    SameBytes(r, p, q);
  }

  lemma SameBytes(r: seq<Byte>, p: nat, q: nat)
    requires p + 5 <= |r| && q + 5 <= |r| && Displacement(r, p) == Displacement(r, q) && r[p + 4] == r[q + 4]
    ensures r[p + 1..p + 5] == r[q + 1..q + 5]
  {
    Digits(r, p);
    Digits(r, q);
  }

  lemma Digits(r: seq<Byte>, p: nat)
    requires p + 5 <= |r|
    ensures r[p + 1] == Displacement(r, p) % 0x100
    ensures r[p + 2] == Displacement(r, p) / 0x100 % 0x100
    ensures r[p + 3] == Displacement(r, p) / 0x1_0000 % 0x100
  {
    var b1: int, b2: int, b3: int, b4: int := r[p + 1], r[p + 2], r[p + 3], r[p + 4] % 2;
    DivModUnique(Displacement(r, p), 0x100, b2 + 0x100 * b3 + 0x1_0000 * b4, b1);
    DivModUnique(b2 + 0x100 * b3 + 0x1_0000 * b4, 0x100, b3 + 0x100 * b4, b2);
    DivModUnique(Displacement(r, p), 0x1_0000, b3 + 0x100 * b4, b1 + 0x100 * b2);
    DivModUnique(b3 + 0x100 * b4, 0x100, b4, b3);
  }

  /** The rule leaves no choice: what is converted, and so the whole text, follows from the text. */
  lemma {:induction false} SameMarks(s: seq<Byte>, r: seq<Byte>, t: seq<Byte>, ip: int, m: seq<bool>, n: seq<bool>, encoding: bool, p: nat)
    requires Filtered(s, r, ip, m, encoding) && Filtered(s, t, ip, n, encoding) && p <= |s|
    ensures m[..p] == n[..p]
  {
    if p > 0 {
      SameMarks(s, r, t, ip, m, n, encoding, p - 1);
      SameConverts(s, m, n, p - 1);
      assert Settled(s, r, ip, m, p - 1, encoding) && Settled(s, t, ip, n, p - 1, encoding);
      assert m[..p] == m[..p - 1] + [m[p - 1]] && n[..p] == n[..p - 1] + [n[p - 1]];
    }
  }

  lemma SameConverts(s: seq<Byte>, m: seq<bool>, n: seq<bool>, p: nat)
    requires p <= |m| && p <= |n| && m[..p] == n[..p] && p < |s|
    ensures Converts(s, m, p) == Converts(s, n, p)
  {
    forall k: int | k < p ensures Marked(m, k) == Marked(n, k) {
      if k >= 0 {
        assert m[k] == m[..p][k] && n[k] == n[..p][k];
      }
    }
  }

  lemma Unmarked(m: seq<bool>, p: nat)
    requires !Clear(m, p)
    ensures exists k: nat :: p - 4 <= k < p && Marked(m, k)
  {
    assert Marked(m, p - 1) || Marked(m, p - 2) || Marked(m, p - 3) || Marked(m, p - 4);
  }

  /** So at most one text is the filtered one. */
  lemma OneResult(s: seq<Byte>, r: seq<Byte>, t: seq<Byte>, ip: int, m: seq<bool>, n: seq<bool>, encoding: bool)
    requires Filtered(s, r, ip, m, encoding) && Filtered(s, t, ip, n, encoding)
    ensures r == t
  {
    hide Clear, Converts, Displacement, Result, Back;
    SameMarks(s, r, t, ip, m, n, encoding, |s|);
    assert m == m[..|s|] && n == n[..|s|];
    forall p: nat | p < |s| ensures r[p] == t[p] {
      assert Settled(s, r, ip, m, p, encoding) && Settled(s, t, ip, n, p, encoding);
      if !Clear(m, p) {
        Unmarked(m, p);
        var k: nat :| p - 4 <= k < p && Marked(m, k);
        assert Settled(s, r, ip, m, k, encoding) && Settled(s, t, ip, n, k, encoding);
        MarkedFits(s, r, ip, m, k, encoding);
        Digits(r, k);
        Digits(t, k);
      }
    }
  }

  lemma MarkedFits(s: seq<Byte>, r: seq<Byte>, ip: int, m: seq<bool>, k: nat, encoding: bool)
    requires Filtered(s, r, ip, m, encoding) && Marked(m, k)
    ensures k + 5 <= |s|
  {
    assert Settled(s, r, ip, m, k, encoding);
  }
}
