/** Canonical codes (`assign_canonical_codes`, `reverse_bits`, src/vv_huffman.c:121-129, 310-335),
    as in section 3.2.2 of RFC 1951. */
module HuffCode {
  import opened Arith
  import opened BitIo
  import opened Bits
  import opened Bytes
  import opened HuffLengths

  //////////////////////////////////////////////////////////////////////////////
  // Code words
  //////////////////////////////////////////////////////////////////////////////

  /** The low `len` bits of a code, most significant first: the order they appear in the stream. */
  function Word(code: nat, len: nat): (w: seq<bool>)
    ensures |w| == len
  {
    if len == 0 then [] else Word(code / 2, len - 1) + [code % 2 == 1]
  }

  lemma {:induction false} WordFront(code: nat, len: nat)
    ensures Word(code, len + 1) == [code / Pow2(len) % 2 == 1] + Word(code, len)
    decreases len
  {
    if len > 0 {
      WordFront(code / 2, len - 1);
      assert code / 2 / Pow2(len - 1) == code / Pow2(len) by { DivTwice(code, 2, Pow2(len - 1)); }
    }
  }

  lemma DivTwice(a: nat, b: nat, c: nat)
    requires b > 0 && c > 0 && b * c > 0
    ensures a / b / c == a / (b * c)
  {
    var q, r := a / b / c, a / b % c;
    assert a == (q * c + r) * b + a % b;
    assert (q * c + r) * b == q * (b * c) + r * b;
    MulMono(r, c - 1, b);
    DivModUnique(a, b * c, q, r * b + a % b);
  }

  /** A prefix of a code word is the code word of the quotient. */
  lemma {:induction false} WordPrefix(code: nat, len: nat, k: nat)
    requires k <= len
    ensures Word(code, len)[..k] == Word(code / Pow2(len - k), k)
    decreases len
  {
    if k < len {
      WordPrefix(code / 2, len - 1, k);
      DivTwice(code, 2, Pow2(len - 1 - k));
      assert Word(code, len)[..k] == Word(code / 2, len - 1)[..k];
    }
  }

  lemma {:induction false} WordInjective(a: nat, b: nat, len: nat)
    requires a < Pow2(len) && b < Pow2(len) && Word(a, len) == Word(b, len)
    ensures a == b
    decreases len
  {
    if len > 0 {
      var x, y := Word(a, len), Word(b, len);
      assert x[..len - 1] == Word(a / 2, len - 1) && y[..len - 1] == Word(b / 2, len - 1);
      assert x[len - 1] == y[len - 1];
      WordInjective(a / 2, b / 2, len - 1);
    }
  }

  /** `reverse_bits`. */
  method ReverseBits(code: nat, len: nat) returns (rev: nat)
    ensures rev == Val(Word(code, len)) < Pow2(len)
  {
    var c: nat := code;
    rev := 0;
    for i := 0 to len
      invariant rev == Val(Word(code, i)) && c == code / Pow2(i)
    {
      WordFront(code, i);
      assert Word(code, i + 1)[1..] == Word(code, i);
      rev := 2 * rev + c % 2;
      DivTwice(code, Pow2(i), 2);
      c := c / 2;
    }
    ValBound(Word(code, len));
  }

  //////////////////////////////////////////////////////////////////////////////
  // Canonical codes
  //////////////////////////////////////////////////////////////////////////////

  const LEVELS: nat := 16

  /** How many symbols have each length from 1 to 15. */
  function Counts(lengths: seq<nat>): (bl: seq<nat>)
    ensures |bl| == LEVELS && bl[0] == 0
  {
    if lengths == [] then Zeros(LEVELS)
    else
      var bl, len := Counts(lengths[..|lengths| - 1]), lengths[|lengths| - 1];
      if 1 <= len <= MAX_CODE_LEN then bl[len := bl[len] + 1] else bl
  }

  lemma {:induction false} CountsKraft(lengths: seq<nat>)
    ensures KraftCount(Counts(lengths), MAX_CODE_LEN) == Kraft(lengths)
    decreases |lengths|
  {
    if lengths == [] {
      KraftEmpty(Counts(lengths), MAX_CODE_LEN);
    } else {
      var n := |lengths| - 1;
      CountsKraft(lengths[..n]);
      if 1 <= lengths[n] <= MAX_CODE_LEN {
        KraftMore(Counts(lengths[..n]), MAX_CODE_LEN, lengths[n]);
      }
    }
  }

  /** The first code of each length, in 16-bit arithmetic. */
  function FirstCode(bl: seq<nat>, len: nat): (c: nat)
    requires len < |bl|
    ensures c < 0x1_0000
  {
    if len == 0 then 0 else (FirstCode(bl, len - 1) + bl[len - 1]) * 2 % 0x1_0000
  }

  /** A symbol's code: after the codes of its length given to smaller symbols. */
  function Code(lengths: seq<nat>, s: nat): nat
    requires s < |lengths| && lengths[s] <= MAX_CODE_LEN
  {
    (FirstCode(Counts(lengths), lengths[s]) + Counts(lengths[..s])[lengths[s]]) % 0x1_0000
  }

  function WordOf(lengths: seq<nat>, s: nat): (w: seq<bool>)
    requires s < |lengths| && lengths[s] <= MAX_CODE_LEN
    ensures |w| == lengths[s]
  {
    Word(Code(lengths, s), lengths[s])
  }

  lemma {:induction false} KraftRises(bl: seq<nat>, a: nat, b: nat)
    requires a <= b < |bl| && b <= MAX_CODE_LEN
    ensures KraftCount(bl, a) <= KraftCount(bl, b)
    decreases b
  {
    if a < b {
      KraftRises(bl, a, b - 1);
      assert bl[b] * Pow2(MAX_CODE_LEN - b) >= 0;
    }
  }

  /** The codes of one length end within its words, if they start where the shorter ones end. */
  lemma CodesEnd(bl: seq<nat>, len: nat)
    requires |bl| == LEVELS && KraftCount(bl, MAX_CODE_LEN) <= FULL && 1 <= len <= MAX_CODE_LEN
    requires FirstCode(bl, len) * Pow2(MAX_CODE_LEN - len) == KraftCount(bl, len - 1)
    ensures FirstCode(bl, len) + bl[len] <= Pow2(len)
  {
    hide KraftCount, FirstCode, Pow2;
    KraftLevel(bl, len);
    KraftRises(bl, len, MAX_CODE_LEN);
    FullIsPow2();
    Pow2Add(len, MAX_CODE_LEN - len);
    Scaled(FirstCode(bl, len), bl[len], Pow2(MAX_CODE_LEN - len), Pow2(len));
  }

  /** Without over-subscription, the codes of each length start where the shorter ones end, and
      nothing wraps. */
  lemma {:induction false} CodesFit(bl: seq<nat>, len: nat)
    requires |bl| == LEVELS && bl[0] == 0 && KraftCount(bl, MAX_CODE_LEN) <= FULL && 1 <= len <= MAX_CODE_LEN
    ensures FirstCode(bl, len) * Pow2(MAX_CODE_LEN - len) == KraftCount(bl, len - 1)
    ensures FirstCode(bl, len) + bl[len] <= Pow2(len)
    ensures len > 1 ==> FirstCode(bl, len) == 2 * (FirstCode(bl, len - 1) + bl[len - 1])
    decreases len
  {
    hide KraftCount;
    KraftLevel(bl, 1);
    if len > 1 {
      CodesFit(bl, len - 1);
      KraftLevel(bl, len - 1);
      var p, a, b := Pow2(MAX_CODE_LEN - len), FirstCode(bl, len - 1), bl[len - 1];
      Pow2Monotone(len, MAX_CODE_LEN);
      FullIsPow2();
      NoWrap(a + b, Pow2(len - 1));
      assert FirstCode(bl, len) == 2 * (a + b);
      assert Pow2(MAX_CODE_LEN - (len - 1)) == 2 * p;
      Doubling(a, b, p);
    } else {
      assert FirstCode(bl, 0) == 0 && FirstCode(bl, 1) == 0;
    }
    CodesEnd(bl, len);
  }

  lemma NoWrap(c: nat, p: nat)
    requires c <= p && 2 * p <= 0x8000
    ensures c * 2 % 0x1_0000 == 2 * c
  {
  }

  lemma KraftLevel(bl: seq<nat>, len: nat)
    requires 1 <= len < |bl| && len <= MAX_CODE_LEN
    ensures KraftCount(bl, len) == KraftCount(bl, len - 1) + bl[len] * Pow2(MAX_CODE_LEN - len)
    ensures KraftCount(bl, 0) == 0
  {
  }

  lemma Doubling(a: nat, b: nat, p: nat)
    ensures 2 * (a + b) * p == a * (2 * p) + b * (2 * p)
  {
  }

  lemma Scaled(a: nat, b: nat, p: nat, top: nat)
    requires p > 0 && a * p + b * p <= top * p
    ensures a + b <= top
  {
    var d := a + b - top;
    assert d * p == a * p + b * p - top * p;
    MulSign(d, p);
  }

  //////////////////////////////////////////////////////////////////////////////
  // Prefix freedom
  //////////////////////////////////////////////////////////////////////////////

  /** Lengths a decoder can work with. */
  ghost predicate Usable(lengths: seq<nat>) {
    |lengths| == SYMBOLS && Decodable(lengths)
  }

  /** The same, for an alphabet of any size. */
  ghost predicate Decodable(lengths: seq<nat>) {
    (forall s :: 0 <= s < |lengths| ==> lengths[s] <= MAX_CODE_LEN) && Kraft(lengths) <= FULL
  }

  lemma {:induction false} CountsRise(lengths: seq<nat>, a: nat, b: nat, len: nat)
    requires a <= b <= |lengths| && len < LEVELS
    ensures Counts(lengths[..a])[len] <= Counts(lengths[..b])[len]
    ensures a < b && lengths[a] == len && len > 0 ==> Counts(lengths[..a])[len] < Counts(lengths[..b])[len]
    decreases b
  {
    if a < b {
      CountsRise(lengths, a, b - 1, len);
      assert lengths[..b][..b - 1] == lengths[..b - 1];
    }
  }

  /** A present symbol's code, without wrap-around, within the codes of its length. */
  lemma CodeInPlace(lengths: seq<nat>, s: nat)
    requires Decodable(lengths) && s < |lengths| && lengths[s] > 0
    ensures var (bl, l) := (Counts(lengths), lengths[s]);
            && Counts(lengths[..s])[l] < bl[l]
            && Code(lengths, s) == FirstCode(bl, l) + Counts(lengths[..s])[l] < FirstCode(bl, l) + bl[l] <= Pow2(l) <= FULL
  {
    hide KraftCount, FirstCode, Counts, Kraft;
    var bl, l := Counts(lengths), lengths[s];
    CountsKraft(lengths);
    CodesFit(bl, l);
    assert lengths[..|lengths|] == lengths;
    CountsRise(lengths, s, |lengths|, l);
    Pow2Monotone(l, MAX_CODE_LEN);
    FullIsPow2();
  }

  /** Codes of a longer length start at or after the extensions of all shorter codes. */
  lemma {:induction false} LongerAfter(bl: seq<nat>, la: nat, lb: nat)
    requires |bl| == LEVELS && bl[0] == 0 && KraftCount(bl, MAX_CODE_LEN) <= FULL && 1 <= la < lb <= MAX_CODE_LEN
    ensures FirstCode(bl, lb) >= (FirstCode(bl, la) + bl[la]) * Pow2(lb - la)
    decreases lb
  {
    hide KraftCount, FirstCode;
    CodesFit(bl, lb);
    if la + 1 < lb {
      LongerAfter(bl, la, lb - 1);
      MulAssociative(FirstCode(bl, la) + bl[la], Pow2(lb - 1 - la), 2);
    } else {
      assert Pow2(1) == 2;
    }
  }

  lemma QuotientAtLeast(c: nat, q: nat, p: nat)
    requires p > 0 && c >= q * p
    ensures c / p >= q
  {
    var d := q - c / p;
    assert d * p == q * p - c / p * p;
    MulSign(d, p);
  }

  lemma QuotientBelow(c: nat, p: nat, top: nat)
    requires p > 0 && c < top * p
    ensures c / p < top
  {
    DigitBound(c, p, top);
  }

  /** A longer code does not extend a shorter one. */
  lemma NotExtended(lengths: seq<nat>, a: nat, b: nat)
    requires Decodable(lengths) && a < |lengths| && b < |lengths| && 0 < lengths[a] < lengths[b]
    ensures Code(lengths, b) / Pow2(lengths[b] - lengths[a]) > Code(lengths, a)
  {
    hide KraftCount, FirstCode, Counts, Kraft, Pow2, Code;
    var bl, la, lb := Counts(lengths), lengths[a], lengths[b];
    CodeInPlace(lengths, a);
    CodeInPlace(lengths, b);
    CountsKraft(lengths);
    LongerAfter(bl, la, lb);
    var p := Pow2(lb - la);
    MulMono(Code(lengths, a) + 1, FirstCode(bl, la) + bl[la], p);
    QuotientAtLeast(Code(lengths, b), Code(lengths, a) + 1, p);
  }

  lemma SameLengthDiffer(lengths: seq<nat>, a: nat, b: nat)
    requires Decodable(lengths) && a < b < |lengths| && 0 < lengths[a] == lengths[b]
    ensures Code(lengths, a) < Code(lengths, b)
  {
    hide KraftCount, FirstCode, Counts, Kraft, Pow2, Code;
    CodeInPlace(lengths, a);
    CodeInPlace(lengths, b);
    CountsRise(lengths, a, b, lengths[a]);
  }

  /** A word that is a prefix of another has the quotient of its code. */
  lemma PrefixQuotient(ca: nat, la: nat, cb: nat, lb: nat)
    requires ca < Pow2(la) && cb < Pow2(lb) && Word(ca, la) <= Word(cb, lb)
    ensures la <= lb && ca == cb / Pow2(lb - la)
  {
    hide Pow2, Word;
    assert la <= lb && Word(cb, lb)[..la] == Word(ca, la);
    WordPrefix(cb, lb, la);
    assert cb / Pow2(lb - la) < Pow2(la) by {
      Pow2Add(la, lb - la);
      QuotientBelow(cb, Pow2(lb - la), Pow2(la));
    }
    WordInjective(ca, cb / Pow2(lb - la), la);
  }

  /** No code word is a prefix of another. */
  lemma PrefixFree(lengths: seq<nat>, a: nat, b: nat)
    requires Decodable(lengths) && a < |lengths| && b < |lengths| && lengths[a] > 0 && lengths[b] > 0
    requires WordOf(lengths, a) <= WordOf(lengths, b)
    ensures a == b
  {
    hide KraftCount, FirstCode, Counts, Kraft, Word, Code;
    CodeInPlace(lengths, a);
    CodeInPlace(lengths, b);
    PrefixQuotient(Code(lengths, a), lengths[a], Code(lengths, b), lengths[b]);
    if lengths[a] < lengths[b] {
      NotExtended(lengths, a, b);
    } else {
      assert Pow2(0) == 1;
      if a < b {
        SameLengthDiffer(lengths, a, b);
      } else if b < a {
        SameLengthDiffer(lengths, b, a);
      }
    }
  }

  //////////////////////////////////////////////////////////////////////////////
  // Assignment
  //////////////////////////////////////////////////////////////////////////////

  lemma CountsNext(lengths: seq<nat>, i: nat)
    requires i < |lengths|
    ensures Counts(lengths[..i + 1]) ==
            var (bl, len) := (Counts(lengths[..i]), lengths[i]);
            if 1 <= len <= MAX_CODE_LEN then bl[len := bl[len] + 1] else bl
  {
    assert lengths[..i + 1][..i] == lengths[..i];
  }

  method CountLengths(lengths: seq<nat>) returns (bl: array<nat>)
    ensures fresh(bl) && bl[..] == Counts(lengths)
  {
    hide Counts;
    bl := new nat[LEVELS](_ => 0);
    NoCounts();
    assert bl[..] == Zeros(LEVELS);
    assert lengths[..0] == [];
    for i := 0 to |lengths|
      invariant bl[..] == Counts(lengths[..i])
    {
      CountsNext(lengths, i);
      var len := lengths[i];
      if 0 < len <= MAX_CODE_LEN {
        ghost var was := bl[..];
        bl[len] := bl[len] + 1;
        assert bl[..] == was[len := was[len] + 1];
      }
    }
    assert lengths[..|lengths|] == lengths;
  }

  lemma NoCounts()
    ensures Counts([]) == Zeros(LEVELS)
  {
  }

  /** The code the next symbol of length `len` gets, once the first `i` symbols are served. */
  function NextCode(lengths: seq<nat>, i: nat, len: nat): nat
    requires i <= |lengths| && len < LEVELS
  {
    (FirstCode(Counts(lengths), len) + (if len == 0 then 0 else Counts(lengths[..i])[len])) % 0x1_0000
  }

  lemma NextStart(lengths: seq<nat>, len: nat)
    requires len < LEVELS
    ensures NextCode(lengths, 0, len) == FirstCode(Counts(lengths), len)
  {
    assert lengths[..0] == [];
    NoCounts();
  }

  lemma NextStep(lengths: seq<nat>, i: nat, len: nat)
    requires i < |lengths| && len < LEVELS
    ensures NextCode(lengths, i + 1, len) ==
            if len == lengths[i] > 0 then (NextCode(lengths, i, len) + 1) % 0x1_0000 else NextCode(lengths, i, len)
    ensures 0 < lengths[i] <= MAX_CODE_LEN ==> Code(lengths, i) == NextCode(lengths, i, lengths[i])
  {
    hide Counts, FirstCode;
    CountsNext(lengths, i);
  }

  method FirstCodes(lengths: seq<nat>) returns (next: array<nat>)
    ensures fresh(next) && next.Length == LEVELS
    ensures forall l :: 0 <= l < LEVELS ==> next[l] == NextCode(lengths, 0, l)
  {
    hide Counts, FirstCode, NextCode;
    var bl := CountLengths(lengths);
    next := new nat[LEVELS](_ => 0);
    var code: nat := 0;
    FirstOfAll(Counts(lengths));
    NextStart(lengths, 0);
    for bits := 1 to LEVELS
      invariant code == FirstCode(Counts(lengths), bits - 1) && bl[..] == Counts(lengths)
      invariant forall l :: 0 <= l < bits ==> next[l] == NextCode(lengths, 0, l)
    {
      FirstOfNext(Counts(lengths), bits);
      NextStart(lengths, bits);
      assert bl[bits - 1] == bl[..][bits - 1];
      code := (code + bl[bits - 1]) * 2 % 0x1_0000;
      next[bits] := code;
    }
  }

  /** `assign_canonical_codes`. */
  method AssignCodes(lengths: seq<nat>) returns (codes: array<nat>)
    requires |lengths| == SYMBOLS && forall s :: 0 <= s < SYMBOLS ==> lengths[s] <= MAX_CODE_LEN
    ensures fresh(codes) && codes.Length == SYMBOLS
    ensures forall s :: 0 <= s < SYMBOLS ==> codes[s] == if lengths[s] > 0 then Code(lengths, s) else 0
  {
    hide Counts, FirstCode, NextCode, Code;
    var next := FirstCodes(lengths);
    codes := new nat[SYMBOLS](_ => 0);
    for i := 0 to SYMBOLS
      invariant forall l :: 0 <= l < LEVELS ==> next[l] == NextCode(lengths, i, l)
      invariant forall s :: 0 <= s < i ==> codes[s] == if lengths[s] > 0 then Code(lengths, s) else 0
    {
      forall l | 0 <= l < LEVELS
        ensures NextCode(lengths, i + 1, l) ==
                if l == lengths[i] > 0 then (NextCode(lengths, i, l) + 1) % 0x1_0000 else NextCode(lengths, i, l)
      {
        NextStep(lengths, i, l);
      }
      NextStep(lengths, i, lengths[i]);
      if lengths[i] > 0 {
        codes[i] := next[lengths[i]];
        next[lengths[i]] := (next[lengths[i]] + 1) % 0x1_0000;
      } else {
        codes[i] := 0;
      }
    }
  }

  lemma FirstOfAll(bl: seq<nat>)
    requires |bl| == LEVELS
    ensures FirstCode(bl, 0) == 0
  {
  }

  lemma FirstOfNext(bl: seq<nat>, len: nat)
    requires 1 <= len < |bl|
    ensures FirstCode(bl, len) == (FirstCode(bl, len - 1) + bl[len - 1]) * 2 % 0x1_0000
  {
  }

  //////////////////////////////////////////////////////////////////////////////
  // Reading
  //////////////////////////////////////////////////////////////////////////////

  /** Symbol `s` is next in the stream. */
  ghost predicate NextIs(lengths: seq<nat>, s: nat, stream: seq<bool>, t: nat) {
    && s < |lengths| && 0 < lengths[s] <= MAX_CODE_LEN
    && t + lengths[s] <= |stream| && stream[t..t + lengths[s]] == WordOf(lengths, s)
  }

  /** A symbol whose word is at the front of the stream's next bits is the next symbol. */
  lemma OnlyNext(lengths: seq<nat>, s: nat, stream: seq<bool>, t: nat, u: nat)
    requires Decodable(lengths) && NextIs(lengths, s, stream, t) && u < |lengths|
    requires lengths[u] > 0 && BitIo.Window(stream, t, lengths[u]) == WordOf(lengths, u)
    ensures u == s
  {
    hide Kraft, Code, Word;
    var ls, lu := lengths[s], lengths[u];
    WindowIsSlice(stream, t, ls);
    if ls <= lu {
      WindowConcat(stream, t, ls, lu - ls);
      PrefixFree(lengths, s, u);
    } else {
      WindowConcat(stream, t, lu, ls - lu);
      PrefixFree(lengths, u, s);
    }
  }
}
