/** A text in which no three bytes occur twice: a counter written in three digits to base 32, each digit with an
    alphabet of its own. */
module Counter {
  import opened Bytes

  const LENGTH: nat := 67584

  /** Digit `i % 3` of the number `i / 3`. */
  function At(i: nat): (b: Byte)
    requires i < LENGTH
    ensures 32 <= b < 128
  {
    var k := i / 3;
    if i % 3 == 0 then High(k) else if i % 3 == 1 then Middle(k) else Low(k)
  }

  function High(k: nat): (b: Byte)
    requires k < 22528
    ensures 32 <= b < 54
  {
    32 + k / 1024
  }

  function Middle(k: nat): (b: Byte)
    ensures 64 <= b < 96
  {
    64 + k / 32 % 32
  }

  function Low(k: nat): (b: Byte)
    ensures 96 <= b < 128
  {
    96 + k % 32
  }

  function Text(n: nat): (s: seq<Byte>)
    requires n <= LENGTH
    ensures |s| == n && forall i :: 0 <= i < n ==> s[i] == At(i)
  {
    seq(n, i requires 0 <= i < n => At(i))
  }

  /** Where three bytes of the text stand. */
  function Index(a: nat, b: nat, c: nat): int {
    if a < 64 then 3 * (1024 * (a - 32) + 32 * (b - 64) + (c - 96))
    else if a < 96 then
      var low := 32 * (a - 64) + (b - 96);
      3 * (1024 * (c - 32) + (if low == 1023 then -1 else low)) + 1
    else 3 * (1024 * (b - 32) + 32 * (c - 64) + (a - 95) % 32 - 1) + 2
  }

  lemma DigitsOf(k: nat)
    requires k < 22528
    ensures k == 1024 * (High(k) - 32) + 32 * (Middle(k) - 64) + (Low(k) - 96)
  {
    assert k / 1024 == k / 32 / 32;
  }

  lemma Thirds(i: nat)
    requires i + 2 < LENGTH
    ensures var k := i / 3;
            && (i % 3 == 0 ==> i == 3 * k && At(i) == High(k) && At(i + 1) == Middle(k) && At(i + 2) == Low(k))
            && (i % 3 == 1 ==> i == 3 * k + 1 && k + 1 < 22528 && At(i) == Middle(k) && At(i + 1) == Low(k) && At(i + 2) == High(k + 1))
            && (i % 3 == 2 ==> i == 3 * k + 2 && k + 1 < 22528 && At(i) == Low(k) && At(i + 1) == High(k + 1) && At(i + 2) == Middle(k + 1))
  {
    hide High, Middle, Low;
  }

  lemma Recovered(i: nat)
    requires i + 2 < LENGTH
    ensures Index(At(i), At(i + 1), At(i + 2)) == i
  {
    hide At, High, Middle, Low;
    var k := i / 3;
    Thirds(i);
    DigitsOf(k);
    if i % 3 == 1 {
      HighNext(k);
    } else if i % 3 == 2 {
      DigitsOf(k + 1);
      LowNext(k);
    }
  }

  lemma HighNext(k: nat)
    requires k + 1 < 22528
    ensures High(k + 1) - High(k) == if 32 * (Middle(k) - 64) + (Low(k) - 96) == 1023 then 1 else 0
  {
    assert k / 1024 == k / 32 / 32;
    assert (k + 1) / 1024 == (k + 1) / 32 / 32;
  }

  lemma LowNext(k: nat)
    ensures (Low(k) - 95) % 32 == Low(k + 1) - 96
  {
  }

  /** No three bytes occur twice. */
  lemma NoRepeat(i: nat, j: nat)
    requires i < j && j + 2 < LENGTH
    ensures !(At(i) == At(j) && At(i + 1) == At(j + 1) && At(i + 2) == At(j + 2))
  {
    hide At, Index;
    Recovered(i);
    Recovered(j);
  }

  /** Two bytes of the last alphabet never stand together. */
  lemma NoTwoLow(i: nat)
    requires i + 1 < LENGTH
    ensures At(i) < 96 || At(i + 1) < 96
  {
    hide High, Middle, Low;
  }

  /** Neighbours come from different alphabets. */
  lemma Neighbours(i: nat)
    requires i + 1 < LENGTH
    ensures At(i) != At(i + 1)
  {
    hide High, Middle, Low;
  }

  //////////////////////////////////////////////////////////////////////////////
  // How often a byte occurs
  //////////////////////////////////////////////////////////////////////////////

  /** Counting `b` at increasing positions. */
  lemma {:induction false} OccursAt(src: seq<Byte>, b: Byte, pos: nat -> nat, n: nat)
    requires n > 0 && forall t :: 0 <= t < n ==> pos(t) < |src| && src[pos(t)] == b
    requires forall t, u :: 0 <= t < u < n ==> pos(t) < pos(u)
    ensures multiset(src[..pos(n - 1) + 1])[b] >= n
    decreases n
  {
    var last := pos(n - 1);
    assert src[..last + 1] == src[..last] + [src[last]];
    if n > 1 {
      OccursAt(src, b, pos, n - 1);
      var before := pos(n - 2) + 1;
      assert src[..last] == src[..before] + src[before..last];
    }
  }

  lemma OccursOften(src: seq<Byte>, b: Byte, pos: nat -> nat, n: nat)
    requires n > 0 && forall t :: 0 <= t < n ==> pos(t) < |src| && src[pos(t)] == b
    requires forall t, u :: 0 <= t < u < n ==> pos(t) < pos(u)
    ensures multiset(src)[b] >= n
  {
    OccursAt(src, b, pos, n);
    var before := pos(n - 1) + 1;
    assert src == src[..before] + src[before..];
  }

  const OFTEN: nat := 600

  /** Number `t` of those with the digit, in each place. */
  lemma WithLow(d: nat, t: nat)
    requires d < 32 && t < OFTEN
    ensures At(96 * t + 3 * d + 2) == 96 + d
  {
    assert (96 * t + 3 * d + 2) / 3 == 32 * t + d;
  }

  lemma WithMiddle(d: nat, t: nat)
    requires d < 32 && t < OFTEN
    ensures At(MiddlePlace(d, t)) == 64 + d
  {
    var k := 1024 * (t / 32) + 32 * d + t % 32;
    assert (3072 * (t / 32) + 96 * d + 3 * (t % 32) + 1) / 3 == k;
    assert k / 32 == 32 * (t / 32) + d;
  }

  lemma WithHigh(d: nat, t: nat)
    requires d < 22 && t < OFTEN
    ensures At(3072 * d + 3 * t) == 32 + d
  {
    assert (3072 * d + 3 * t) / 3 == 1024 * d + t;
  }

  ghost predicate Symbol(b: nat) {
    32 <= b < 54 || 64 <= b < 128
  }

  lemma FrequentHigh(d: nat)
    requires d < 22
    ensures multiset(Text(LENGTH - 64))[32 + d] >= OFTEN
  {
    hide At;
    forall t | 0 <= t < OFTEN
      ensures At(3072 * d + 3 * t) == 32 + d
    {
      WithHigh(d, t);
    }
    OccursOften(Text(LENGTH - 64), 32 + d, t => 3072 * d + 3 * t, OFTEN);
  }

  function MiddlePlace(d: nat, t: nat): nat {
    3072 * (t / 32) + 96 * d + 3 * (t % 32) + 1
  }

  lemma MiddleGrows(d: nat, t: nat, u: nat)
    requires t < u
    ensures MiddlePlace(d, t) < MiddlePlace(d, u)
  {
  }

  lemma MiddleInside(d: nat, t: nat)
    requires d < 32 && t < OFTEN
    ensures MiddlePlace(d, t) < LENGTH - 64
  {
  }

  lemma FrequentMiddle(d: nat)
    requires d < 32
    ensures multiset(Text(LENGTH - 64))[64 + d] >= OFTEN
  {
    hide At, MiddlePlace;
    forall t | 0 <= t < OFTEN
      ensures MiddlePlace(d, t) < LENGTH - 64 && At(MiddlePlace(d, t)) == 64 + d
    {
      MiddleInside(d, t);
      WithMiddle(d, t);
    }
    forall t: nat, u: nat | t < u < OFTEN
      ensures MiddlePlace(d, t) < MiddlePlace(d, u)
    {
      MiddleGrows(d, t, u);
    }
    OccursOften(Text(LENGTH - 64), 64 + d, t => MiddlePlace(d, t), OFTEN);
  }

  lemma FrequentLow(d: nat)
    requires d < 32
    ensures multiset(Text(LENGTH - 64))[96 + d] >= OFTEN
  {
    hide At;
    forall t | 0 <= t < OFTEN
      ensures At(96 * t + 3 * d + 2) == 96 + d
    {
      WithLow(d, t);
    }
    OccursOften(Text(LENGTH - 64), 96 + d, t => 96 * t + 3 * d + 2, OFTEN);
  }

  /** Every byte of the text occurs often before its last 64 bytes. */
  lemma Frequent(b: Byte)
    requires Symbol(b)
    ensures multiset(Text(LENGTH - 64))[b] >= OFTEN
  {
    if b < 54 {
      FrequentHigh(b - 32);
    } else if b < 96 {
      FrequentMiddle(b - 64);
    } else {
      FrequentLow(b - 96);
    }
  }
}
