/** What makes XXH64 the hash it is: every step takes different words to different words, so that a change behind the
    whole stripes or of the seed is never lost, and the hashes of a few texts. */
module XxhLaws {
  import opened Bytes
  import opened Lz
  import opened Xxh

  //////////////////////////////////////////////////////////////////////////////
  // Steps
  //////////////////////////////////////////////////////////////////////////////

  lemma Product(a: Word, b: Word)
    ensures Times(a, b) == a * b
  {
  }

  lemma Regroup(a: Word, b: Word, c: Word)
    ensures Times(a * b, c) == Times(a, b * c)
  {
  }

  lemma TimesAssociative(a: Word, b: Word, c: Word)
    ensures Times(Times(a, b), c) == Times(a, Times(b, c))
  {
    hide Times;
    Product(a, b);
    Product(b, c);
    Regroup(a, b, c);
  }

  lemma TimesOne(a: Word)
    ensures Times(a, 1) == a
  {
  }

  /** A factor that some other factor undoes loses nothing. */
  lemma TimesCancels(a: Word, b: Word, p: Word, q: Word)
    requires Times(a, p) == Times(b, p) && Times(p, q) == 1
    ensures a == b
  {
    hide Times;
    TimesAssociative(a, p, q);
    TimesAssociative(b, p, q);
    TimesOne(a);
    TimesOne(b);
  }

  /** What undoes the factors used. */
  lemma Inverses()
    ensures Times(PRIME1, 0x0887493432BADB37) == 1
    ensures Times(PRIME2, 0x0BA79078168D4BAF) == 1
    ensures Times(PRIME3, 0xE9E9F4C41D6DF849) == 1
    ensures Times(PRIME5, 0xC592C09FDFBA7F0D) == 1
  {
  }

  lemma Odd(a: Word, b: Word)
    ensures Times(a, PRIME1) == Times(b, PRIME1) ==> a == b
    ensures Times(a, PRIME2) == Times(b, PRIME2) ==> a == b
    ensures Times(a, PRIME3) == Times(b, PRIME3) ==> a == b
    ensures Times(a, PRIME5) == Times(b, PRIME5) ==> a == b
  {
    hide Times;
    Inverses();
    if Times(a, PRIME1) == Times(b, PRIME1) {
      TimesCancels(a, b, PRIME1, 0x0887493432BADB37);
    }
    if Times(a, PRIME2) == Times(b, PRIME2) {
      TimesCancels(a, b, PRIME2, 0x0BA79078168D4BAF);
    }
    if Times(a, PRIME3) == Times(b, PRIME3) {
      TimesCancels(a, b, PRIME3, 0xE9E9F4C41D6DF849);
    }
    if Times(a, PRIME5) == Times(b, PRIME5) {
      TimesCancels(a, b, PRIME5, 0xC592C09FDFBA7F0D);
    }
  }

  lemma PlusBack(a: Word, c: Word)
    ensures Plus(a + c, 0 - c) == a && Plus(a, c) == a + c
  {
  }

  lemma PlusCancels(a: Word, b: Word, c: Word)
    requires Plus(a, c) == Plus(b, c)
    ensures a == b
  {
    hide Plus;
    PlusBack(a, c);
    PlusBack(b, c);
  }

  lemma XorCancels(a: Word, b: Word, c: Word)
    ensures Xor(a, c) == Xor(b, c) ==> a == b
    ensures Xor(c, a) == Xor(c, b) ==> a == b
  {
  }

  lemma Rotl31(a: Word, b: Word)
    requires Rotl(a, 31) == Rotl(b, 31)
    ensures a == b
  {
  }

  lemma Rotl27(a: Word, b: Word)
    requires Rotl(a, 27) == Rotl(b, 27)
    ensures a == b
  {
  }

  lemma Rotl23(a: Word, b: Word)
    requires Rotl(a, 23) == Rotl(b, 23)
    ensures a == b
  {
  }

  lemma Rotl11(a: Word, b: Word)
    requires Rotl(a, 11) == Rotl(b, 11)
    ensures a == b
  {
  }

  /** What undoes a fold by more than a third of the word. */
  function Unfold(a: Word, r: bv7): Word
    requires 21 < r < 64
  {
    var once := a ^ (a >> r);
    once ^ ((a >> r) >> r)
  }

  lemma Fold29Is(a: Word)
    ensures Fold(a, 29) == a ^ (a >> (29 as bv7)) && Unfold(a ^ (a >> (29 as bv7)), 29) == a
  {
  }

  lemma Fold29(a: Word)
    ensures Unfold(Fold(a, 29), 29) == a
  {
    hide Fold, Unfold;
    Fold29Is(a);
  }

  lemma Fold32Is(a: Word)
    ensures Fold(a, 32) == a ^ (a >> (32 as bv7)) && Unfold(a ^ (a >> (32 as bv7)), 32) == a
  {
  }

  lemma Fold32(a: Word)
    ensures Unfold(Fold(a, 32), 32) == a
  {
    hide Fold, Unfold;
    Fold32Is(a);
  }

  lemma Fold33Is(a: Word)
    ensures Fold(a, 33) == a ^ (a >> (33 as bv7)) && Unfold(a ^ (a >> (33 as bv7)), 33) == a
  {
  }

  lemma Fold33(a: Word)
    ensures Unfold(Fold(a, 33), 33) == a
  {
    hide Fold, Unfold;
    Fold33Is(a);
  }

  /** A round keeps different accumulators apart and different inputs. */
  lemma RoundPermutes(a: Word, b: Word, i: Word)
    ensures Round(a, i) == Round(b, i) ==> a == b
    ensures Round(i, a) == Round(i, b) ==> a == b
  {
    hide Times, Rotl, Plus;
    var p, q := Times(i, PRIME2), Plus(a, Times(i, PRIME2));
    if Round(a, i) == Round(b, i) {
      Odd(Rotl(Plus(a, p), 31), Rotl(Plus(b, p), 31));
      Rotl31(Plus(a, p), Plus(b, p));
      PlusCancels(a, b, p);
    }
    if Round(i, a) == Round(i, b) {
      var x, y := Times(a, PRIME2), Times(b, PRIME2);
      Odd(Rotl(Plus(i, x), 31), Rotl(Plus(i, y), 31));
      Rotl31(Plus(i, x), Plus(i, y));
      PlusCommutes(i, x);
      PlusCommutes(i, y);
      PlusCancels(x, y, i);
      Odd(a, b);
    }
  }

  lemma PlusCommutes(a: Word, b: Word)
    ensures Plus(a, b) == Plus(b, a)
  {
  }

  /** So do the merging of a lane and each step of the tail. */
  lemma MergePermutes(a: Word, b: Word, v: Word)
    ensures MergeRound(a, v) == MergeRound(b, v) ==> a == b
    ensures MergeRound(v, a) == MergeRound(v, b) ==> a == b
  {
    hide Times, Plus, Xor, Round;
    if MergeRound(a, v) == MergeRound(b, v) {
      var k := Round(0, v);
      PlusCancels(Times(Xor(a, k), PRIME1), Times(Xor(b, k), PRIME1), PRIME4);
      Odd(Xor(a, k), Xor(b, k));
      XorCancels(a, b, k);
    }
    if MergeRound(v, a) == MergeRound(v, b) {
      var x, y := Round(0, a), Round(0, b);
      PlusCancels(Times(Xor(v, x), PRIME1), Times(Xor(v, y), PRIME1), PRIME4);
      Odd(Xor(v, x), Xor(v, y));
      XorCancels(x, y, v);
      RoundPermutes(a, b, 0);
    }
  }

  lemma Mix8Permutes(a: Word, b: Word, k: Word)
    ensures Mix8(a, k) == Mix8(b, k) ==> a == b
    ensures Mix8(k, a) == Mix8(k, b) ==> a == b
  {
    hide Times, Plus, Xor, Rotl;
    if Mix8(a, k) == Mix8(b, k) {
      Mix8Hash(a, b, Times(Rotl(Times(k, PRIME2), 31), PRIME1));
    }
    if Mix8(k, a) == Mix8(k, b) {
      var x, y := Rotl(Times(a, PRIME2), 31), Rotl(Times(b, PRIME2), 31);
      Mix8Hash(k, k, Times(x, PRIME1));
      var u, w := Xor(k, Times(x, PRIME1)), Xor(k, Times(y, PRIME1));
      PlusCancels(Times(Rotl(u, 27), PRIME1), Times(Rotl(w, 27), PRIME1), PRIME4);
      Odd(Rotl(u, 27), Rotl(w, 27));
      Rotl27(u, w);
      XorCancels(Times(x, PRIME1), Times(y, PRIME1), k);
      Odd(x, y);
      Rotl31(Times(a, PRIME2), Times(b, PRIME2));
      Odd(a, b);
    }
  }

  lemma Mix8Hash(a: Word, b: Word, k: Word)
    requires Plus(Times(Rotl(Xor(a, k), 27), PRIME1), PRIME4) == Plus(Times(Rotl(Xor(b, k), 27), PRIME1), PRIME4)
    ensures a == b
  {
    hide Times, Plus, Xor, Rotl;
    PlusCancels(Times(Rotl(Xor(a, k), 27), PRIME1), Times(Rotl(Xor(b, k), 27), PRIME1), PRIME4);
    Odd(Rotl(Xor(a, k), 27), Rotl(Xor(b, k), 27));
    Rotl27(Xor(a, k), Xor(b, k));
    XorCancels(a, b, k);
  }

  lemma Mix4Permutes(a: Word, b: Word, k: Word)
    ensures Mix4(a, k) == Mix4(b, k) ==> a == b
    ensures Mix4(k, a) == Mix4(k, b) ==> a == b
  {
    hide Times, Plus, Xor, Rotl;
    if Mix4(a, k) == Mix4(b, k) {
      var x, y := Xor(a, Times(k, PRIME1)), Xor(b, Times(k, PRIME1));
      Mix4Outer(x, y);
      XorCancels(a, b, Times(k, PRIME1));
    }
    if Mix4(k, a) == Mix4(k, b) {
      Mix4Outer(Xor(k, Times(a, PRIME1)), Xor(k, Times(b, PRIME1)));
      XorCancels(Times(a, PRIME1), Times(b, PRIME1), k);
      Odd(a, b);
    }
  }

  lemma Mix4Outer(x: Word, y: Word)
    requires Plus(Times(Rotl(x, 23), PRIME2), PRIME3) == Plus(Times(Rotl(y, 23), PRIME2), PRIME3)
    ensures x == y
  {
    hide Times, Plus, Rotl;
    PlusCancels(Times(Rotl(x, 23), PRIME2), Times(Rotl(y, 23), PRIME2), PRIME3);
    Odd(Rotl(x, 23), Rotl(y, 23));
    Rotl23(x, y);
  }

  lemma Mix1Permutes(a: Word, b: Word, k: Byte, j: Byte)
    ensures Mix1(a, k) == Mix1(b, k) ==> a == b
    ensures Mix1(a, k) == Mix1(a, j) ==> k == j
  {
    hide Times, Xor, Rotl;
    var x, y := Times(k as Word, PRIME5), Times(j as Word, PRIME5);
    if Mix1(a, k) == Mix1(b, k) {
      Mix1Outer(Xor(a, x), Xor(b, x));
      XorCancels(a, b, x);
    }
    if Mix1(a, k) == Mix1(a, j) {
      Mix1Outer(Xor(a, x), Xor(a, y));
      XorCancels(x, y, a);
      Odd(k as Word, j as Word);
      SmallWord(k);
      SmallWord(j);
    }
  }

  lemma Mix1Outer(x: Word, y: Word)
    requires Times(Rotl(x, 11), PRIME1) == Times(Rotl(y, 11), PRIME1)
    ensures x == y
  {
    hide Times, Rotl;
    Odd(Rotl(x, 11), Rotl(y, 11));
    Rotl11(x, y);
  }

  lemma SmallWord(k: nat)
    requires k < TWO_TO_THE_64
    ensures (k as Word) as int == k
  {
    WordRemainder(k);
    Small(k);
  }

  lemma WordRemainder(k: nat)
    requires k < TWO_TO_THE_64
    ensures (k as Word) as int == k % TWO_TO_THE_64
  {
  }

  lemma AvalanchePermutes(a: Word, b: Word)
    requires Avalanche(a) == Avalanche(b)
    ensures a == b
  {
    hide Times, Fold, Unfold;
    var x, y := Times(Fold(a, 33), PRIME2), Times(Fold(b, 33), PRIME2);
    Fold32(Times(Fold(x, 29), PRIME3));
    Fold32(Times(Fold(y, 29), PRIME3));
    Odd(Fold(x, 29), Fold(y, 29));
    Fold29(x);
    Fold29(y);
    Odd(Fold(a, 33), Fold(b, 33));
    Fold33(a);
    Fold33(b);
  }

  //////////////////////////////////////////////////////////////////////////////
  // Texts
  //////////////////////////////////////////////////////////////////////////////

  /** How many bytes the next mix takes in, and the mix. */
  function Skip(s: seq<Byte>): (n: nat)
    requires s != []
    ensures 0 < n <= |s|
  {
    if |s| >= 8 then 8 else if |s| >= 4 then 4 else 1
  }

  function Front(h: Word, s: seq<Byte>): Word
    requires s != []
  {
    if |s| >= 8 then Mix8(h, Load8(s, 0)) else if |s| >= 4 then Mix4(h, Load4(s, 0)) else Mix1(h, s[0])
  }

  lemma MixFront(h: Word, s: seq<Byte>)
    requires s != []
    ensures MixTail(h, s) == MixTail(Front(h, s), s[Skip(s)..])
  {
    hide Mix8, Mix4, Mix1, Load8, Load4;
  }

  lemma FrontPermutes(a: Word, b: Word, s: seq<Byte>)
    requires s != [] && Front(a, s) == Front(b, s)
    ensures a == b
  {
    hide Mix8, Mix4, Mix1, Load8, Load4;
    if |s| >= 8 {
      Mix8Permutes(a, b, Load8(s, 0));
    } else if |s| >= 4 {
      Mix4Permutes(a, b, Load4(s, 0));
    } else {
      Mix1Permutes(a, b, s[0], s[0]);
    }
  }

  /** The numbers `n` bytes can denote. */
  function Span(n: nat): nat {
    if n == 0 then 1 else 256 * Span(n - 1)
  }

  lemma {:induction false} LoadBound(s: seq<Byte>, p: nat, n: nat)
    requires p + n <= |s|
    ensures LittleEndian(s, p, n) < Span(n)
    decreases n
  {
    if n > 0 {
      LoadBound(s, p + 1, n - 1);
      var rest := LittleEndian(s, p + 1, n - 1);
      assert LittleEndian(s, p, n) == s[p] + 256 * rest && rest + 1 <= Span(n - 1);
    }
  }

  lemma {:induction false} SameLoad(s: seq<Byte>, t: seq<Byte>, p: nat, n: nat)
    requires p + n <= |s| && p + n <= |t|
    ensures LittleEndian(s, p, n) == LittleEndian(t, p, n) <==> s[p..p + n] == t[p..p + n]
    decreases n
  {
    if n > 0 {
      SameLoad(s, t, p + 1, n - 1);
      var u, w := s[p + 1..p + n], t[p + 1..p + n];
      assert s[p..p + n] == [s[p]] + u && t[p..p + n] == [t[p]] + w;
      if s[p..p + n] == t[p..p + n] {
        assert s[p] == ([s[p]] + u)[0] && t[p] == ([t[p]] + w)[0];
        assert u == ([s[p]] + u)[1..] && w == ([t[p]] + w)[1..];
      }
    }
  }

  lemma Spans()
    ensures Span(4) == 0x1_0000_0000 && Span(8) == TWO_TO_THE_64
  {
  }

  lemma SameWords(s: seq<Byte>, t: seq<Byte>, n: nat)
    requires n in {4, 8} && |s| >= n && |t| >= n
    ensures Wrap(LittleEndian(s, 0, n)) == Wrap(LittleEndian(t, 0, n)) <==> s[..n] == t[..n]
  {
    hide LittleEndian, Span, Wrap;
    var a, b := LittleEndian(s, 0, n), LittleEndian(t, 0, n);
    SameLoad(s, t, 0, n);
    LoadBound(s, 0, n);
    LoadBound(t, 0, n);
    Spans();
    SameWrap(a, b);
  }

  lemma SameWrap(a: nat, b: nat)
    requires a < TWO_TO_THE_64 && b < TWO_TO_THE_64
    ensures Wrap(a) == Wrap(b) <==> a == b
  {
    Small(a);
    Small(b);
    SmallWord(a);
    SmallWord(b);
  }

  /** Different bytes are mixed in differently. */
  lemma FrontTold(h: Word, s: seq<Byte>, t: seq<Byte>)
    requires s != [] && |s| == |t| && Front(h, s) == Front(h, t)
    ensures s[..Skip(s)] == t[..Skip(s)]
  {
    hide Mix8, Mix4, Mix1, LittleEndian, Wrap;
    if |s| >= 8 {
      Mix8Permutes(Load8(s, 0), Load8(t, 0), h);
      SameWords(s, t, 8);
    } else if |s| >= 4 {
      Mix4Permutes(Load4(s, 0), Load4(t, 0), h);
      SameWords(s, t, 4);
    } else {
      Mix1Permutes(h, h, s[0], t[0]);
    }
  }

  lemma {:induction false} TailPermutes(a: Word, b: Word, s: seq<Byte>)
    requires MixTail(a, s) == MixTail(b, s)
    ensures a == b
    decreases |s|
  {
    hide Front, MixTail;
    if s == [] {
      MixNone(a);
      MixNone(b);
    } else {
      MixFront(a, s);
      MixFront(b, s);
      TailPermutes(Front(a, s), Front(b, s), s[Skip(s)..]);
      FrontPermutes(a, b, s);
    }
  }

  lemma MixNone(h: Word)
    ensures MixTail(h, []) == h
  {
  }

  /** Two texts of one length that are alike but for the byte at `i`. */
  predicate Changed(s: seq<Byte>, t: seq<Byte>, i: nat) {
    |s| == |t| && i < |s| && s[i] != t[i] && s[..i] == t[..i] && s[i + 1..] == t[i + 1..]
  }

  lemma ChangedBehind(s: seq<Byte>, t: seq<Byte>, i: nat, n: nat)
    requires Changed(s, t, i) && n <= |s|
    ensures if n <= i then s[..n] == t[..n] && Changed(s[n..], t[n..], i - n) else s[..n] != t[..n] && s[n..] == t[n..]
  {
    if n <= i {
      assert s[..n] == s[..i][..n] && t[..n] == t[..i][..n];
      assert s[n..][..i - n] == s[..i][n..] && t[n..][..i - n] == t[..i][n..];
      assert s[n..][i - n + 1..] == s[i + 1..] && t[n..][i - n + 1..] == t[i + 1..];
    } else {
      assert s[..n][i] != t[..n][i];
      assert s[n..] == s[i + 1..][n - i - 1..] && t[n..] == t[i + 1..][n - i - 1..];
    }
  }

  lemma SameFront(h: Word, s: seq<Byte>, t: seq<Byte>)
    requires s != [] && |s| == |t| && s[..Skip(s)] == t[..Skip(s)]
    ensures Front(h, s) == Front(h, t)
  {
    hide Mix8, Mix4, Mix1, LittleEndian, Wrap;
    if |s| >= 4 {
      SameLoad(s, t, 0, if |s| >= 8 then 8 else 4);
    } else {
      assert s[0] == s[..1][0] && t[0] == t[..1][0];
    }
  }

  /** A byte changed in the tail changes what comes out of it. */
  lemma {:induction false} TailTold(h: Word, s: seq<Byte>, t: seq<Byte>, i: nat)
    requires Changed(s, t, i)
    ensures MixTail(h, s) != MixTail(h, t)
    decreases |s|
  {
    hide Front, MixTail;
    var n := Skip(s);
    ChangedBehind(s, t, i, n);
    MixFront(h, s);
    MixFront(h, t);
    if n <= i {
      SameFront(h, s, t);
      TailTold(Front(h, s), s[n..], t[n..], i - n);
    } else if MixTail(h, s) == MixTail(h, t) {
      TailPermutes(Front(h, s), Front(h, t), s[n..]);
      FrontTold(h, s, t);
    }
  }

  lemma {:induction false} WholeStripes(a: seq<Byte>)
    requires |a| % 32 == 0
    ensures Rest(a) == []
    decreases |a|
  {
    if |a| >= 32 {
      WholeStripes(a[32..]);
    }
  }

  /** Behind whole stripes. */
  lemma HashBehind(a: seq<Byte>, b: seq<Byte>, seed: Word)
    requires |a| % 32 == 0 && |b| < 32
    ensures Hash(a + b, seed) == Avalanche(MixTail(Plus(Begin(Stripes(Start(seed), a), seed, |a + b|), Wrap(|a + b|)), b))
  {
    hide MixTail, Stripe, Start, Begin, Avalanche, Plus, Wrap;
    StripesAppend(Start(seed), a, b);
    WholeStripes(a);
    assert [] + b == b;
    ShortRest(Stripes(Start(seed), a), b);
  }

  /** A byte changed behind the last whole stripe is never lost. */
  lemma ByteTold(a: seq<Byte>, b: seq<Byte>, c: seq<Byte>, i: nat, seed: Word)
    requires |a| % 32 == 0 && |b| < 32 && Changed(b, c, i)
    ensures Hash(a + b, seed) != Hash(a + c, seed)
  {
    hide MixTail, Stripes, Start, Begin, Avalanche, Plus, Wrap;
    HashBehind(a, b, seed);
    HashBehind(a, c, seed);
    var h := Plus(Begin(Stripes(Start(seed), a), seed, |a + b|), Wrap(|a + b|));
    TailTold(h, b, c, i);
    if Hash(a + b, seed) == Hash(a + c, seed) {
      AvalanchePermutes(MixTail(h, b), MixTail(h, c));
    }
  }

  /** Nor is another seed, for a text without a whole stripe. */
  lemma SeedTold(s: seq<Byte>, x: Word, y: Word)
    requires |s| < 32 && Hash(s, x) == Hash(s, y)
    ensures x == y
  {
    hide MixTail, Stripes, Start, Avalanche, Plus, Wrap;
    ShortRest(Start(x), s);
    ShortRest(Start(y), s);
    var u, w := Plus(Plus(x, PRIME5), Wrap(|s|)), Plus(Plus(y, PRIME5), Wrap(|s|));
    AvalanchePermutes(MixTail(u, s), MixTail(w, s));
    TailPermutes(u, w, s);
    PlusCancels(Plus(x, PRIME5), Plus(y, PRIME5), Wrap(|s|));
    PlusCancels(x, y, PRIME5);
  }

  //////////////////////////////////////////////////////////////////////////////
  // Known hashes
  //////////////////////////////////////////////////////////////////////////////

  lemma ShortHash(s: seq<Byte>, seed: Word)
    requires |s| < 32
    ensures Hash(s, seed) == Avalanche(MixTail(Plus(Plus(seed, PRIME5), Wrap(|s|)), s))
  {
    hide MixTail, Start, Avalanche, Plus, Wrap;
    ShortRest(Start(seed), s);
  }

  /** The empty text, "a" and "abc" with seed 0. */
  lemma KnownShort()
    ensures Hash([], 0) == 0xEF46DB3751D8E999
    ensures Hash([97], 0) == 0xD24EC4F1A98C6E5B
    ensures Hash([97, 98, 99], 0) == 0x44BC2CF5AD770999
  {
    hide MixTail, Avalanche, Mix1, Wrap, Plus, Hash;
    EmptyHash(0);
    ShortHash([97], 0);
    ShortHash([97, 98, 99], 0);
    ShortStarts();
    ShortMixes();
    ShortEnds();
    MixStep(0x27D4EB2F165667C6, [97], 0);
    MixStep(0xB86597E419D4D215, [97], 1);
    MixStep(0x27D4EB2F165667C8, [97, 98, 99], 0);
    MixStep(0x0E6D11BDC91F0215, [97, 98, 99], 1);
    MixStep(0x791983E9AB307069, [97, 98, 99], 2);
    MixStep(0xE87A46F8B9A4C39E, [97, 98, 99], 3);
    assert [97][0..] == [97] && [97, 98, 99][0..] == [97, 98, 99];
  }

  lemma ShortStarts()
    ensures Plus(0, PRIME5) == 0x27D4EB2F165667C5
    ensures Plus(0x27D4EB2F165667C5, Wrap(1)) == 0x27D4EB2F165667C6
    ensures Plus(0x27D4EB2F165667C5, Wrap(3)) == 0x27D4EB2F165667C8
  {
    Wrapped(1, 1);
    Wrapped(3, 3);
  }

  lemma Wrapped(n: nat, w: Word)
    requires n == w as int
    ensures Wrap(n) == w
  {
    WordBack(w);
    Small(n);
  }

  lemma WordBack(w: Word)
    ensures 0 <= w as int < TWO_TO_THE_64 && (w as int) as Word == w
  {
  }

  lemma ShortMixes()
    ensures Mix1(0x27D4EB2F165667C6, 97) == 0xB86597E419D4D215
    ensures Mix1(0x27D4EB2F165667C8, 97) == 0x0E6D11BDC91F0215
    ensures Mix1(0x0E6D11BDC91F0215, 98) == 0x791983E9AB307069
    ensures Mix1(0x791983E9AB307069, 99) == 0xE87A46F8B9A4C39E
  {
  }

  lemma ShortEnds()
    ensures Avalanche(0x27D4EB2F165667C5) == 0xEF46DB3751D8E999
    ensures Avalanche(0xB86597E419D4D215) == 0xD24EC4F1A98C6E5B
    ensures Avalanche(0xE87A46F8B9A4C39E) == 0x44BC2CF5AD770999
  {
  }

  /** The bytes 0, 1, 2 and so on. */
  predicate Counting(s: seq<Byte>) {
    forall k :: 0 <= k < |s| ==> s[k] == k
  }

  /** Eight, and four, of them as a number. */
  lemma CountingLoads(s: seq<Byte>, p: nat)
    requires Counting(s) && p + 4 <= |s|
    ensures LittleEndian(s, p, 4) == 0x03020100 + p * 0x01010101
    ensures p + 8 <= |s| ==> LittleEndian(s, p, 8) == 0x0706050403020100 + p * 0x0101010101010101
  {
    CountingLoad4(s, p);
    if p + 8 <= |s| {
      CountingLoad4(s, p + 4);
      LoadSplit(s, p);
    }
  }

  lemma CountingLoad4(s: seq<Byte>, p: nat)
    requires Counting(s) && p + 4 <= |s|
    ensures LittleEndian(s, p, 4) == 0x03020100 + p * 0x01010101
  {
    assert LittleEndian(s, p + 4, 0) == 0;
    assert LittleEndian(s, p + 3, 1) == p + 3;
    assert LittleEndian(s, p + 2, 2) == p + 2 + 256 * (p + 3);
    assert LittleEndian(s, p + 1, 3) == p + 1 + 256 * (p + 2 + 256 * (p + 3));
  }

  lemma LoadSplit(s: seq<Byte>, p: nat)
    requires p + 8 <= |s|
    ensures LittleEndian(s, p, 8) == LittleEndian(s, p, 4) + 0x1_0000_0000 * LittleEndian(s, p + 4, 4)
  {
    assert LittleEndian(s, p + 3, 1) == s[p + 3] && LittleEndian(s, p + 3, 5) == s[p + 3] + 256 * LittleEndian(s, p + 4, 4);
    assert LittleEndian(s, p + 2, 2) + 0x1_0000 * LittleEndian(s, p + 4, 4) == LittleEndian(s, p + 2, 6);
    assert LittleEndian(s, p + 1, 3) + 0x100_0000 * LittleEndian(s, p + 4, 4) == LittleEndian(s, p + 1, 7);
  }

  lemma CountingWord(s: seq<Byte>, p: nat, w: Word)
    requires Counting(s) && p + 8 <= |s| && w as int == 0x0706050403020100 + p * 0x0101010101010101
    ensures Load8(s, p) == w
  {
    hide LittleEndian, Wrap;
    CountingLoads(s, p);
    Wrapped(LittleEndian(s, p, 8), w);
  }

  lemma CountingHalf(s: seq<Byte>, p: nat, w: Word)
    requires Counting(s) && p + 4 <= |s| && w as int == 0x03020100 + p * 0x01010101
    ensures Load4(s, p) == w
  {
    hide LittleEndian, Wrap;
    CountingLoads(s, p);
    Wrapped(LittleEndian(s, p, 4), w);
  }

  lemma LoadedStripe(l: Lanes, s: seq<Byte>, p: nat, w1: Word, w2: Word, w3: Word, w4: Word)
    requires p + 32 <= |s| && Load8(s, p) == w1 && Load8(s, p + 8) == w2 && Load8(s, p + 16) == w3 && Load8(s, p + 24) == w4
    ensures Stripe(l, s, p) == Lanes(Round(l.v1, w1), Round(l.v2, w2), Round(l.v3, w3), Round(l.v4, w4))
  {
    hide Round, Load8;
  }

  lemma LanesStripe()
    ensures Start(0) == Lanes(0x60EA27EEADC0B5D6, 0xC2B2AE3D27D4EB4F, 0x0000000000000000, 0x61C8864E7A143579)
    ensures Round(0x60EA27EEADC0B5D6, 0x0706050403020100) == 0xF4B53B57406B5E99
    ensures Round(0xC2B2AE3D27D4EB4F, 0x0F0E0D0C0B0A0908) == 0xC3D34B511FC32561
    ensures Round(0x0000000000000000, 0x1716151413121110) == 0xCB26C007C8A1553F
    ensures Round(0x61C8864E7A143579, 0x1F1E1D1C1B1A1918) == 0x9A44D001A7F91C07
  {
  }

  lemma ConvergeStripe()
    ensures Converge(Lanes(0xF4B53B57406B5E99, 0xC3D34B511FC32561, 0xCB26C007C8A1553F, 0x9A44D001A7F91C07)) == 0xC845DBC88C411C2D
  {
    hide MergeRound;
    assert MergeRound(0x7F173BACE7DBD3D9, 0xF4B53B57406B5E99) == 0xF4F010017EB0B31E by { MergeStripe0(); }
    assert MergeRound(0xF4F010017EB0B31E, 0xC3D34B511FC32561) == 0x3EBAF0888F893B86 by { MergeStripe1(); }
    assert MergeRound(0x3EBAF0888F893B86, 0xCB26C007C8A1553F) == 0x570DD21AF61C37A7 by { MergeStripe2(); }
    assert MergeRound(0x570DD21AF61C37A7, 0x9A44D001A7F91C07) == 0xC845DBC88C411C2D by { MergeStripe3(); }
  }

  lemma MergeStripe0()
    ensures MergeRound(0x7F173BACE7DBD3D9, 0xF4B53B57406B5E99) == 0xF4F010017EB0B31E
  {
  }

  lemma MergeStripe1()
    ensures MergeRound(0xF4F010017EB0B31E, 0xC3D34B511FC32561) == 0x3EBAF0888F893B86
  {
  }

  lemma MergeStripe2()
    ensures MergeRound(0x3EBAF0888F893B86, 0xCB26C007C8A1553F) == 0x570DD21AF61C37A7
  {
  }

  lemma MergeStripe3()
    ensures MergeRound(0x570DD21AF61C37A7, 0x9A44D001A7F91C07) == 0xC845DBC88C411C2D
  {
  }

  lemma TailStripe()
    ensures Mix8(0xC845DBC88C411C5C, 0x2726252423222120) == 0xA6033E8CD53BDE8D
    ensures Mix4(0xA6033E8CD53BDE8D, 0x000000002B2A2928) == 0x9626E388AACFDFEC
    ensures Mix1(0x9626E388AACFDFEC, 44) == 0x2BABD21BD6531DB3
    ensures Mix1(0x2BABD21BD6531DB3, 45) == 0xAC91634DE94AD492
    ensures Mix1(0xAC91634DE94AD492, 46) == 0xD7866A8745278C0A
    ensures Avalanche(0xD7866A8745278C0A) == 0x0D9883A03E7BFBB8
  {
  }

  /** The bytes 0 to 46 with seed 0: a stripe, eight bytes, four, and three single ones. */
  lemma KnownStripe(s: seq<Byte>)
    requires Counting(s) && |s| == 47
    ensures Hash(s, 0) == 0x0D9883A03E7BFBB8
  {
    hide Stripes, Rest, Stripe, Start, Round, Converge, MixTail, Load8, Load4, Mix8, Mix4, Mix1, Avalanche, Wrap, LittleEndian;
    LanesStripe();
    assert s[0..] == s;
    CountingWord(s, 0, 0x0706050403020100);
    CountingWord(s, 8, 0x0F0E0D0C0B0A0908);
    CountingWord(s, 16, 0x1716151413121110);
    CountingWord(s, 24, 0x1F1E1D1C1B1A1918);
    LoadedStripe(Lanes(0x60EA27EEADC0B5D6, 0xC2B2AE3D27D4EB4F, 0x0000000000000000, 0x61C8864E7A143579), s, 0,
                 0x0706050403020100, 0x0F0E0D0C0B0A0908, 0x1716151413121110, 0x1F1E1D1C1B1A1918);
    StripesStep(Lanes(0x60EA27EEADC0B5D6, 0xC2B2AE3D27D4EB4F, 0x0000000000000000, 0x61C8864E7A143579), s, 0);
    StripesStep(Lanes(0xF4B53B57406B5E99, 0xC3D34B511FC32561, 0xCB26C007C8A1553F, 0x9A44D001A7F91C07), s, 32);
    ConvergeStripe();
    Wrapped(47, 47);
    TailStripe();
    CountingWord(s, 32, 0x2726252423222120);
    MixStep(0xC845DBC88C411C5C, s, 32);
    CountingHalf(s, 40, 0x000000002B2A2928);
    MixStep(0xA6033E8CD53BDE8D, s, 40);
    MixStep(0x9626E388AACFDFEC, s, 44);
    MixStep(0x2BABD21BD6531DB3, s, 45);
    MixStep(0xAC91634DE94AD492, s, 46);
    MixStep(0xD7866A8745278C0A, s, 47);
  }

  lemma LanesStripes()
    ensures Start(0x000000009E3779B1) == Lanes(0x60EA27EF4BF82F87, 0xC2B2AE3DC60C6500, 0x000000009E3779B1, 0x61C8864F184BAF2A)
    ensures Round(0x60EA27EF4BF82F87, 0x0706050403020100) == 0xE4962682C06B5E99
    ensures Round(0xC2B2AE3DC60C6500, 0x0F0E0D0C0B0A0908) == 0xB3B4367C9FC32561
    ensures Round(0x000000009E3779B1, 0x1716151413121110) == 0xBB07AB3348A1553F
    ensures Round(0x61C8864F184BAF2A, 0x1F1E1D1C1B1A1918) == 0x8A25BB2D27F91C07
    ensures Round(0xE4962682C06B5E99, 0x2726252423222120) == 0x0C95F364E171F4F4
    ensures Round(0xB3B4367C9FC32561, 0x2F2E2D2C2B2A2928) == 0x6C49CEEEB29A6496
    ensures Round(0xBB07AB3348A1553F, 0x3736353433323130) == 0x17B0AAE878DF0FCA
    ensures Round(0x8A25BB2D27F91C07, 0x3F3E3D3C3B3A3938) == 0x776486724A077F6C
  {
  }

  lemma ConvergeStripes()
    ensures Converge(Lanes(0x0C95F364E171F4F4, 0x6C49CEEEB29A6496, 0x17B0AAE878DF0FCA, 0x776486724A077F6C)) == 0xD43182D4685CB36B
  {
    hide MergeRound;
    assert MergeRound(0x628B0DCEFEC4B42B, 0x0C95F364E171F4F4) == 0x08ABF67EC2326C94 by { MergeStripes0(); }
    assert MergeRound(0x08ABF67EC2326C94, 0x6C49CEEEB29A6496) == 0xC5BBD704F5384E5B by { MergeStripes1(); }
    assert MergeRound(0xC5BBD704F5384E5B, 0x17B0AAE878DF0FCA) == 0xE855A83BB87B58BE by { MergeStripes2(); }
    assert MergeRound(0xE855A83BB87B58BE, 0x776486724A077F6C) == 0xD43182D4685CB36B by { MergeStripes3(); }
  }

  lemma MergeStripes0()
    ensures MergeRound(0x628B0DCEFEC4B42B, 0x0C95F364E171F4F4) == 0x08ABF67EC2326C94
  {
  }

  lemma MergeStripes1()
    ensures MergeRound(0x08ABF67EC2326C94, 0x6C49CEEEB29A6496) == 0xC5BBD704F5384E5B
  {
  }

  lemma MergeStripes2()
    ensures MergeRound(0xC5BBD704F5384E5B, 0x17B0AAE878DF0FCA) == 0xE855A83BB87B58BE
  {
  }

  lemma MergeStripes3()
    ensures MergeRound(0xE855A83BB87B58BE, 0x776486724A077F6C) == 0xD43182D4685CB36B
  {
  }

  lemma TailStripes()
    ensures Mix8(0xD43182D4685CB3BA, 0x4746454443424140) == 0xED3880960E821A01
    ensures Mix4(0xED3880960E821A01, 0x000000004B4A4948) == 0x82698B13430A7938
    ensures Mix1(0x82698B13430A7938, 76) == 0x221AC7C6EB171AC6
    ensures Mix1(0x221AC7C6EB171AC6, 77) == 0x223112208EFEEB78
    ensures Mix1(0x223112208EFEEB78, 78) == 0xBF8306316C7E19B1
    ensures Avalanche(0xBF8306316C7E19B1) == 0x42784C1F1F233F8D
  {
  }

  /** The bytes 0 to 78 with another seed: two stripes, eight bytes, four, and three single ones. */
  lemma KnownStripes(s: seq<Byte>)
    requires Counting(s) && |s| == 79
    ensures Hash(s, 0x000000009E3779B1) == 0x42784C1F1F233F8D
  {
    hide Stripes, Rest, Stripe, Start, Round, Converge, MixTail, Load8, Load4, Mix8, Mix4, Mix1, Avalanche, Wrap, LittleEndian;
    LanesStripes();
    assert s[0..] == s;
    CountingWord(s, 0, 0x0706050403020100);
    CountingWord(s, 8, 0x0F0E0D0C0B0A0908);
    CountingWord(s, 16, 0x1716151413121110);
    CountingWord(s, 24, 0x1F1E1D1C1B1A1918);
    LoadedStripe(Lanes(0x60EA27EF4BF82F87, 0xC2B2AE3DC60C6500, 0x000000009E3779B1, 0x61C8864F184BAF2A), s, 0,
                 0x0706050403020100, 0x0F0E0D0C0B0A0908, 0x1716151413121110, 0x1F1E1D1C1B1A1918);
    StripesStep(Lanes(0x60EA27EF4BF82F87, 0xC2B2AE3DC60C6500, 0x000000009E3779B1, 0x61C8864F184BAF2A), s, 0);
    CountingWord(s, 32, 0x2726252423222120);
    CountingWord(s, 40, 0x2F2E2D2C2B2A2928);
    CountingWord(s, 48, 0x3736353433323130);
    CountingWord(s, 56, 0x3F3E3D3C3B3A3938);
    LoadedStripe(Lanes(0xE4962682C06B5E99, 0xB3B4367C9FC32561, 0xBB07AB3348A1553F, 0x8A25BB2D27F91C07), s, 32,
                 0x2726252423222120, 0x2F2E2D2C2B2A2928, 0x3736353433323130, 0x3F3E3D3C3B3A3938);
    StripesStep(Lanes(0xE4962682C06B5E99, 0xB3B4367C9FC32561, 0xBB07AB3348A1553F, 0x8A25BB2D27F91C07), s, 32);
    StripesStep(Lanes(0x0C95F364E171F4F4, 0x6C49CEEEB29A6496, 0x17B0AAE878DF0FCA, 0x776486724A077F6C), s, 64);
    ConvergeStripes();
    Wrapped(79, 79);
    TailStripes();
    CountingWord(s, 64, 0x4746454443424140);
    MixStep(0xD43182D4685CB3BA, s, 64);
    CountingHalf(s, 72, 0x000000004B4A4948);
    MixStep(0xED3880960E821A01, s, 72);
    MixStep(0x82698B13430A7938, s, 76);
    MixStep(0x221AC7C6EB171AC6, s, 77);
    MixStep(0x223112208EFEEB78, s, 78);
    MixStep(0xBF8306316C7E19B1, s, 79);
  }
}
