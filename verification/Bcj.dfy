/** The x86 branch-conversion filter (`vv_bcj_x86`, src/vv_bcj.c:45-105), claimed to be a bijection on
    arbitrary bytes. It is specified by a recursive function on the unread suffix and a three-bit
    history mask; the in-place scanner is proved to compute exactly this function. */
module Bcj {
  import opened Arith
  import BcjRule
  import opened Bytes

  /** The position term `ip + pos` of a conversion, wrapped to 32 bits. */
  function Cur(ip: nat, pos: nat): Word32 {
    (ip + pos) % TWO_TO_THE_32
  }

  predicate TestMsb(b: Byte) {
    b == 0x00 || b == 0xFF
  }

  /** `(b & 0xFE) == 0xE8`. */
  predicate IsBranch(b: Byte) {
    b == 0xE8 || b == 0xE9
  }

  //////////////////////////////////////////////////////////////////////////////
  // One 32-bit operand
  //////////////////////////////////////////////////////////////////////////////

  /** The four operand bytes that follow a branch opcode, least significant first. */
  datatype Operand = Operand(b1: Byte, b2: Byte, b3: Byte, b4: Byte)

  function Load(o: Operand): Word32 {
    o.b4 * 0x100_0000 + o.b3 * 0x1_0000 + o.b2 * 0x100 + o.b1
  }

  /** Stores 25 bits: the top byte becomes the sign extension of bit 24. */
  function Store(v: Word32): Operand {
    Operand(v % 0x100, v / 0x100 % 0x100, v / 0x1_0000 % 0x100,
            if v / 0x100_0000 % 2 == 1 then 0xFF else 0x00)
  }

  /** The history mask is a three-bit value; `mask | 4` after a right shift is `mask / 2 + 4`. */
  type Mask = m: nat | m < 8

  function Push(mask: Mask): Mask {
    mask / 2 + 4
  }

  /** The operand byte an earlier sighting already examined: 1, 2 or 3 for masks 1, 2 and 4. */
  function Probe(mask: Mask): nat {
    mask / 2 + 1
  }

  function ByteAt(o: Operand, i: nat): Byte {
    if i == 1 then o.b1 else if i == 2 then o.b2 else if i == 3 then o.b3 else o.b4
  }

  /** The operand bits up to and including the probed byte, as a modulus. */
  function Span(mask: Mask): int {
    if mask < 2 then 0x100 else if mask < 4 then 0x1_0000 else 0x100_0000
  }

  function Shift(v: Word32, cur: Word32, encoding: bool): Word32 {
    if encoding then (v + cur) % TWO_TO_THE_32 else (v - cur) % TWO_TO_THE_32
  }

  /** `v ^ (Span - 1)`: the bits below the span are complemented. */
  function Flip(v: Word32, mask: Mask): Word32 {
    var low := v % Span(mask);
    assert v - low >= 0 && v - low + Span(mask) <= TWO_TO_THE_32;
    v - low + (Span(mask) - 1 - low)
  }

  function ProbedByte(v: Word32, mask: Mask): Byte {
    if mask < 2 then v % 0x100 else if mask < 4 then v / 0x100 % 0x100 else v / 0x1_0000 % 0x100
  }

  /** One conversion of the operand word. With a sighting pending, a result whose probed byte
      became 00 or FF is complemented up to that byte and shifted again. */
  function Word(v: Word32, cur: Word32, mask: Mask, encoding: bool): Word32 {
    var w := Shift(v, cur, encoding);
    if mask != 0 && TestMsb(ProbedByte(w, mask)) then Shift(Flip(w, mask), cur, encoding) else w
  }

  function Convert(o: Operand, cur: Word32, mask: Mask, encoding: bool): Operand {
    Store(Word(Load(o), cur, mask, encoding))
  }

  ghost predicate Convertible(o: Operand, mask: Mask) {
    && TestMsb(o.b4)
    && (mask != 0 ==> mask in {1, 2, 4} && !TestMsb(ByteAt(o, Probe(mask))))
  }

  /** The probed byte is 00 or FF exactly when the spanned value lies in the outer 256ths. */
  lemma ProbedExtreme(v: Word32, mask: Mask)
    ensures TestMsb(ProbedByte(v, mask)) <==>
            (v % Span(mask) < Span(mask) / 0x100 || v % Span(mask) >= Span(mask) - Span(mask) / 0x100)
  {
    MiddleDigit(v / 0x1_0000, v % 0x1_0000, 0x100, 0x100, 0x1_0000);
    MiddleDigit(v / 0x100_0000, v % 0x100_0000, 0x1_0000, 0x100, 0x100_0000);
  }

  lemma ShiftSpan(v: Word32, cur: Word32, k: int, n: int, encoding: bool)
    requires k > 0 && n > 0 && n * k == TWO_TO_THE_32
    ensures Shift(v, cur, encoding) % k == (if encoding then v % k + cur % k else v % k - cur % k) % k
  {
    ModOfMod(if encoding then v + cur else v - cur, k, n);
    ModSum(v, cur, k);
    ModDifference(v, cur, k);
  }

  lemma FlipSpan(v: Word32, mask: Mask)
    ensures Flip(v, mask) % Span(mask) == Span(mask) - 1 - v % Span(mask)
    ensures Flip(Flip(v, mask), mask) == v
  {
    var k := Span(mask);
    DivModUnique(Flip(v, mask), k, v / k, k - 1 - v % k);
  }

  lemma ShiftBack(v: Word32, cur: Word32, encoding: bool)
    ensures Shift(Shift(v, cur, encoding), cur, !encoding) == v
  {
  }

  /** Complementing between two equal shifts complements the spanned value overall. */
  lemma Complement(v: Word32, cur: Word32, mask: Mask, encoding: bool)
    ensures Shift(Flip(Shift(v, cur, encoding), mask), cur, encoding) % Span(mask) == Span(mask) - 1 - v % Span(mask)
  {
    hide Shift, Flip;
    var w := Shift(v, cur, encoding);
    var k := Span(mask);
    var n := TWO_TO_THE_32 / k;
    ShiftSpan(v, cur, k, n, encoding);
    FlipSpan(w, mask);
    ShiftSpan(Flip(w, mask), cur, k, n, encoding);
    ComplementSpan(v % k, cur % k, k, encoding);
  }

  lemma ComplementSpan(x: int, c: int, k: int, encoding: bool)
    requires 0 <= x < k && 0 <= c < k
    ensures encoding ==> ((k - 1 - (x + c) % k) + c) % k == k - 1 - x
    ensures !encoding ==> ((k - 1 - (x - c) % k) - c) % k == k - 1 - x
  {
    if encoding {
      var e := if x + c >= k then 1 else 0;
      DivModUnique(x + c, k, e, x + c - e * k);
      DivModUnique(k - 1 - (x + c) % k + c, k, e, k - 1 - x);
    } else {
      var e := if x - c < 0 then 1 else 0;
      DivModUnique(x - c, k, -e, x - c + e * k);
      DivModUnique(k - 1 - (x - c) % k - c, k, -e, k - 1 - x);
    }
  }

  /** On a word whose probed byte is outside {00,FF} the conversion keeps it outside and the
      opposite direction undoes it. */
  lemma WordInverse(v: Word32, cur: Word32, mask: Mask, encoding: bool)
    requires mask != 0 ==> !TestMsb(ProbedByte(v, mask))
    ensures mask != 0 ==> !TestMsb(ProbedByte(Word(v, cur, mask, encoding), mask))
    ensures Word(Word(v, cur, mask, encoding), cur, mask, !encoding) == v
  {
    hide Shift, Flip, ProbedByte, TestMsb;
    var w := Shift(v, cur, encoding);
    ShiftBack(v, cur, encoding);
    if mask != 0 && TestMsb(ProbedByte(w, mask)) {
      var u := Flip(w, mask);
      var r := Shift(u, cur, encoding);
      Complement(v, cur, mask, encoding);
      FlipSpan(w, mask);
      ShiftBack(u, cur, encoding);
      ProbedExtreme(v, mask);
      ProbedExtreme(w, mask);
      ProbedExtreme(u, mask);
      ProbedExtreme(r, mask);
    }
  }

  const LOW25: int := 0x200_0000

  /** Conversion reads and determines the low 25 bits only. */
  lemma WordLow(v: Word32, w: Word32, cur: Word32, mask: Mask, encoding: bool)
    requires v % LOW25 == w % LOW25
    ensures Word(v, cur, mask, encoding) % LOW25 == Word(w, cur, mask, encoding) % LOW25
  {
    hide Shift, Flip, ProbedByte, TestMsb;
    var v', w' := Shift(v, cur, encoding), Shift(w, cur, encoding);
    LowShift(v, w, cur, encoding);
    LowFlip(v', w', mask);
    LowShift(Flip(v', mask), Flip(w', mask), cur, encoding);
  }

  lemma LowShift(v: Word32, w: Word32, cur: Word32, encoding: bool)
    requires v % LOW25 == w % LOW25
    ensures Shift(v, cur, encoding) % LOW25 == Shift(w, cur, encoding) % LOW25
  {
    hide Shift;
    ShiftSpan(v, cur, LOW25, 0x80, encoding);
    ShiftSpan(w, cur, LOW25, 0x80, encoding);
  }

  /** Words that agree in their low 25 bits agree in every smaller power of two. */
  lemma LowSpan(v: Word32, w: Word32, k: int, n: int)
    requires v % LOW25 == w % LOW25
    requires k > 0 && n > 0 && n * k == LOW25
    ensures v % k == w % k
  {
    ModOfMod(v, k, n);
    ModOfMod(w, k, n);
  }

  lemma LowFlip(v: Word32, w: Word32, mask: Mask)
    requires v % LOW25 == w % LOW25
    ensures Flip(v, mask) % LOW25 == Flip(w, mask) % LOW25
    ensures TestMsb(ProbedByte(v, mask)) == TestMsb(ProbedByte(w, mask))
  {
    hide TestMsb, ProbedByte;
    var k := Span(mask);
    LowSpan(v, w, k, LOW25 / k);
    ProbedExtreme(v, mask);
    ProbedExtreme(w, mask);
    ModSum(v, k - 1 - 2 * (v % k), LOW25);
    ModSum(w, k - 1 - 2 * (w % k), LOW25);
  }

  lemma LoadStore(v: Word32)
    ensures TestMsb(Store(v).b4)
    ensures Load(Store(v)) % LOW25 == v % LOW25
  {
    StoreDigits(v);
    assert v % 0x1_0000 % 0x100 == v % 0x100 by { ModOfMod(v, 0x100, 0x100); }
    assert v % 0x100_0000 % 0x1_0000 == v % 0x1_0000 by { ModOfMod(v, 0x1_0000, 0x100); }
    assert v % LOW25 % 0x100_0000 == v % 0x100_0000 by { ModOfMod(v, 0x100_0000, 2); }
    LoadDigits(Store(v), v % LOW25);
  }

  lemma LoadDigits(o: Operand, w: int)
    requires 0 <= w < LOW25
    requires o.b1 == w % 0x100_0000 % 0x1_0000 % 0x100
    requires o.b2 == w % 0x100_0000 % 0x1_0000 / 0x100
    requires o.b3 == w % 0x100_0000 / 0x1_0000
    requires o.b4 == if w / 0x100_0000 == 1 then 0xFF else 0x00
    ensures Load(o) % LOW25 == w
  {
    var high := w / 0x100_0000;
    assert w == high * 0x100_0000 + o.b3 * 0x1_0000 + o.b2 * 0x100 + o.b1;
    DivModUnique(Load(o), LOW25, if high == 1 then 0x7F else 0, w);
  }

  lemma StoreLoad(o: Operand)
    requires TestMsb(o.b4)
    ensures Store(Load(o)) == o
  {
    LoadQuotients(o);
    var v := Load(o);
    DivModUnique(v / 0x100_0000, 2, o.b4 / 2, o.b4 % 2);
  }

  /** The operand bytes as remainders of successive quotients. */
  lemma LoadQuotients(o: Operand)
    ensures Load(o) % 0x100 == o.b1
    ensures Load(o) / 0x100 % 0x100 == o.b2
    ensures Load(o) / 0x1_0000 % 0x100 == o.b3
    ensures Load(o) / 0x100_0000 == o.b4
  {
    var v := Load(o);
    DivModUnique(v, 0x100, o.b4 * 0x1_0000 + o.b3 * 0x100 + o.b2, o.b1);
    DivModUnique(v / 0x100, 0x100, o.b4 * 0x100 + o.b3, o.b2);
    DivModUnique(v, 0x1_0000, o.b4 * 0x100 + o.b3, o.b2 * 0x100 + o.b1);
    DivModUnique(v / 0x1_0000, 0x100, o.b4, o.b3);
    DivModUnique(v, 0x100_0000, o.b4, o.b3 * 0x1_0000 + o.b2 * 0x100 + o.b1);
  }

  lemma StoreLow(v: Word32, w: Word32)
    requires v % LOW25 == w % LOW25
    ensures Store(v) == Store(w)
  {
    LowSpan(v, w, 0x100, 0x2_0000);
    LowSpan(v, w, 0x1_0000, 0x200);
    LowSpan(v, w, 0x100_0000, 2);
    StoreDigits(v);
    StoreDigits(w);
  }

  lemma StoreDigits(v: Word32)
    ensures Store(v).b1 == v % 0x100
    ensures Store(v).b2 == v % 0x1_0000 / 0x100
    ensures Store(v).b3 == v % 0x100_0000 / 0x1_0000
    ensures Store(v).b4 == if v % LOW25 / 0x100_0000 == 1 then 0xFF else 0x00
  {
    DigitsOf(v);
    MiddleDigit(v / LOW25, v % LOW25, 0x100_0000, 2, LOW25);
  }

  lemma ProbeOperand(o: Operand, v: Word32, mask: Mask)
    requires mask in {1, 2, 4}
    ensures ProbedByte(Load(o), mask) == ByteAt(o, Probe(mask))
    ensures ByteAt(Store(v), Probe(mask)) == ProbedByte(v, mask)
  {
    hide Store, Load;
    StoreDigits(v);
    LoadQuotients(o);
    DigitsOf(v);
  }

  lemma DigitsOf(v: Word32)
    ensures v / 0x100 % 0x100 == v % 0x1_0000 / 0x100
    ensures v / 0x1_0000 % 0x100 == v % 0x100_0000 / 0x1_0000
  {
    MiddleDigit(v / 0x1_0000, v % 0x1_0000, 0x100, 0x100, 0x1_0000);
    MiddleDigit(v / 0x100_0000, v % 0x100_0000, 0x1_0000, 0x100, 0x100_0000);
  }

  /** Conversion stays convertible under the same mask, and the opposite direction undoes it. */
  lemma ConvertInverse(o: Operand, cur: Word32, mask: Mask, encoding: bool)
    requires Convertible(o, mask)
    ensures Convertible(Convert(o, cur, mask, encoding), mask)
    ensures Convert(Convert(o, cur, mask, encoding), cur, mask, !encoding) == o
  {
    hide Load, Store, Word, TestMsb, ProbedByte, ByteAt, Probe;
    var v := Load(o);
    var w := Word(v, cur, mask, encoding);
    if mask != 0 {
      ProbeOperand(o, w, mask);
    }
    WordInverse(v, cur, mask, encoding);
    LoadStore(w);
    WordLow(Load(Store(w)), w, cur, mask, !encoding);
    StoreLow(Word(Load(Store(w)), cur, mask, !encoding), v);
    StoreLoad(o);
  }

  //////////////////////////////////////////////////////////////////////////////
  // The x86 filter
  //////////////////////////////////////////////////////////////////////////////

  function OperandAt(s: seq<Byte>): Operand
    requires |s| >= 5
  {
    Operand(s[1], s[2], s[3], s[4])
  }

  /** Whether the branch byte at the head of `s` is passed over without converting. */
  predicate Skips(s: seq<Byte>, mask: Mask)
    requires |s| >= 5
  {
    || (mask != 0 && (mask > 4 || mask == 3 || TestMsb(s[Probe(mask)])))
    || !TestMsb(s[4])
  }

  /** The filter on the suffix `s` that starts at position `pos`, under history `mask`. */
  function X86(s: seq<Byte>, ip: nat, pos: nat, mask: Mask, encoding: bool): (r: seq<Byte>)
    ensures |r| == |s|
    decreases |s|
  {
    if |s| < 5 then s
    else if !IsBranch(s[0]) then [s[0]] + X86(s[1..], ip, pos + 1, mask / 2, encoding)
    else if Skips(s, mask) then [s[0]] + X86(s[1..], ip, pos + 1, Push(mask), encoding)
    else
      var o := Convert(OperandAt(s), Cur(ip, pos), mask, encoding);
      [s[0], o.b1, o.b2, o.b3, o.b4] + X86(s[5..], ip, pos + 5, 0, encoding)
  }

  /** A byte an earlier sighting examined keeps its 00/FF status through every later
      conversion, for each sighting still recorded in the mask. */
  lemma {:induction false} ExaminedByteStable(s: seq<Byte>, ip: nat, pos: nat, mask: Mask, encoding: bool, i: nat)
    requires i + 1 < |s|
    requires (i == 0 && mask % 2 == 1) || (i == 1 && mask / 2 % 2 == 1) || (i == 2 && mask / 4 == 1)
    ensures X86(s, ip, pos, mask, encoding)[0] == s[0]
    ensures TestMsb(X86(s, ip, pos, mask, encoding)[i + 1]) == TestMsb(s[i + 1])
    decreases |s|
  {
    hide Convert, Cur, IsBranch;
    if |s| >= 5 {
      if !IsBranch(s[0]) || Skips(s, mask) {
        var next: Mask := if IsBranch(s[0]) then Push(mask) else mask / 2;
        if i > 0 {
          ExaminedByteStable(s[1..], ip, pos + 1, next, encoding, i - 1);
        } else {
          X86KeepsHead(s[1..], ip, pos + 1, next, encoding);
        }
      } else {
        ConvertInverse(OperandAt(s), Cur(ip, pos), mask, encoding);
      }
    }
  }

  lemma X86KeepsHead(s: seq<Byte>, ip: nat, pos: nat, mask: Mask, encoding: bool)
    requires s != []
    ensures X86(s, ip, pos, mask, encoding)[0] == s[0]
  {
  }

  /** Both runs take the same branch at a branch byte. */
  lemma SameDecision(s: seq<Byte>, ip: nat, pos: nat, mask: Mask, encoding: bool)
    requires |s| >= 5 && IsBranch(s[0]) && Skips(s, mask)
    ensures Skips(X86(s, ip, pos, mask, encoding), mask)
  {
    var r := X86(s, ip, pos, mask, encoding);
    assert r == [s[0]] + X86(s[1..], ip, pos + 1, Push(mask), encoding);
    assert r[4] == X86(s[1..], ip, pos + 1, Push(mask), encoding)[3];
    ExaminedByteStable(s[1..], ip, pos + 1, Push(mask), encoding, 2);
    if mask in {1, 2, 4} {
      ExaminedByteStable(s, ip, pos, mask, encoding, mask / 2);
    }
  }

  /** The filter is a bijection: running it in the opposite direction, from the same start and
      with the same history, restores every byte. */
  lemma {:induction false} X86Inverse(s: seq<Byte>, ip: nat, pos: nat, mask: Mask, encoding: bool)
    ensures X86(X86(s, ip, pos, mask, encoding), ip, pos, mask, !encoding) == s
    decreases |s|
  {
    var r := X86(s, ip, pos, mask, encoding);
    if |s| < 5 {
    } else if !IsBranch(s[0]) {
      assert r[1..] == X86(s[1..], ip, pos + 1, mask / 2, encoding);
      X86Inverse(s[1..], ip, pos + 1, mask / 2, encoding);
    } else if Skips(s, mask) {
      SameDecision(s, ip, pos, mask, encoding);
      assert r[1..] == X86(s[1..], ip, pos + 1, Push(mask), encoding);
      X86Inverse(s[1..], ip, pos + 1, Push(mask), encoding);
    } else {
      var o := OperandAt(s);
      ConvertInverse(o, Cur(ip, pos), mask, encoding);
      assert OperandAt(r) == Convert(o, Cur(ip, pos), mask, encoding);
      assert !Skips(r, mask);
      assert r[5..] == X86(s[5..], ip, pos + 5, 0, encoding);
      X86Inverse(s[5..], ip, pos + 5, 0, encoding);
    }
  }

  /** What a run does at a position: no branch opcode there, one passed over, or one converted. */
  datatype Action = Scanned | PassedOver | Converted

  datatype Visit = Visit(pos: nat, mask: Mask, action: Action)

  /** The positions a run over `s` stops at, with the history it has there and what it does. */
  function Trace(s: seq<Byte>, pos: nat, mask: Mask): seq<Visit>
    decreases |s|
  {
    if |s| < 5 then []
    else if !IsBranch(s[0]) then [Visit(pos, mask, Scanned)] + Trace(s[1..], pos + 1, mask / 2)
    else if Skips(s, mask) then [Visit(pos, mask, PassedOver)] + Trace(s[1..], pos + 1, Push(mask))
    else [Visit(pos, mask, Converted)] + Trace(s[5..], pos + 5, 0)
  }

  /** A run over the filtered bytes stops at the same positions, with the same history, and does the same. */
  lemma {:induction false} SameTrace(s: seq<Byte>, ip: nat, pos: nat, mask: Mask, encoding: bool)
    ensures Trace(X86(s, ip, pos, mask, encoding), pos, mask) == Trace(s, pos, mask)
    decreases |s|
  {
    var r := X86(s, ip, pos, mask, encoding);
    if |s| < 5 {
    } else if !IsBranch(s[0]) {
      assert r[1..] == X86(s[1..], ip, pos + 1, mask / 2, encoding);
      SameTrace(s[1..], ip, pos + 1, mask / 2, encoding);
    } else if Skips(s, mask) {
      SameDecision(s, ip, pos, mask, encoding);
      assert r[1..] == X86(s[1..], ip, pos + 1, Push(mask), encoding);
      SameTrace(s[1..], ip, pos + 1, Push(mask), encoding);
    } else {
      var o := OperandAt(s);
      ConvertInverse(o, Cur(ip, pos), mask, encoding);
      assert OperandAt(r) == Convert(o, Cur(ip, pos), mask, encoding);
      assert r[5..] == X86(s[5..], ip, pos + 5, 0, encoding);
      SameTrace(s[5..], ip, pos + 5, 0, encoding);
    }
  }

  //////////////////////////////////////////////////////////////////////////////
  // The filter follows the rule
  //////////////////////////////////////////////////////////////////////////////

  lemma LoadLow(o: Operand)
    ensures Load(o) % LOW25 == o.b1 + 0x100 * (o.b2 as int) + 0x1_0000 * (o.b3 as int) + 0x100_0000 * (o.b4 as int % 2)
  {
    var b4: int := o.b4;
    DivModUnique(Load(o), LOW25, b4 / 2, o.b1 + 0x100 * (o.b2 as int) + 0x1_0000 * (o.b3 as int) + 0x100_0000 * (b4 % 2));
  }

  lemma ShiftMoves(v: Word32, ip: nat, pos: nat, encoding: bool)
    ensures Shift(v, Cur(ip + 5, pos), encoding) % LOW25 == BcjRule.Moved(v % LOW25, ip, pos, encoding)
  {
    hide Shift;
    var c := ip + 5 + pos;
    ShiftSpan(v, Cur(ip + 5, pos), LOW25, 0x80, encoding);
    ModOfMod(c, LOW25, 0x80);
    ModSum(v % LOW25, c, LOW25);
    ModDifference(v % LOW25, c, LOW25);
    DivModUnique(v % LOW25, LOW25, 0, v % LOW25);
  }

  /** How far back the branch of a history with one sighting is. */
  function Distance(mask: Mask): nat {
    if mask == 4 then 1 else if mask == 2 then 2 else if mask == 1 then 3 else 0
  }

  lemma ProbedSpoils(w: Word32, mask: Mask)
    requires mask in {1, 2, 4}
    ensures TestMsb(ProbedByte(w, mask)) == BcjRule.Spoiled(w % LOW25, Distance(mask))
    ensures w % LOW25 % Span(mask) == w % Span(mask)
  {
    DigitsOf(w);
    ModOfMod(w, Span(mask), LOW25 / Span(mask));
  }

  lemma FlipLow(w: Word32, mask: Mask)
    requires mask in {1, 2, 4}
    ensures var l := w % LOW25; var k := Span(mask); Flip(w, mask) % LOW25 == l - l % k + (k - 1 - l % k)
  {
    var k := Span(mask);
    ModOfMod(w, k, LOW25 / k);
    var l := w % LOW25;
    var moved := l - l % k + (k - 1 - l % k);
    assert l % k == l - k * (l / k) && 0 <= l / k;
    assert l < LOW25 / k * k;
    assert l / k < LOW25 / k by { DigitBound(l, k, LOW25 / k); }
    MulMono(l / k, LOW25 / k - 1, k);
    DivModUnique(Flip(w, mask), LOW25, w / LOW25, moved);
  }

  /** A converted operand is what the rule says. */
  lemma WordResult(v: Word32, ip: nat, pos: nat, mask: Mask, encoding: bool)
    requires mask in {0, 1, 2, 4}
    ensures Word(v, Cur(ip + 5, pos), mask, encoding) % LOW25 == BcjRule.Result(v % LOW25, ip, pos, Distance(mask), encoding)
  {
    hide Shift, Flip, ProbedByte, TestMsb, Cur, BcjRule.Moved, BcjRule.Spoiled;
    var w := Shift(v, Cur(ip + 5, pos), encoding);
    ShiftMoves(v, ip, pos, encoding);
    if mask != 0 {
      ProbedSpoils(w, mask);
      FlipLow(w, mask);
      ShiftMoves(Flip(w, mask), ip, pos, encoding);
    }
  }

  lemma OperandResult(s: seq<Byte>, r: seq<Byte>, ip: nat, pos: nat, mask: Mask, encoding: bool)
    requires pos + 5 <= |s| == |r| && mask in {0, 1, 2, 4}
    requires OperandAt(r[pos..]) == Convert(OperandAt(s[pos..]), Cur(ip + 5, pos), mask, encoding)
    ensures BcjRule.Displacement(r, pos) == BcjRule.Result(BcjRule.Displacement(s, pos), ip, pos, Distance(mask), encoding)
    ensures r[pos + 4] == if BcjRule.Displacement(r, pos) < 0x100_0000 then 0x00 else 0xFF
  {
    hide Load, Store, Word, Cur, BcjRule.Result;
    var o, c := OperandAt(s[pos..]), OperandAt(r[pos..]);
    var v := Word(Load(o), Cur(ip + 5, pos), mask, encoding);
    LoadLow(o);
    LoadLow(c);
    LoadStore(v);
    WordResult(Load(o), ip, pos, mask, encoding);
  }

  /** The history is the branches passed over in the last three bytes, the nearest in the highest bit. */
  ghost predicate Recalls(s: seq<Byte>, marks: seq<bool>, pos: nat, mask: Mask) {
    mask == (if BcjRule.Passed(s, marks, pos, 1) then 4 else 0) + (if BcjRule.Passed(s, marks, pos, 2) then 2 else 0)
            + (if BcjRule.Passed(s, marks, pos, 3) then 1 else 0)
  }

  lemma RecallsMeans(s: seq<Byte>, marks: seq<bool>, pos: nat, mask: Mask)
    requires Recalls(s, marks, pos, mask) && pos + 5 <= |s| && IsBranch(s[pos]) && BcjRule.Clear(marks, pos)
    ensures Skips(s[pos..], mask) == !BcjRule.Converts(s, marks, pos)
    ensures !Skips(s[pos..], mask) ==> mask in {0, 1, 2, 4} && Distance(mask) == BcjRule.Back(s, marks, pos)
  {
    hide BcjRule.Passed, BcjRule.Clear;
    var d := BcjRule.Back(s, marks, pos);
    if BcjRule.Passes(s, marks, pos) == 1 {
      PassedInside(s, marks, pos, d);
      assert s[pos..][4 - d] == s[pos - d + 4];
    }
  }

  lemma PassedInside(s: seq<Byte>, marks: seq<bool>, pos: nat, d: nat)
    requires BcjRule.Passed(s, marks, pos, d)
    ensures d <= pos
  {
  }

  /** Marks further on do not matter. */
  lemma SamePassed(s: seq<Byte>, m: seq<bool>, n: seq<bool>, pos: nat, d: nat)
    requires |m| == pos <= |n| && n[..pos] == m && d > 0
    ensures BcjRule.Passed(s, m, pos, d) == BcjRule.Passed(s, n, pos, d)
    ensures BcjRule.Clear(m, pos) == BcjRule.Clear(n, pos)
  {
    SameMarked(m, n);
  }

  lemma SameMarked(m: seq<bool>, n: seq<bool>)
    requires |m| <= |n| && n[..|m|] == m
    ensures forall k: int :: k < |m| ==> BcjRule.Marked(m, k) == BcjRule.Marked(n, k)
  {
    forall k: int | k < |m| ensures BcjRule.Marked(m, k) == BcjRule.Marked(n, k) {
      if k >= 0 {
        assert n[..|m|][k] == n[k];
      }
    }
  }

  /** One byte on, not converted. */
  lemma RecallNext(s: seq<Byte>, marks: seq<bool>, pos: nat, mask: Mask)
    requires |marks| == pos < |s| && Recalls(s, marks, pos, mask) && BcjRule.Clear(marks, pos)
    ensures Recalls(s, marks + [false], pos + 1, if IsBranch(s[pos]) then Push(mask) else mask / 2)
    ensures BcjRule.Clear(marks + [false], pos + 1)
  {
    var n := marks + [false];
    SameMarked(marks, n);
    assert BcjRule.Passed(s, n, pos + 1, 1) == IsBranch(s[pos]);
    assert BcjRule.Passed(s, n, pos + 1, 2) == BcjRule.Passed(s, marks, pos, 1);
    assert BcjRule.Passed(s, n, pos + 1, 3) == BcjRule.Passed(s, marks, pos, 2);
  }

  /** Behind a converted operand. */
  lemma RecallNothing(s: seq<Byte>, marks: seq<bool>, pos: nat)
    requires |marks| == pos + 5 <= |s| && marks[pos] && forall k :: pos < k < pos + 5 ==> !marks[k]
    ensures Recalls(s, marks, pos + 5, 0) && BcjRule.Clear(marks, pos + 5)
  {
    assert BcjRule.Marked(marks, pos);
  }

  /** A run from `pos` on, given what was converted before, converts what the rule says. */
  lemma {:induction false} RunFollows(s: seq<Byte>, r: seq<Byte>, ip: nat, pos: nat, mask: Mask, encoding: bool, marks: seq<bool>)
    returns (all: seq<bool>)
    requires |r| == |s| && |marks| == pos <= |s| && Recalls(s, marks, pos, mask) && BcjRule.Clear(marks, pos)
    requires r[pos..] == X86(s[pos..], ip + 5, pos, mask, encoding)
    ensures |all| == |s| && all[..pos] == marks
    ensures forall p :: pos <= p < |s| ==> BcjRule.Settled(s, r, ip, all, p, encoding)
    decreases |s| - pos
  {
    hide Convert, Skips, Recalls, BcjRule.Clear, BcjRule.Converts, BcjRule.Displacement, BcjRule.Result, IsBranch;
    if |s| - pos < 5 {
      all := marks + seq(|s| - pos, _ => false);
      RunEnds(s, r, ip, pos, encoding, all);
    } else if !IsBranch(s[pos]) || Skips(s[pos..], mask) {
      var next: Mask := if IsBranch(s[pos]) then Push(mask) else mask / 2;
      RecallNext(s, marks, pos, mask);
      assert r[pos + 1..] == r[pos..][1..] && s[pos + 1..] == s[pos..][1..];
      all := RunFollows(s, r, ip, pos + 1, next, encoding, marks + [false]);
      assert all[..pos] == all[..pos + 1][..pos];
      PassSettled(s, r, ip, pos, mask, encoding, marks, all);
    } else {
      var done := marks + [true, false, false, false, false];
      RecallNothing(s, done, pos);
      assert r[pos + 5..] == r[pos..][5..] && s[pos + 5..] == s[pos..][5..];
      all := RunFollows(s, r, ip, pos + 5, 0, encoding, done);
      assert all[..pos] == all[..pos + 5][..pos];
      ConvertSettled(s, r, ip, pos, mask, encoding, marks, all);
    }
  }

  lemma RunEnds(s: seq<Byte>, r: seq<Byte>, ip: nat, pos: nat, encoding: bool, all: seq<bool>)
    requires |r| == |s| == |all| && pos <= |s| < pos + 5 && r[pos..] == s[pos..]
    requires forall k :: pos <= k < |s| ==> !all[k]
    ensures forall p :: pos <= p < |s| ==> BcjRule.Settled(s, r, ip, all, p, encoding)
  {
    hide BcjRule.Clear, BcjRule.Displacement, BcjRule.Result;
    forall p | pos <= p < |s| ensures BcjRule.Settled(s, r, ip, all, p, encoding) {
      assert r[p] == r[pos..][p - pos] && s[p] == s[pos..][p - pos];
    }
  }

  lemma PassSettled(s: seq<Byte>, r: seq<Byte>, ip: nat, pos: nat, mask: Mask, encoding: bool, marks: seq<bool>, all: seq<bool>)
    requires |r| == |s| == |all| && |marks| == pos && pos + 5 <= |s| && Recalls(s, marks, pos, mask) && BcjRule.Clear(marks, pos)
    requires !IsBranch(s[pos]) || Skips(s[pos..], mask)
    requires all[..pos + 1] == marks + [false] && r[pos..] == X86(s[pos..], ip + 5, pos, mask, encoding)
    ensures BcjRule.Settled(s, r, ip, all, pos, encoding)
  {
    hide Convert, Skips, Recalls, BcjRule.Clear, BcjRule.Displacement, BcjRule.Result;
    assert all[pos] == all[..pos + 1][pos];
    assert all[..pos] == all[..pos + 1][..pos] == marks[..pos] == marks;
    assert r[pos] == r[pos..][0] == s[pos];
    BcjRule.SameConverts(s, marks, all, pos);
    if IsBranch(s[pos]) {
      hide BcjRule.Converts;
      RecallsMeans(s, marks, pos, mask);
    }
  }

  lemma ConvertSettled(s: seq<Byte>, r: seq<Byte>, ip: nat, pos: nat, mask: Mask, encoding: bool, marks: seq<bool>, all: seq<bool>)
    requires |r| == |s| == |all| && |marks| == pos && pos + 5 <= |s| && Recalls(s, marks, pos, mask) && BcjRule.Clear(marks, pos)
    requires IsBranch(s[pos]) && !Skips(s[pos..], mask)
    requires all[..pos + 5] == marks + [true, false, false, false, false]
    requires r[pos..] == X86(s[pos..], ip + 5, pos, mask, encoding)
    ensures forall p :: pos <= p < pos + 5 ==> BcjRule.Settled(s, r, ip, all, p, encoding)
  {
    hide Convert, Skips, Recalls, BcjRule.Displacement, BcjRule.Result;
    forall k | pos <= k < pos + 5 ensures all[k] == (k == pos) {
      assert all[k] == all[..pos + 5][k];
    }
    assert all[..pos] == all[..pos + 5][..pos] == marks[..pos] == marks;
    assert r[pos] == r[pos..][0] == s[pos];
    BcjRule.SameConverts(s, marks, all, pos);
    RecallsMeans(s, marks, pos, mask);
    assert OperandAt(r[pos..]) == Convert(OperandAt(s[pos..]), Cur(ip + 5, pos), mask, encoding);
    OperandResult(s, r, ip, pos, mask, encoding);
    SameBack(s, marks, all, pos);
    assert BcjRule.Settled(s, r, ip, all, pos, encoding);
    forall p | pos < p < pos + 5 ensures BcjRule.Settled(s, r, ip, all, p, encoding) {
      assert BcjRule.Marked(all, pos) && !BcjRule.Clear(all, p);
    }
  }

  lemma SameBack(s: seq<Byte>, m: seq<bool>, n: seq<bool>, pos: nat)
    requires |m| == pos <= |n| && n[..pos] == m
    ensures BcjRule.Back(s, m, pos) == BcjRule.Back(s, n, pos)
  {
    hide BcjRule.Passed;
    SamePassed(s, m, n, pos, 1);
    SamePassed(s, m, n, pos, 2);
    SamePassed(s, m, n, pos, 3);
  }

  /** The filter's result is the one text that the rule allows. */
  lemma RuleIsFilter(s: seq<Byte>, r: seq<Byte>, ip: nat, encoding: bool)
    ensures r == X86(s, ip + 5, 0, 0, encoding) <==> exists marks :: BcjRule.Filtered(s, r, ip, marks, encoding)
  {
    hide X86, BcjRule.Settled;
    var x := X86(s, ip + 5, 0, 0, encoding);
    assert s[0..] == s && x[0..] == x;
    var marks := RunFollows(s, x, ip, 0, 0, encoding, []);
    assert BcjRule.Filtered(s, x, ip, marks, encoding);
    if m :| BcjRule.Filtered(s, r, ip, m, encoding) {
      BcjRule.OneResult(s, r, x, ip, m, marks, encoding);
    }
  }

  /** One call: the bytes 90 E8 10 00 00 00 become 90 E8 16 00 00 00. */
  lemma KnownCall(r: seq<Byte>)
    requires r == X86([0x90, 0xE8, 0x10, 0x00, 0x00, 0x00], 5, 0, 0, true)
    ensures r == [0x90, 0xE8, 0x16, 0x00, 0x00, 0x00]
  {
    var s: seq<Byte> := [0x90, 0xE8, 0x10, 0x00, 0x00, 0x00];
    RuleIsFilter(s, r, 0, true);
    var marks :| BcjRule.Filtered(s, r, 0, marks, true);
    hide X86;
    BcjRule.LoneConverts(s, r, 0, marks, 1, true);
    BcjRule.Digits(r, 1);
    assert BcjRule.Settled(s, r, 0, marks, 0, true) && BcjRule.Settled(s, r, 0, marks, 1, true);
  }

  /** The mask after the scanner's shift: `mask >> d` for d <= 2, and empty beyond. */
  function ShiftMask(mask: Mask, d: nat): Mask {
    if d == 0 then mask else if d == 1 then mask / 2 else if d == 2 then mask / 4 else 0
  }

  /** The whole buffer once the filter has run from `pos` on, the part before `pos` being done. */
  ghost function Finish(buf: seq<Byte>, ip: nat, pos: nat, mask: Mask, encoding: bool): (r: seq<Byte>)
    requires pos <= |buf|
  {
    buf[..pos] + X86(buf[pos..], ip, pos, mask, encoding)
  }

  lemma ScanStep(s: seq<Byte>, ip: nat, pos: nat, mask: Mask, encoding: bool)
    requires pos < |s| - 4 && !IsBranch(s[pos])
    ensures Finish(s, ip, pos, mask, encoding) == Finish(s, ip, pos + 1, mask / 2, encoding)
  {
    hide IsBranch;
    var t := s[pos..];
    assert t[1..] == s[pos + 1..];
    assert s[..pos] + [s[pos]] == s[..pos + 1];
  }

  lemma SkipStep(s: seq<Byte>, ip: nat, pos: nat, mask: Mask, encoding: bool)
    requires pos < |s| - 4 && IsBranch(s[pos]) && Skips(s[pos..], mask)
    ensures Finish(s, ip, pos, mask, encoding) == Finish(s, ip, pos + 1, Push(mask), encoding)
  {
    hide IsBranch, Skips;
    var t := s[pos..];
    assert t[1..] == s[pos + 1..];
    assert s[..pos] + [s[pos]] == s[..pos + 1];
  }

  lemma ConvertStep(s: seq<Byte>, ip: nat, pos: nat, mask: Mask, encoding: bool, o: Operand)
    requires pos < |s| - 4 && IsBranch(s[pos]) && !Skips(s[pos..], mask)
    requires o == Convert(OperandAt(s[pos..]), Cur(ip, pos), mask, encoding)
    ensures Finish(s, ip, pos, mask, encoding) ==
            Finish(s[..pos + 1] + [o.b1, o.b2, o.b3, o.b4] + s[pos + 5..], ip, pos + 5, 0, encoding)
  {
    hide IsBranch, Skips, Convert, Cur;
    var t := s[pos..];
    assert t[5..] == s[pos + 5..];
    var u := s[..pos + 1] + [o.b1, o.b2, o.b3, o.b4] + s[pos + 5..];
    assert u[..pos + 5] == s[..pos] + [t[0], o.b1, o.b2, o.b3, o.b4];
    assert u[pos + 5..] == s[pos + 5..];
  }

  /** Scans forward from `pos` to the next branch opcode below `limit`. */
  method ScanToBranch(data: array<Byte>, pos: nat, limit: nat, ghost ip: nat, ghost mask: Mask, ghost encoding: bool)
    returns (p: nat)
    requires pos <= data.Length && limit + 4 == data.Length
    ensures pos <= p <= data.Length
    ensures p < limit ==> IsBranch(data[p])
    ensures p >= limit ==> data.Length - p < 5
    ensures Finish(data[..], ip, pos, mask, encoding) == Finish(data[..], ip, p, ShiftMask(mask, p - pos), encoding)
  {
    hide Finish, IsBranch;
    p := pos;
    while p < limit && !IsBranch(data[p])
      invariant pos <= p <= data.Length
      invariant Finish(data[..], ip, pos, mask, encoding) == Finish(data[..], ip, p, ShiftMask(mask, p - pos), encoding)
    {
      ScanStep(data[..], ip, p, ShiftMask(mask, p - pos), encoding);
      p := p + 1;
    }
  }

  method StoreOperand(data: array<Byte>, pos: nat, o: Operand)
    requires pos + 5 <= data.Length
    modifies data
    ensures data[..] == old(data[..][..pos + 1]) + [o.b1, o.b2, o.b3, o.b4] + old(data[..][pos + 5..])
  {
    data[pos + 1], data[pos + 2], data[pos + 3], data[pos + 4] := o.b1, o.b2, o.b3, o.b4;
  }

  /** The branch opcode at `pos`: passed over, or its operand converted in place. */
  method HandleBranch(data: array<Byte>, pos: nat, mask: Mask, ip: nat, encoding: bool) returns (next: nat, newMask: Mask)
    requires pos + 5 <= data.Length && IsBranch(data[pos])
    modifies data
    ensures pos < next <= data.Length
    ensures data[next..] == old(data[next..])
    ensures Finish(data[..], ip, next, newMask, encoding) == old(Finish(data[..], ip, pos, mask, encoding))
  {
    hide Convert, Cur, IsBranch, Finish, TestMsb;
    ghost var before := data[..];
    ghost var rest := before[pos..];
    assert forall k :: 0 <= k < 5 ==> data[pos + k] == rest[k];
    if mask != 0 && (mask > 4 || mask == 3 || TestMsb(data[pos + Probe(mask)])) {
      assert Skips(rest, mask);
      SkipStep(before, ip, pos, mask, encoding);
      next, newMask := pos + 1, Push(mask);
    } else if TestMsb(data[pos + 4]) {
      assert !Skips(rest, mask);
      var o := Convert(Operand(data[pos + 1], data[pos + 2], data[pos + 3], data[pos + 4]),
                       Cur(ip, pos), mask, encoding);
      ConvertStep(before, ip, pos, mask, encoding, o);
      StoreOperand(data, pos, o);
      next, newMask := pos + 5, 0;
    } else {
      assert Skips(rest, mask);
      SkipStep(before, ip, pos, mask, encoding);
      next, newMask := pos + 1, Push(mask);
    }
  }

  /** `vv_bcj_x86`: the in-place filter. `ip` is the stream position of byte 0. */
  method X86InPlace(data: array<Byte>, ip: Word32, encoding: bool) returns (processed: nat)
    modifies data
    ensures data[..] == X86(old(data[..]), ip + 5, 0, 0, encoding)
    ensures exists marks :: BcjRule.Filtered(old(data[..]), data[..], ip, marks, encoding)
    ensures processed <= data.Length
    ensures data.Length >= 5 ==> data.Length - 4 <= processed
    ensures data[processed..] == old(data[processed..])
  {
    hide IsBranch, ShiftMask, Finish, BcjRule.Filtered;
    FinishEnds(data[..], ip + 5, 0, 0, encoding);
    RuleIsFilter(data[..], X86(data[..], ip + 5, 0, 0, encoding), ip, encoding);
    if data.Length < 5 {
      return 0;
    }
    var pos: nat := 0;
    var mask: Mask := 0;
    var limit := data.Length - 4;
    while true
      invariant pos <= data.Length
      invariant data[pos..] == old(data[pos..])
      invariant Finish(data[..], ip + 5, pos, mask, encoding) == old(Finish(data[..], ip + 5, 0, 0, encoding))
      decreases data.Length - pos
    {
      var p := ScanToBranch(data, pos, limit, ip + 5, mask, encoding);
      mask := ShiftMask(mask, p - pos);
      pos := p;
      if pos >= limit {
        FinishEnds(data[..], ip + 5, pos, mask, encoding);
        return pos;
      }
      pos, mask := HandleBranch(data, pos, mask, ip + 5, encoding);
    }
  }

  /** A finished buffer at the start is the filter itself; near the end it is the buffer. */
  lemma FinishEnds(buf: seq<Byte>, ip: nat, pos: nat, mask: Mask, encoding: bool)
    requires pos <= |buf|
    ensures pos == 0 ==> Finish(buf, ip, pos, mask, encoding) == X86(buf, ip, pos, mask, encoding)
    ensures |buf| - pos < 5 ==> Finish(buf, ip, pos, mask, encoding) == buf
  {
    assert pos == 0 ==> buf[pos..] == buf;
    assert buf[..pos] + buf[pos..] == buf;
  }
}
