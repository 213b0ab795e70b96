/** The AArch64 branch filter (`vv_bcj_arm64`, src/vv_bcj.c:140-180): whole words, each converted by
    itself. */
module Arm64 {
  import opened Arith
  import opened Bytes

  /** An ADRP word by its fields, highest first: bit 31, low immediate, five opcode bits, high
      immediate, register. */
  datatype Adrp = Adrp(top: nat, lo: nat, op: nat, hi: nat, rd: nat)

  predicate AdrpOkay(a: Adrp) {
    a.top < 2 && a.lo < 4 && a.op < 32 && a.hi < 0x8_0000 && a.rd < 32
  }

  function Fields(w: Word32): (a: Adrp)
    ensures AdrpOkay(a)
  {
    Adrp(w / 0x8000_0000, w / 0x2000_0000 % 4, w / 0x100_0000 % 32, w / 32 % 0x8_0000, w % 32)
  }

  function Pack(a: Adrp): (w: Word32)
    requires AdrpOkay(a)
  {
    a.top * 0x8000_0000 + a.lo * 0x2000_0000 + a.op * 0x100_0000 + a.hi * 32 + a.rd
  }

  /** `insn >> 26 == 0x25`. */
  predicate IsBl(w: Word32) {
    w / 0x400_0000 == 0x25
  }

  /** `(insn & 0x9F000000) == 0x90000000`. */
  predicate IsAdrp(w: Word32) {
    Fields(w).top == 1 && Fields(w).op == 16
  }

  function Move(imm: nat, cur: nat, width: nat, encoding: bool): (r: nat)
    requires imm < width
    ensures r < width
  {
    if encoding then (imm + cur) % width else (imm - cur) % width
  }

  function Convert(w: Word32, at: Word32, encoding: bool): Word32 {
    if IsBl(w) then 0x25 * 0x400_0000 + Move(w % 0x400_0000, at / 4, 0x400_0000, encoding)
    else if IsAdrp(w) then
      var a := Fields(w);
      var imm := Move(a.hi * 4 + a.lo, at / 4096, 0x20_0000, encoding);
      Pack(a.(lo := imm % 4, hi := imm / 4))
    else w
  }

  lemma MoveBack(imm: nat, cur: nat, width: nat, encoding: bool)
    requires imm < width
    ensures Move(Move(imm, cur, width, encoding), cur, width, !encoding) == imm
  {
    var moved := if encoding then imm + cur else imm - cur;
    var k, r := moved / width, Move(imm, cur, width, encoding);
    assert moved == k * width + r;
    var back := if encoding then r - cur else r + cur;
    assert back == imm + (-k) * width;
    ModPlusMultiple(imm, width, -k);
    DivModUnique(imm, width, 0, imm);
  }

  lemma PackFields(a: Adrp)
    requires AdrpOkay(a)
    ensures Fields(Pack(a)) == a
  {
    var w := Pack(a);
    var r1 := a.lo * 0x2000_0000 + a.op * 0x100_0000 + a.hi * 32 + a.rd;
    var r2 := a.op * 0x100_0000 + a.hi * 32 + a.rd;
    var r3 := a.hi * 32 + a.rd;
    DivModUnique(w, 0x8000_0000, a.top, r1);
    DivModUnique(w, 0x2000_0000, a.top * 4 + a.lo, r2);
    DivModUnique(a.top * 4 + a.lo, 4, a.top, a.lo);
    DivModUnique(w, 0x100_0000, (a.top * 4 + a.lo) * 32 + a.op, r3);
    DivModUnique((a.top * 4 + a.lo) * 32 + a.op, 32, a.top * 4 + a.lo, a.op);
    DivModUnique(w, 32, ((a.top * 4 + a.lo) * 32 + a.op) * 0x8_0000 + a.hi, a.rd);
    DivModUnique(((a.top * 4 + a.lo) * 32 + a.op) * 0x8_0000 + a.hi, 0x8_0000, (a.top * 4 + a.lo) * 32 + a.op, a.hi);
  }

  lemma FieldsPack(w: Word32)
    ensures Pack(Fields(w)) == w
  {
    var q := w / 32;
    var q2 := q / 0x8_0000;
    var q3 := q2 / 32;
    assert w == (((q3 / 4 * 4 + q3 % 4) * 32 + q2 % 32) * 0x8_0000 + q % 0x8_0000) * 32 + w % 32;
    Nested(w, 32, 0x8_0000);
    Nested(w, 0x100_0000, 32);
    Nested(w, 0x2000_0000, 4);
  }

  lemma Nested(w: int, a: int, b: int)
    requires w >= 0 && a > 0 && b > 0
    ensures w / a / b == w / (a * b)
  {
    var q := w / a;
    assert w == (q / b * b + q % b) * a + w % a;
    MulAssociative(q / b, b, a);
    assert (q / b * b + q % b) * a == q / b * (b * a) + q % b * a;
    MulMono(q % b, b - 1, a);
    DivModUnique(w, a * b, q / b, q % b * a + w % a);
  }

  /** A branch-with-link is not an address of a page. */
  lemma BlNotAdrp(w: Word32)
    requires IsAdrp(w)
    ensures !IsBl(w)
  {
    Nested(w, 0x100_0000, 4);
    assert w / 0x400_0000 == w / 0x100_0000 / 4;
    assert w / 0x100_0000 % 32 == 16;
  }

  /** Conversion keeps the word's kind, and the opposite direction undoes it. */
  lemma ConvertInverse(w: Word32, at: Word32, encoding: bool)
    ensures Convert(Convert(w, at, encoding), at, !encoding) == w
  {
    hide Fields, Pack, Move;
    if IsBl(w) {
      var imm := w % 0x400_0000;
      var moved := Move(imm, at / 4, 0x400_0000, encoding);
      DivModUnique(0x25 * 0x400_0000 + moved, 0x400_0000, 0x25, moved);
      MoveBack(imm, at / 4, 0x400_0000, encoding);
    } else if IsAdrp(w) {
      var a := Fields(w);
      var imm := a.hi * 4 + a.lo;
      var moved := Move(imm, at / 4096, 0x20_0000, encoding);
      var b := a.(lo := moved % 4, hi := moved / 4);
      PackFields(b);
      BlNotAdrp(Pack(b));
      assert b.hi * 4 + b.lo == moved;
      MoveBack(imm, at / 4096, 0x20_0000, encoding);
      DivModUnique(imm, 4, a.hi, a.lo);
      FieldsPack(w);
    }
  }

  function Load(s: seq<Byte>, p: nat): Word32
    requires p + 4 <= |s|
  {
    var b0: int, b1: int, b2: int, b3: int := s[p], s[p + 1], s[p + 2], s[p + 3];
    b0 + 0x100 * b1 + 0x1_0000 * b2 + 0x100_0000 * b3
  }

  function Store(w: Word32): (b: seq<Byte>)
    ensures |b| == 4
  {
    [w % 0x100, w / 0x100 % 0x100, w / 0x1_0000 % 0x100, w / 0x100_0000]
  }

  lemma StoreLoad(s: seq<Byte>, p: nat)
    requires p + 4 <= |s|
    ensures Store(Load(s, p)) == s[p..p + 4]
  {
    var b0: int, b1: int, b2: int, b3: int := s[p], s[p + 1], s[p + 2], s[p + 3];
    var w := Load(s, p);
    var r1, r2 := b1 + 0x100 * b2 + 0x1_0000 * b3, b2 + 0x100 * b3;
    DivModUnique(w, 0x100, r1, b0);
    DivModUnique(r1, 0x100, r2, b1);
    DivModUnique(w, 0x1_0000, r2, b1 * 0x100 + b0);
    DivModUnique(r2, 0x100, b3, b2);
    DivModUnique(w, 0x100_0000, b3, b2 * 0x1_0000 + b1 * 0x100 + b0);
  }

  lemma LoadStore(w: Word32, rest: seq<Byte>)
    ensures Load(Store(w) + rest, 0) == w
  {
    Nested(w, 0x100, 0x100);
    Nested(w, 0x1_0000, 0x100);
  }

  /** The filter on the words from stream position `pos` on; a partial last word stays. */
  function Filter(s: seq<Byte>, ip: nat, pos: nat, encoding: bool): (r: seq<Byte>)
    ensures |r| == |s|
    decreases |s|
  {
    if |s| < 4 then s
    else Store(Convert(Load(s, 0), (ip + pos) % TWO_TO_THE_32, encoding)) + Filter(s[4..], ip, pos + 4, encoding)
  }

  /** The filter is a bijection on arbitrary bytes: run in the opposite direction it restores them. */
  lemma {:induction false} FilterInverse(s: seq<Byte>, ip: nat, pos: nat, encoding: bool)
    ensures Filter(Filter(s, ip, pos, encoding), ip, pos, !encoding) == s
    decreases |s|
  {
    hide Convert, Load, Store;
    if |s| >= 4 {
      var at := (ip + pos) % TWO_TO_THE_32;
      var w := Load(s, 0);
      var t := Filter(s[4..], ip, pos + 4, encoding);
      LoadStore(Convert(w, at, encoding), t);
      ConvertInverse(w, at, encoding);
      StoreLoad(s, 0);
      FilterInverse(s[4..], ip, pos + 4, encoding);
      assert (Store(Convert(w, at, encoding)) + t)[4..] == t;
      assert s == s[0..4] + s[4..];
    }
  }

  //////////////////////////////////////////////////////////////////////////////
  // What the filter does to each word
  //////////////////////////////////////////////////////////////////////////////

  /** The page offset an ADRP holds: 19 high bits from bit 5 on and two low ones from bit 29 on. */
  function Page(w: Word32): nat {
    w / 0x20 % 0x8_0000 * 4 + w / 0x2000_0000 % 4
  }

  /** A call's 26 bits move by the word's index and a page offset's 21 bits by the index of its 4 KiB page; opcode and
      register stay, and so does every other word. */
  predicate Converted(w: Word32, v: Word32, at: nat, encoding: bool) {
    if w / 0x400_0000 == 0x25 then
      && v / 0x400_0000 == 0x25
      && v % 0x400_0000 == (if encoding then w % 0x400_0000 + at / 4 else w % 0x400_0000 - at / 4) % 0x400_0000
    else if w / 0x8000_0000 == 1 && w / 0x100_0000 % 0x20 == 0x10 then
      && v / 0x8000_0000 == 1 && v / 0x100_0000 % 0x20 == 0x10 && v % 0x20 == w % 0x20
      && Page(v) == (if encoding then Page(w) + at / 0x1000 else Page(w) - at / 0x1000) % 0x20_0000
    else v == w
  }

  lemma ConvertMeans(w: Word32, at: Word32, encoding: bool)
    ensures Converted(w, Convert(w, at, encoding), at, encoding)
  {
    hide Pack;
    if IsBl(w) {
      var moved := Move(w % 0x400_0000, at / 4, 0x400_0000, encoding);
      DivModUnique(0x25 * 0x400_0000 + moved, 0x400_0000, 0x25, moved);
    } else if IsAdrp(w) {
      var a := Fields(w);
      var moved := Move(a.hi * 4 + a.lo, at / 4096, 0x20_0000, encoding);
      PackFields(a.(lo := moved % 4, hi := moved / 4));
    }
  }

  /** The word at `k`, bytes least significant first. */
  function WordAt(s: seq<Byte>, k: nat): nat
    requires k + 4 <= |s|
  {
    s[k] as nat + 0x100 * s[k + 1] as nat + 0x1_0000 * s[k + 2] as nat + 0x100_0000 * s[k + 3] as nat
  }

  ghost predicate WordFiltered(s: seq<Byte>, r: seq<Byte>, ip: nat, k: nat, encoding: bool)
    requires |s| == |r|
  {
    k % 4 == 0 && k + 4 <= |s| ==> Converted(WordAt(s, k), WordAt(r, k), (ip + k) % TWO_TO_THE_32, encoding)
  }

  /** Every aligned word is converted by its own position, and a partial last word stays. */
  ghost predicate Filtered(s: seq<Byte>, r: seq<Byte>, ip: nat, encoding: bool) {
    && |s| == |r|
    && (forall k: nat :: k < |s| ==> WordFiltered(s, r, ip, k, encoding))
    && r[|s| - |s| % 4..] == s[|s| - |s| % 4..]
  }

  lemma {:induction false} WordLaw(s: seq<Byte>, ip: nat, pos: nat, encoding: bool, k: nat)
    requires k % 4 == 0 && k + 4 <= |s|
    ensures Converted(WordAt(s, k), WordAt(Filter(s, ip, pos, encoding), k), (ip + pos + k) % TWO_TO_THE_32, encoding)
    decreases |s|
  {
    hide Convert, Store, Converted;
    var t := Filter(s[4..], ip, pos + 4, encoding);
    if k == 0 {
      var at := (ip + pos) % TWO_TO_THE_32;
      ConvertMeans(Load(s, 0), at, encoding);
      LoadStore(Convert(Load(s, 0), at, encoding), t);
    } else {
      WordLaw(s[4..], ip, pos + 4, encoding, k - 4);
      var r := Store(Convert(Load(s, 0), (ip + pos) % TWO_TO_THE_32, encoding)) + t;
      assert WordAt(r, k) == WordAt(t, k - 4) && WordAt(s, k) == WordAt(s[4..], k - 4);
    }
  }

  lemma {:induction false} TailLaw(s: seq<Byte>, ip: nat, pos: nat, encoding: bool)
    ensures Filter(s, ip, pos, encoding)[|s| - |s| % 4..] == s[|s| - |s| % 4..]
    decreases |s|
  {
    hide Convert, Store;
    if |s| >= 4 {
      TailLaw(s[4..], ip, pos + 4, encoding);
      var t := Filter(s[4..], ip, pos + 4, encoding);
      var r := Store(Convert(Load(s, 0), (ip + pos) % TWO_TO_THE_32, encoding)) + t;
      var k := |s| - |s| % 4;
      assert r[k..] == t[k - 4..] && s[k..] == s[4..][k - 4..];
    }
  }

  lemma FilterLaw(s: seq<Byte>, ip: nat, encoding: bool)
    ensures Filtered(s, Filter(s, ip, 0, encoding), ip, encoding)
  {
    hide Filter, Converted;
    TailLaw(s, ip, 0, encoding);
    forall k: nat | k < |s| ensures WordFiltered(s, Filter(s, ip, 0, encoding), ip, k, encoding) {
      if k % 4 == 0 && k + 4 <= |s| {
        WordLaw(s, ip, 0, encoding, k);
      }
    }
  }

  /** What the filter is for: two calls of one target hold the same word after encoding. */
  lemma SameTarget(s: seq<Byte>, r: seq<Byte>, ip: nat, p: nat, q: nat)
    requires Filtered(s, r, ip, true) && p % 4 == 0 && q % 4 == 0 && p + 4 <= |s| && q + 4 <= |s|
    requires WordAt(s, p) / 0x400_0000 == 0x25 && WordAt(s, q) / 0x400_0000 == 0x25
    requires (WordAt(s, p) + (ip + p) % TWO_TO_THE_32 / 4) % 0x400_0000 == (WordAt(s, q) + (ip + q) % TWO_TO_THE_32 / 4) % 0x400_0000
    ensures WordAt(r, p) == WordAt(r, q)
  {
    hide WordAt;
    assert WordFiltered(s, r, ip, p, true) && WordFiltered(s, r, ip, q, true);
    LowWord(WordAt(s, p), (ip + p) % TWO_TO_THE_32 / 4);
    LowWord(WordAt(s, q), (ip + q) % TWO_TO_THE_32 / 4);
  }

  lemma LowWord(w: nat, d: nat)
    ensures (w % 0x400_0000 + d) % 0x400_0000 == (w + d) % 0x400_0000
  {
    ModPlusMultiple(w % 0x400_0000 + d, 0x400_0000, w / 0x400_0000);
  }

  /** The buffer once the filter has run from `pos` on. */
  ghost function Finish(buf: seq<Byte>, ip: nat, pos: nat, encoding: bool): seq<Byte>
    requires pos <= |buf|
  {
    buf[..pos] + Filter(buf[pos..], ip, pos, encoding)
  }

  lemma FinishStep(buf: seq<Byte>, now: seq<Byte>, ip: nat, pos: nat, encoding: bool)
    requires pos + 4 <= |buf| == |now| && now[..pos] == buf[..pos] && now[pos + 4..] == buf[pos + 4..]
    requires now[pos..pos + 4] == Store(Convert(Load(buf, pos), (ip + pos) % TWO_TO_THE_32, encoding))
    ensures Finish(now, ip, pos + 4, encoding) == Finish(buf, ip, pos, encoding)
  {
    hide Convert, Store;
    assert now[..pos + 4] == now[..pos] + now[pos..pos + 4];
    assert buf[pos..][4..] == buf[pos + 4..];
    assert Load(buf[pos..], 0) == Load(buf, pos);
  }

  lemma NoChange(w: Word32, at: Word32, encoding: bool)
    requires !IsBl(w) && !IsAdrp(w)
    ensures Convert(w, at, encoding) == w
  {
  }

  method PutWord(data: array<Byte>, pos: nat, b: seq<Byte>)
    requires pos + 4 <= data.Length && |b| == 4
    modifies data
    ensures data[..pos] == old(data[..pos]) && data[pos..pos + 4] == b && data[pos + 4..] == old(data[pos + 4..])
  {
    data[pos], data[pos + 1], data[pos + 2], data[pos + 3] := b[0], b[1], b[2], b[3];
  }

  /** One word: converted in place if it is a call or a page address, else left alone. */
  method ConvertAt(data: array<Byte>, ip: Word32, pos: nat, encoding: bool)
    requires pos + 4 <= data.Length
    modifies data
    ensures Finish(data[..], ip, pos + 4, encoding) == old(Finish(data[..], ip, pos, encoding))
  {
    hide Convert, Load, Store, Finish, IsBl, IsAdrp;
    ghost var before := data[..];
    var w, at := Load(data[..], pos), (ip + pos) % TWO_TO_THE_32;
    if IsBl(w) || IsAdrp(w) {
      PutWord(data, pos, Store(Convert(w, at, encoding)));
      assert data[..][..pos] == before[..pos] && data[..][pos + 4..] == before[pos + 4..];
      assert data[..][pos..pos + 4] == data[pos..pos + 4];
    } else {
      NoChange(w, at, encoding);
      StoreLoad(before, pos);
    }
    FinishStep(before, data[..], ip, pos, encoding);
  }

  /** `vv_bcj_arm64`: the in-place filter. */
  method FilterInPlace(data: array<Byte>, ip: Word32, encoding: bool) returns (processed: nat)
    modifies data
    ensures data[..] == Filter(old(data[..]), ip, 0, encoding)
    ensures Filtered(old(data[..]), data[..], ip, encoding)
    ensures processed == data.Length - data.Length % 4
  {
    hide Convert, Load, Store, Finish, IsBl, IsAdrp, Filtered;
    FilterLaw(data[..], ip, encoding);
    ghost var goal := Finish(data[..], ip, 0, encoding);
    AtStart(data[..], ip, encoding);
    if data.Length < 4 {
      AtEnd(data[..], ip, 0, encoding);
      return 0;
    }
    var pos: nat, limit := 0, data.Length - data.Length % 4;
    while pos < limit
      invariant pos % 4 == 0 && pos <= limit && Finish(data[..], ip, pos, encoding) == goal
    {
      ConvertAt(data, ip, pos, encoding);
      pos := pos + 4;
    }
    AtEnd(data[..], ip, pos, encoding);
    processed := pos;
  }

  lemma AtStart(buf: seq<Byte>, ip: nat, encoding: bool)
    ensures Finish(buf, ip, 0, encoding) == Filter(buf, ip, 0, encoding)
  {
    assert buf[0..] == buf;
  }

  lemma AtEnd(buf: seq<Byte>, ip: nat, pos: nat, encoding: bool)
    requires pos <= |buf| < pos + 4
    ensures Finish(buf, ip, pos, encoding) == buf
  {
  }
}
