/** The imperative half of the tANS encoder: tables, the backward pass that stacks bit pairs,
    and the forward write of the stacked pairs (src/vv_ans.c). */
module AnsEncode {
  import opened AnsBuild
  import opened AnsCoder
  import opened AnsTables
  import opened Arith
  import opened BitIo
  import opened Bits
  import opened Bytes

  /** `enc_ctx_t`. */
  datatype EncCtx = EncCtx(o: array<EncOcc>, cum: array<nat>)

  ghost predicate Ready(norm: seq<nat>, e: EncCtx)
    reads e.o, e.cum
  {
    && Normalized(norm) && e.o.Length == ANS_L && e.cum.Length == NSYM + 1
    && e.o[..] == EncTable(norm)
    && forall s :: 0 <= s <= NSYM ==> e.cum[s] == Cum(norm, s)
  }

  /** `build_all`. */
  method BuildAll(norm: seq<nat>) returns (e: EncCtx)
    requires Normalized(norm)
    ensures Ready(norm, e) && fresh(e.o) && fresh(e.cum)
  {
    hide Spread, DecTable, EncTable, Cum, Normalized;
    var sp := new Byte[ANS_L](_ => 0);
    SpreadSymbols(norm, sp);
    var dec := new Entry[ANS_L](_ => Entry(0, 0, 0));
    BuildDec(norm, sp[..], dec);
    var o, cum := BuildEnc(norm, sp[..], dec[..]);
    e := EncCtx(o, cum);
  }

  /** `bitpair_t`. */
  datatype Pair = Pair(value: nat, nbits: nat)

  /** The bits of stacked pairs, first pair first. */
  ghost function PairBits(pairs: seq<Pair>): seq<bool> {
    if pairs == [] then [] else ToBits(pairs[0].value, pairs[0].nbits) + PairBits(pairs[1..])
  }

  const MAX_FIELD: nat := 24

  ghost predicate InRange(tables: seq<seq<nat>>, op: Op) {
    match op
    case Sym(t, _) => t < |tables| && Normalized(tables[t])
    case Raw(v, n) => v < Pow2(n) && n <= MAX_FIELD
  }

  ghost predicate AllReady(tables: seq<seq<nat>>, encs: seq<EncCtx>)
    reads set e | e in encs :: e.o
    reads set e | e in encs :: e.cum
  {
    |encs| == |tables| && forall t :: 0 <= t < |tables| && Normalized(tables[t]) ==> Ready(tables[t], encs[t])
  }

  /** Encodes the operations from last to first. `ok` is false exactly when some symbol is
      absent from its table. */
  method BackwardEncode(ghost tables: seq<seq<nat>>, encs: seq<EncCtx>, ops: seq<Op>)
    returns (states: array<nat>, pairs: array<Pair>, ok: bool)
    requires AllReady(tables, encs)
    requires forall i :: 0 <= i < |ops| ==> InRange(tables, ops[i])
    ensures ok <==> AllEncodable(tables, ops)
    ensures ok ==> states[..] == Encode(tables, ops).states
    ensures ok ==> PairBits(pairs[..]) == Encode(tables, ops).bits
    ensures pairs.Length == |ops| && forall i :: 0 <= i < pairs.Length ==> pairs[i].nbits <= MAX_FIELD
    ensures fresh(states) && fresh(pairs)
  {
    hide Encode, Sum, ValidState, PairBits, EncStep, EncTable, Cum;
    states := new nat[|encs|](_ => 0);
    pairs := new Pair[|ops|](_ => Pair(0, 0));
    var i := |ops|;
    assert ops[i..] == [];
    EncodeNothing(tables, states[..], pairs[i..]);
    while i > 0
      invariant i <= |ops|
      invariant AllReady(tables, encs)
      invariant AllEncodable(tables, ops[i..])
      invariant states[..] == Encode(tables, ops[i..]).states
      invariant PairBits(pairs[i..]) == Encode(tables, ops[i..]).bits
      invariant forall j :: 0 <= j < pairs.Length ==> pairs[j].nbits <= MAX_FIELD
    {
      i := i - 1;
      ghost var rest := Encode(tables, ops[i + 1..]);
      assert ops[i..] == [ops[i]] + ops[i + 1..];
      ghost var tail := pairs[i + 1..];
      assert InRange(tables, ops[i]);
      match ops[i] {
        case Sym(t, s) =>
          var slot, bv, bn := EncodeSymbol(tables, encs, states, t, s);
          if slot < 0 {
            assert !Encodable(tables, ops[i]);
            return states, pairs, false;
          }
          pairs[i] := Pair(bv, bn);
          states[t] := slot;
        case Raw(v, n) =>
          pairs[i] := Pair(v, n);
      }
      assert pairs[i..] == [pairs[i]] + tail;
      assert Encodable(tables, ops[i]);
      EncodeStep(tables, ops[i..], rest);
      PairBitsStep(pairs[i], tail);
    }
    assert pairs[0..] == pairs[..] && ops[0..] == ops;
    ok := true;
  }

  method EncodeSymbol(ghost tables: seq<seq<nat>>, encs: seq<EncCtx>, states: array<nat>, t: nat, s: Byte)
    returns (slot: int, bv: nat, bn: nat)
    requires AllReady(tables, encs) && t < |tables| && Normalized(tables[t])
    requires ValidStates(tables, states[..])
    ensures tables[t][s] == 0 ==> slot == -1
    ensures tables[t][s] > 0 ==> slot >= 0 && bn <= ANS_LOG
    ensures tables[t][s] > 0 ==> Emit(slot, bv, bn) == EncStep(tables[t], states[t], s)
  {
    hide EncStep, EncTable, Cum, DecTable;
    assert Ready(tables[t], encs[t]);
    assert ValidState(tables[t], states[..][t]);
    slot, bv, bn := EncSym(tables[t], encs[t].o, encs[t].cum, states[t], s);
    if slot >= 0 {
      StepInverse(tables[t], states[t], s);
    }
  }

  lemma EncodeNothing(tables: seq<seq<nat>>, states: seq<nat>, pairs: seq<Pair>)
    requires |states| == |tables| && (forall t :: 0 <= t < |states| ==> states[t] == 0) && pairs == []
    ensures states == Encode(tables, []).states
    ensures PairBits(pairs) == Encode(tables, []).bits
  {
  }

  lemma EncodeStep(tables: seq<seq<nat>>, ops: seq<Op>, rest: Coded)
    requires ops != [] && Encodable(tables, ops[0]) && AllEncodable(tables, ops[1..])
    requires rest == Encode(tables, ops[1..])
    ensures AllEncodable(tables, ops)
    ensures Encode(tables, ops) == EncodeOne(tables, ops[0], rest)
  {
    assert forall i :: 0 < i < |ops| ==> ops[i] == ops[1..][i - 1];
  }

  lemma PairBitsStep(p: Pair, pairs: seq<Pair>)
    ensures PairBits([p] + pairs) == ToBits(p.value, p.nbits) + PairBits(pairs)
  {
    assert ([p] + pairs)[1..] == pairs;
  }

  lemma {:induction false} PairBitsBound(pairs: seq<Pair>, width: nat)
    requires forall i :: 0 <= i < |pairs| ==> pairs[i].nbits <= width
    ensures |PairBits(pairs)| <= width * |pairs|
  {
    if pairs != [] {
      PairBitsBound(pairs[1..], width);
      assert width * |pairs| == width * (|pairs| - 1) + width;
    }
  }

  /** Writes the pairs first to last and pads the last byte; `cap` is the caller's buffer bound. */
  method WritePairs(pairs: array<Pair>, cap: nat) returns (buf: array<Byte>, len: nat)
    requires forall i :: 0 <= i < pairs.Length ==> pairs[i].nbits <= MAX_FIELD
    requires |PairBits(pairs[..])| <= 8 * cap
    ensures len <= buf.Length && len == (|PairBits(pairs[..])| + 7) / 8
    ensures PairBits(pairs[..]) <= ByteBits(buf[..len])
    ensures fresh(buf)
  {
    hide PairBits, ByteBits, ToBits;
    var w := new BitWriter(cap);
    assert pairs[0..] == pairs[..];
    AppendNothing(PairBits(pairs[..]));
    for i := 0 to pairs.Length
      invariant w.Valid() && fresh(w) && fresh(w.buf) && w.buf.Length == cap
      invariant w.Written() + PairBits(pairs[i..]) == PairBits(pairs[..])
    {
      assert pairs[i..] == [pairs[i]] + pairs[i + 1..];
      PairBitsStep(pairs[i], pairs[i + 1..]);
      AppendAssociative(w.Written(), ToBits(pairs[i].value, pairs[i].nbits), PairBits(pairs[i + 1..]));
      w.Add(pairs[i].value, pairs[i].nbits);
    }
    NoPairs(w.Written(), pairs[pairs.Length..]);
    len := w.Flush();
    buf := w.buf;
  }

  lemma AppendNothing(b: seq<bool>)
    ensures [] + b == b
  {
  }

  lemma NoPairs(b: seq<bool>, pairs: seq<Pair>)
    requires pairs == []
    ensures b + PairBits(pairs) == b
  {
  }
}
