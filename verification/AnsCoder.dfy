/** The general tANS coder: any number of states over any number of tables, interleaved with raw
    bit fields in one bitstream. A run is a list of operations; the encoder works through it from
    the back, the decoder from the front. */
module AnsCoder {
  import opened AnsTables
  import opened Arith
  import opened BitIo
  import opened Bits
  import opened Bytes

  /** One coded item: a symbol under the table and state of index `table`, or a raw field. */
  datatype Op = Sym(table: nat, symbol: Byte) | Raw(value: nat, nbits: nat)

  /** The coder's state vector and the bits the decoder will read. */
  datatype Coded = Coded(states: seq<nat>, bits: seq<bool>)

  ghost predicate Encodable(tables: seq<seq<nat>>, op: Op) {
    match op
    case Sym(t, s) => t < |tables| && Normalized(tables[t]) && tables[t][s] > 0
    case Raw(v, n) => v < Pow2(n)
  }

  ghost predicate AllEncodable(tables: seq<seq<nat>>, ops: seq<Op>) {
    forall i :: 0 <= i < |ops| ==> Encodable(tables, ops[i])
  }

  ghost predicate ValidStates(tables: seq<seq<nat>>, states: seq<nat>) {
    |states| == |tables| && forall t :: 0 <= t < |tables| ==> ValidState(tables[t], states[t])
  }

  /** The backward encoder: the last operation is encoded first, from all-zero states. */
  ghost function Encode(tables: seq<seq<nat>>, ops: seq<Op>): (c: Coded)
    requires AllEncodable(tables, ops)
    ensures ValidStates(tables, c.states)
  {
    if ops == [] then Coded(seq(|tables|, t requires 0 <= t < |tables| => 0), [])
    else EncodeOne(tables, ops[0], Encode(tables, ops[1..]))
  }

  ghost function EncodeOne(tables: seq<seq<nat>>, op: Op, c: Coded): (r: Coded)
    requires Encodable(tables, op) && ValidStates(tables, c.states)
    ensures ValidStates(tables, r.states)
  {
    match op
    case Sym(t, s) =>
      var e := EncStep(tables[t], c.states[t], s);
      StepInverse(tables[t], c.states[t], s);
      Coded(c.states[t := e.slot], ToBits(e.value, e.nbits) + c.bits)
    case Raw(v, n) => Coded(c.states, ToBits(v, n) + c.bits)
  }

  /** What the decoder reads off the table for its next symbol of table `t`. */
  ghost function Lookup(tables: seq<seq<nat>>, c: Coded, t: nat): (e: Entry)
    requires t < |tables| && Normalized(tables[t]) && ValidStates(tables, c.states)
  {
    DecTable(tables[t])[c.states[t]]
  }

  /** The decoder's move after entry `e`: consume the entry's bits and re-enter its window. */
  ghost function Advance(c: Coded, t: nat, e: Entry): Coded
    requires t < |c.states| && e.nbits <= |c.bits|
  {
    Coded(c.states[t := e.baseline + Val(c.bits[..e.nbits])], c.bits[e.nbits..])
  }

  /** Decoding the first symbol of an encoded run yields that symbol and the encoding of the
      rest of the run, whatever the other operations and tables are. */
  lemma DecodeSymbol(tables: seq<seq<nat>>, ops: seq<Op>)
    requires AllEncodable(tables, ops) && ops != [] && ops[0].Sym?
    ensures var c := Encode(tables, ops);
            var e := Lookup(tables, c, ops[0].table);
            && e.symbol == ops[0].symbol && e.nbits <= ANS_LOG && e.nbits <= |c.bits|
            && Advance(c, ops[0].table, e) == Encode(tables, ops[1..])
  {
    hide EncStep, DecTable;
    var t, s := ops[0].table, ops[0].symbol;
    var rest := Encode(tables, ops[1..]);
    StepInverse(tables[t], rest.states[t], s);
    var e := EncStep(tables[t], rest.states[t], s);
    var c := Encode(tables, ops);
    assert c == EncodeOne(tables, ops[0], rest);
    ValToBits(e.value, e.nbits);
    assert c.bits[..e.nbits] == ToBits(e.value, e.nbits);
    assert c.bits[e.nbits..] == rest.bits;
    assert c.states[t := rest.states[t]] == rest.states;
  }

  /** Likewise for a raw field. */
  lemma DecodeRaw(tables: seq<seq<nat>>, ops: seq<Op>)
    requires AllEncodable(tables, ops) && ops != [] && ops[0].Raw?
    ensures var c := Encode(tables, ops);
            && ops[0].nbits <= |c.bits| && Val(c.bits[..ops[0].nbits]) == ops[0].value
            && Coded(c.states, c.bits[ops[0].nbits..]) == Encode(tables, ops[1..])
  {
    var rest := Encode(tables, ops[1..]);
    var c := Encode(tables, ops);
    assert c == EncodeOne(tables, ops[0], rest);
    ValToBits(ops[0].value, ops[0].nbits);
    assert c.bits[..ops[0].nbits] == ToBits(ops[0].value, ops[0].nbits);
    assert c.bits[ops[0].nbits..] == rest.bits;
  }

  //////////////////////////////////////////////////////////////////////////////
  // One decoder step on an arbitrary stream
  //////////////////////////////////////////////////////////////////////////////

  /** The state after reading entry `e` at stream position `t`; zero bits follow the end. */
  ghost function NextState(e: Entry, stream: seq<bool>, t: nat): nat {
    e.baseline + Val(Window(stream, t, e.nbits))
  }

  /** Every state a table leads to is again a table index, on valid and corrupt input alike. */
  lemma NextStateInRange(norm: seq<nat>, x: nat, stream: seq<bool>, t: nat)
    requires Normalized(norm) && x < ANS_L
    ensures DecTable(norm)[x].nbits <= ANS_LOG
    ensures NextState(DecTable(norm)[x], stream, t) < ANS_L
  {
    hide Spread, Count, WindowBase, WindowBits, Window;
    var sp := Spread(norm);
    var e := DecTable(norm)[x];
    assert e == DecEntry(norm, sp, x);
    ValBound(Window(stream, t, e.nbits));
    OccurrenceUnique(sp, sp[x], x);
    SpreadCount(norm, sp[x]);
    NormBound(norm, sp[x]);
    if norm[sp[x]] < ANS_L {
      WindowInside(norm[sp[x]], Count(sp, x, sp[x]));
    } else {
      OneWindow();
    }
  }

  lemma EncodedEmpty(tables: seq<seq<nat>>)
    ensures Encode(tables, []).bits == []
  {
  }

  /** The table entry at the encoded state names the first symbol, its bits come next in the
      stream, and after them lies the encoding of the rest. */
  lemma DecodeOne(tables: seq<seq<nat>>, ops: seq<Op>, stream: seq<bool>, t: nat)
    requires AllEncodable(tables, ops) && ops != [] && ops[0].Sym?
    requires Ahead(stream, t, Encode(tables, ops).bits)
    ensures var c, c' := Encode(tables, ops), Encode(tables, ops[1..]);
            var k := ops[0].table;
            var e := Lookup(tables, c, k);
            && e.symbol == ops[0].symbol && e.nbits <= ANS_LOG
            && NextState(e, stream, t) == c'.states[k]
            && c'.states == c.states[k := c'.states[k]]
            && Ahead(stream, t + e.nbits, c'.bits)
            && |c.bits| == e.nbits + |c'.bits|
  {
    hide DecTable, Encode, Window;
    var c := Encode(tables, ops);
    DecodeSymbol(tables, ops);
    var e := Lookup(tables, c, ops[0].table);
    AheadTake(stream, t, c.bits, e.nbits);
  }
}
