/** Coding a block's literals: four coders compete, the decoder follows the format byte
    (src/vv_ans.c:1841-2050, 2529-2575). */
module LitCoders {
  import AnsHeader
  import AnsLanes
  import AnsSingle
  import opened Bytes
  import HuffCodec
  import HuffDecode

  const RAW: nat := 0
  const ANS4: nat := 1
  const ANS1: nat := 2
  const HUFFMAN: nat := 3
  const HUFFMAN4: nat := 4
  const MAX_LITERALS: nat := 0x10_0000

  datatype Lits = NoLits | Lits(bytes: seq<Byte>)

  function FromAns(r: AnsSingle.DecodeResult): Lits {
    if r.Decoded? then Lits(r.dst) else NoLits
  }

  function FromHuffman(r: HuffDecode.Decoded): Lits {
    if r.Out? then Lits(r.bytes) else NoLits
  }

  /** The decoder's dispatch; an unknown format is read as raw. */
  ghost function DecodeLits(fmt: nat, enc: seq<Byte>, n: nat): (r: Lits)
    ensures r.Lits? ==> |r.bytes| == n
  {
    if fmt == ANS4 then FromAns(AnsLanes.DecodeLanes(enc, n, n))
    else if fmt == ANS1 then FromAns(AnsSingle.DecodeSingle(enc, n, n))
    else if fmt == HUFFMAN then FromHuffman(HuffCodec.SingleSpec(enc, n))
    else if fmt == HUFFMAN4 then FromHuffman(HuffCodec.FourSpec(enc, n))
    else if |enc| >= n then Lits(enc[..n])
    else NoLits
  }

  /** `enc` is the literals in format `fmt`, and is never longer than they are. */
  ghost predicate Codes(fmt: nat, enc: seq<Byte>, lits: seq<Byte>) {
    fmt <= 4 && enc != [] && |enc| <= |lits| && DecodeLits(fmt, enc, |lits|) == Lits(lits)
  }

  /** `vva_bound`. */
  function Bound(n: nat): nat {
    12288 + (n * 15 + 7) / 8 + 16
  }

  datatype Tried = NoCode | Coded(enc: seq<Byte>)

  ghost predicate Worked(fmt: nat, t: Tried, lits: seq<Byte>) {
    t.Coded? ==> Codes(fmt, t.enc, lits) && |t.enc| < |lits|
  }

  /** A coder answers with what it accounts for: its encoding when that is shorter and fits, else none. */
  ghost predicate Answers(fmt: nat, lits: seq<Byte>, cap: nat, t: Tried) {
    if fmt == ANS4 then
      (if t.Coded? then AnsLanes.LanesAccounts(lits, cap, true, |t.enc|)
       else exists size :: AnsLanes.LanesAccounts(lits, cap, false, size))
    else if fmt == ANS1 then
      (if t.Coded? then AnsSingle.Accounts(lits, cap, true, |t.enc|)
       else exists size :: AnsSingle.Accounts(lits, cap, false, size))
    else if fmt == HUFFMAN then
      (if t.Coded? then HuffCodec.SingleAccounts(lits, cap, true, |t.enc|)
       else exists size :: HuffCodec.SingleAccounts(lits, cap, false, size))
    else if |lits| < HuffCodec.MIN_LITERALS || cap < 200 then t.NoCode?
    else
      (if t.Coded? then HuffCodec.FourAccounts(lits, cap, true, |t.enc|)
       else exists size :: HuffCodec.FourAccounts(lits, cap, false, size))
  }

  lemma EmptyFails(fmt: nat, n: nat)
    requires n > 0 && 1 <= fmt <= 4
    ensures DecodeLits(fmt, [], n) == NoLits
  {
    hide AnsLanes.DecodeLanesBody, AnsSingle.DecodeBody, HuffDecode.RoundRobin;
    assert AnsHeader.ReadHeader([]) == AnsHeader.BadHeader;
  }

  /** One of the four coders. */
  method Try(fmt: nat, lits: seq<Byte>, cap: nat) returns (t: Tried)
    requires 1 <= fmt <= 4 && 0 < |lits| <= MAX_LITERALS
    ensures Worked(fmt, t, lits) && Answers(fmt, lits, cap, t)
    ensures fmt == ANS4 && t.Coded? ==> AnsLanes.EncodesLanes(lits, t.enc)
  {
    hide AnsLanes.DecodeLanes, AnsSingle.DecodeSingle, HuffCodec.SingleSpec, HuffCodec.FourSpec, AnsSingle.Encodes,
      AnsLanes.EncodesLanes, AnsLanes.LanesAccounts, AnsSingle.Accounts, HuffCodec.SingleAccounts, HuffCodec.FourAccounts;
    EmptyFails(fmt, |lits|);
    if fmt == ANS4 {
      var r := AnsLanes.VvaEncodeLanes(lits, cap);
      if r.EncodeFailed? {
        return NoCode;
      }
      AnsLanes.LanesRoundTrip(lits, r.bytes, [], |lits|);
      assert r.bytes + [] == r.bytes;
      return Coded(r.bytes);
    } else if fmt == ANS1 {
      var r := AnsSingle.VvaEncode(lits, cap);
      if r.EncodeFailed? {
        return NoCode;
      }
      AnsSingle.SingleRoundTrip(lits, r.bytes, [], |lits|);
      assert r.bytes + [] == r.bytes;
      return Coded(r.bytes);
    } else if fmt == HUFFMAN {
      var r := HuffCodec.EncodeSingle(lits, cap);
      if r.Refused? {
        return NoCode;
      }
      return Coded(r.bytes);
    } else {
      var r := HuffCodec.EncodeFour(lits, cap);
      if r.Refused? {
        return NoCode;
      }
      return Coded(r.bytes);
    }
  }

  predicate Shorter(a: Tried, b: Tried) {
    a.Coded? && (b.NoCode? || |a.enc| < |b.enc|)
  }

  /** `size` is no more than four lanes take, if they can be used at all and are tried. */
  ghost predicate Bested(lits: seq<Byte>, ans4Est: nat, size: nat) {
    |lits| < 4096 || ans4Est < |lits| ==>
      exists ok, lanes :: AnsLanes.LanesAccounts(lits, Bound(|lits|), ok, lanes) && (ok ==> size <= lanes)
  }

  /** The coder of format `fmt` does not make it shorter by more than `slack`, if it accepts the literals. */
  ghost predicate NoShorter(fmt: nat, lits: seq<Byte>, size: nat, slack: nat) {
    exists t :: Answers(fmt, lits, Bound(|lits|), t) && (t.Coded? ==> size <= |t.enc| + slack)
  }

  /** The Huffman coder that is tried on many literals, and what is expected of it. */
  function HuffmanTried(noHuffman4: bool, hufEst: nat): (nat, nat) {
    if noHuffman4 then (HUFFMAN, hufEst) else (HUFFMAN4, hufEst + 12)
  }

  /** What a size has been compared with. Few literals: each coder that takes part, four-stream Huffman standing in for
      single-stream Huffman at a loss of up to 32 bytes. Many: four lanes if their estimate is below the
      literals', and Huffman if its estimate is and does not exceed the size by an eighth. */
  ghost predicate Compared(lits: seq<Byte>, noHuffman4: bool, ans4Est: nat, hufEst: nat, size: nat) {
    if |lits| < 4096 then
      && NoShorter(ANS4, lits, size, 0) && NoShorter(ANS1, lits, size, 0)
      && NoShorter(HUFFMAN, lits, size, if noHuffman4 then 0 else 32)
    else
      var (fmt, est) := HuffmanTried(noHuffman4, hufEst);
      && (ans4Est < |lits| ==> NoShorter(ANS4, lits, size, 0))
      && (est < |lits| && est < size + size / 8 ==> NoShorter(fmt, lits, size, 0))
  }

  lemma BestedBy(lits: seq<Byte>, ans4Est: nat, t: Tried, size: nat)
    requires Answers(ANS4, lits, Bound(|lits|), t) && (t.Coded? ==> size <= |t.enc|)
    ensures Bested(lits, ans4Est, size)
  {
    hide AnsLanes.LanesAccounts;
    if t.Coded? {
      assert AnsLanes.LanesAccounts(lits, Bound(|lits|), true, |t.enc|);
    } else {
      var s :| AnsLanes.LanesAccounts(lits, Bound(|lits|), false, s);
    }
  }

  /** Few literals: every coder is run, and the shortest result wins. Four-stream Huffman may be up
      to 32 bytes longer than single-stream Huffman and still be preferred. */
  method Race(lits: seq<Byte>, noHuffman4: bool) returns (fmt: nat, enc: seq<Byte>)
    requires 0 < |lits| <= MAX_LITERALS
    ensures Codes(fmt, enc, lits) && forall ans4Est :: Bested(lits, ans4Est, |enc|)
    ensures NoShorter(ANS4, lits, |enc|, 0) && NoShorter(ANS1, lits, |enc|, 0)
    ensures NoShorter(HUFFMAN, lits, |enc|, if noHuffman4 then 0 else 32)
  {
    hide Codes, Answers, Bested;
    var cap := Bound(|lits|);
    var ans4 := Try(ANS4, lits, cap);
    var ans1 := Try(ANS1, lits, cap);
    var huf := Try(HUFFMAN, lits, cap);
    var huf4 := NoCode;
    if !noHuffman4 && |lits| >= 1024 {
      huf4 := Try(HUFFMAN4, lits, cap);
    }
    var best := ans4;
    fmt := ANS4;
    if Shorter(ans1, best) {
      best, fmt := ans1, ANS1;
    }
    var hufBest, hufFmt := huf, HUFFMAN;
    if huf4.Coded? && (huf.NoCode? || |huf4.enc| <= |huf.enc| + 32) {
      hufBest, hufFmt := huf4, HUFFMAN4;
    }
    if Shorter(hufBest, best) {
      best, fmt := hufBest, hufFmt;
    }
    ghost var size := if best.Coded? then |best.enc| else |lits|;
    forall ans4Est: nat
      ensures Bested(lits, ans4Est, size)
    {
      BestedBy(lits, ans4Est, ans4, size);
    }
    assert NoShorter(ANS4, lits, size, 0) by { assert Answers(ANS4, lits, Bound(|lits|), ans4); }
    assert NoShorter(ANS1, lits, size, 0) by { assert Answers(ANS1, lits, Bound(|lits|), ans1); }
    assert NoShorter(HUFFMAN, lits, size, if noHuffman4 then 0 else 32) by { assert Answers(HUFFMAN, lits, Bound(|lits|), huf); }
    if best.Coded? {
      return fmt, best.enc;
    }
    RawCodes(lits);
    return RAW, lits;
  }

  lemma RawCodes(lits: seq<Byte>)
    requires lits != []
    ensures Codes(RAW, lits, lits)
  {
    assert lits[..|lits|] == lits;
  }

  /** Many literals: estimates decide which coders are run at all, measured sizes decide between
      them. The estimates are arbitrary. */
  method RaceEstimated(lits: seq<Byte>, noHuffman4: bool, ans4Est: nat, hufEst: nat) returns (fmt: nat, enc: seq<Byte>)
    requires 4096 <= |lits| <= MAX_LITERALS
    ensures Codes(fmt, enc, lits) && Bested(lits, ans4Est, |enc|) && Compared(lits, noHuffman4, ans4Est, hufEst, |enc|)
  {
    hide Codes, Answers, Bested;
    RawCodes(lits);
    fmt, enc := RAW, lits;
    var huf4Est := hufEst + 12;
    var hbFmt, hbEst := if noHuffman4 then HUFFMAN else HUFFMAN4, if noHuffman4 then hufEst else huf4Est;
    if !noHuffman4 && hufEst + 32 < huf4Est {
      hbFmt, hbEst := HUFFMAN, hufEst;
    }
    ghost var lanes, huffman := NoCode, NoCode;
    if ans4Est < |lits| {
      var t := Try(ANS4, lits, Bound(|lits|));
      lanes := t;
      if t.Coded? && |t.enc| < |lits| {
        fmt, enc := ANS4, t.enc;
      }
    }
    if hbEst < |lits| && (fmt == RAW || hbEst < |enc| + |enc| / 8) {
      var t := Try(hbFmt, lits, Bound(|lits|));
      huffman := t;
      if t.Coded? && |t.enc| < |lits| && (fmt == RAW || |t.enc| < |enc|) {
        fmt, enc := hbFmt, t.enc;
      }
    }
    assert hbEst < |lits| && hbEst < |enc| + |enc| / 8 ==> NoShorter(hbFmt, lits, |enc|, 0) by {
      assert hbEst < |lits| && hbEst < |enc| + |enc| / 8 ==> Answers(hbFmt, lits, Bound(|lits|), huffman);
    }
    if ans4Est < |lits| {
      BestedBy(lits, ans4Est, lanes, |enc|);
      assert Answers(ANS4, lits, Bound(|lits|), lanes);
    } else {
      NotTried(lits, ans4Est, |enc|);
    }
  }

  lemma NotTried(lits: seq<Byte>, ans4Est: nat, size: nat)
    requires |lits| >= 4096 && ans4Est >= |lits|
    ensures Bested(lits, ans4Est, size)
  {
  }

  method EncodeLits(lits: seq<Byte>, noHuffman4: bool, ans4Est: nat, hufEst: nat) returns (fmt: nat, enc: seq<Byte>)
    requires |lits| <= MAX_LITERALS
    ensures fmt <= HUFFMAN4
    ensures lits == [] ==> fmt == RAW && enc == []
    ensures lits != [] ==>
              Codes(fmt, enc, lits) && Bested(lits, ans4Est, |enc|) && Compared(lits, noHuffman4, ans4Est, hufEst, |enc|)
  {
    hide Codes, Bested, NoShorter;
    if lits == [] {
      return RAW, [];
    }
    if |lits| >= 4096 {
      fmt, enc := RaceEstimated(lits, noHuffman4, ans4Est, hufEst);
    } else {
      fmt, enc := Race(lits, noHuffman4);
    }
    KnownFormat(fmt, enc, lits);
  }

  lemma KnownFormat(fmt: nat, enc: seq<Byte>, lits: seq<Byte>)
    requires Codes(fmt, enc, lits)
    ensures fmt <= HUFFMAN4
  {
  }

  /** Decodes `n` literals into `dst`. */
  method ReadLits(fmt: nat, enc: seq<Byte>, n: nat) returns (r: Lits)
    ensures r == DecodeLits(fmt, enc, n)
  {
    hide AnsLanes.DecodeLanes, AnsSingle.DecodeSingle, HuffCodec.SingleSpec, HuffCodec.FourSpec;
    if fmt == ANS4 {
      var dst := new Byte[n](_ => 0);
      var status, _ := AnsLanes.VvaDecodeLanes(enc, dst, n);
      return if status.Ok? then Lits(dst[..n]) else NoLits;
    } else if fmt == ANS1 {
      var dst := new Byte[n](_ => 0);
      var status, _ := AnsSingle.VvaDecode(enc, dst, n);
      return if status.Ok? then Lits(dst[..n]) else NoLits;
    } else if fmt == HUFFMAN {
      var ok, bytes, _ := HuffCodec.DecodeSingle(enc, n);
      return if ok then Lits(bytes) else NoLits;
    } else if fmt == HUFFMAN4 {
      var ok, bytes, _ := HuffCodec.DecodeFour(enc, n);
      return if ok then Lits(bytes) else NoLits;
    } else if |enc| >= n {
      return Lits(enc[..n]);
    }
    return NoLits;
  }
}
