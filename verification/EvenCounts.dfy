/** Sources in which no byte is rare: the normalization gives every byte of theirs at least 32 of the 4096 slots,
    and four lanes take at most seven bits a byte for them. */
module EvenCounts {
  import AnsCoder
  import opened AnsEncode
  import opened AnsHeader
  import opened AnsLanes
  import opened AnsSingle
  import opened AnsTables
  import opened Arith
  import opened Bits
  import opened Bytes
  import opened Normalize
  import SeqFrame

  /** Every byte that occurs makes up at least a 128th of the source. */
  ghost predicate Even(src: seq<Byte>) {
    forall b :: b in src ==> 128 * multiset(src)[b] >= |src|
  }

  ghost predicate EvenShares(raw: seq<nat>) {
    forall i :: 0 <= i < |raw| ==> raw[i] == 0 || 128 * raw[i] >= Sum(raw)
  }

  /** No share is rounded up to one slot. */
  lemma ShareWhole(r: nat, total: nat)
    requires r <= total && total > 0 && (r == 0 || 128 * r >= total)
    ensures BaseShare(r, total) * total <= r * ANS_L
    ensures r > 0 ==> BaseShare(r, total) >= 32
  {
    hide ShareFloor;
    if r > 0 {
      var q := r * ANS_L / total;
      assert q * total <= r * ANS_L < q * total + total;
      if q < 32 {
        MulMono(q + 1, 32, total);
      }
      ShareFloorIs(r, total);
    }
  }

  lemma ShareFloorIs(r: nat, total: nat)
    requires r <= total && total > 0
    ensures ShareFloor(r, total) == r * ANS_L / total
  {
  }

  lemma {:induction false} WholeSum(raw: seq<nat>, i: nat)
    requires Sum(raw) > 0 && i <= |raw| && EvenShares(raw)
    ensures Cum(Bases(raw), i) * Sum(raw) <= Cum(raw, i) * ANS_L
  {
    hide Cum, Sum, BaseShare;
    if i == 0 {
      CumStart(Bases(raw));
      CumStart(raw);
    } else {
      WholeSum(raw, i - 1);
      CumStep(Bases(raw), i - 1);
      CumStep(raw, i - 1);
      ElementBound(raw, i - 1);
      ShareWhole(raw[i - 1], Sum(raw));
      Distribute(Cum(Bases(raw), i - 1), Bases(raw)[i - 1], Sum(raw));
    }
  }

  /** The whole shares fit the table, so nothing is taken back. */
  lemma FloorsFit(raw: seq<nat>, norm: seq<nat>)
    requires Sum(raw) > 0 && EvenShares(raw) && Apportioned(raw, norm)
    ensures |norm| == |raw| && forall i :: 0 <= i < |raw| && raw[i] > 0 ==> norm[i] >= 32
  {
    hide Sum, Cum, BaseShare, SmallestRemainders, Levelled;
    WholeSum(raw, |raw|);
    CumEnd(Bases(raw));
    CumEnd(raw);
    if Sum(Bases(raw)) > ANS_L {
      MulMono(ANS_L + 1, Sum(Bases(raw)), Sum(raw));
    }
    forall i | 0 <= i < |raw| && raw[i] > 0
      ensures norm[i] >= 32
    {
      ElementBound(raw, i);
      ShareWhole(raw[i], Sum(raw));
    }
  }

  lemma EvenTable(src: seq<Byte>, norm: seq<nat>)
    requires Even(src) && Tabled(src, norm)
    ensures |norm| == NSYM && forall b :: b in src ==> norm[b] >= 32
  {
    hide Sum, Apportioned;
    var raw := CountsOf(src);
    forall i | 0 <= i < |raw|
      ensures raw[i] == 0 || 128 * raw[i] >= Sum(raw)
    {
      if raw[i] > 0 {
        assert i in multiset(src);
      }
    }
    FloorsFit(raw, norm);
    forall b | b in src
      ensures norm[b] >= 32
    {
      assert raw[b] == multiset(src)[b] > 0;
    }
  }

  /** A lane takes seven bits a byte. */
  lemma LaneSeven(norm: seq<nat>, src: seq<Byte>, k: nat)
    requires Covers(norm, src) && k < LANES && forall b :: b in src ==> norm[b] >= 32
    ensures 32 * LaneBytes(norm, src, k) <= 7 * |src| + 53
  {
    hide AnsCoder.Encode, Normalized, Lane, AnsCoder.AllEncodable;
    LaneCovered(norm, src, 0, k);
    var l := Lane(src, 0, k);
    CoveredOps(norm, l);
    assert Pow2(5) == 32;
    assert forall i :: 0 <= i < |l| ==> l[i] in src;
    EncodedWidth([norm], SymbolOps(l), 7);
    LaneSkip(src, 0, k, k);
    LaneLength(src, k);
    LaneBeyond(src, k);
  }

  lemma LaneBeyond(src: seq<Byte>, k: nat)
    requires k < LANES
    ensures 4 * |Lane(src, k, k)| <= |src| + 3
  {
    LaneLength(src, k);
  }

  /** Four lanes take at most seven bits a byte, a header and their preamble. */
  lemma LanesSeven(norm: seq<nat>, src: seq<Byte>)
    requires Even(src) && Tabled(src, norm) && Covers(norm, src) && TableShape(norm)
    ensures 8 * LanesSize(norm, src) <= 7 * |src| + 4400
  {
    hide Tabled, Covers, Header, LaneBytes, TableShape, PresentCount, Even;
    EvenTable(src, norm);
    SeqFrame.HeaderSize(norm);
    LaneSeven(norm, src, 0);
    LaneSeven(norm, src, 1);
    LaneSeven(norm, src, 2);
    LaneSeven(norm, src, 3);
  }

  /** So such a source of some size is accepted. */
  lemma EvenAccepted(src: seq<Byte>, cap: nat, ok: bool, size: nat)
    requires Even(src) && LanesAccounts(src, cap, ok, size)
    ensures 8 * size <= 7 * |src| + 4400
    ensures |src| >= 4401 && |src| <= cap ==> ok
  {
    hide Tabled, Covers, TableShape, LanesSize, Even;
    var norm :| LanesAccountsFor(norm, src, cap, ok, size);
    LanesSeven(norm, src);
  }
}
