/** What the parse of a block with a late match means for its literals: the sequence coder refuses it, and the
    literals are more than 16 bits count, and none of them is rare. */
module LateLiterals {
  import opened Bytes
  import EvenCounts
  import LateMatch
  import opened Lz
  import opened SeqCodec
  import opened SeqParse

  /** Below this size the parser cannot give up, and no count but 65536 is a multiple of 65536. */
  const SPOIL_SIZE: nat := 0x2_0000

  /** A block that nothing repeats in but a run at its end, too long for one literal run, whose bytes all occur
      often before that. */
  ghost predicate Spoiling(data: seq<Byte>, start: nat, end: nat) {
    && start <= end <= |data| && LateMatch.Ends(data, start, end)
    && LL_MAX + LateMatch.RUN_MOST < end - start < SPOIL_SIZE
    && Lasting(data[start..end])
  }

  /** What spoils after a history spoils after any end of it. */
  lemma SpoilsAfterLess(data: seq<Byte>, start: nat, end: nat, drop: nat)
    requires Spoiling(data, start, end) && drop <= start
    ensures Spoiling(data[drop..], start - drop, end - drop)
  {
    hide Lasting;
    var p :| LateMatch.Ending(data, start, end, p);
    LateMatch.EndingLess(data, start, end, p, drop);
    assert data[drop..][start - drop..end - drop] == data[start..end];
  }

  ghost predicate Lasting(block: seq<Byte>)
    requires |block| >= LateMatch.RUN_MOST
  {
    forall b :: b in block ==> 128 * multiset(block[..|block| - LateMatch.RUN_MOST])[b] >= |block|
  }

  /** Literals are bytes of the block. */
  lemma {:induction false} LiteralsIn(out: seq<Byte>, seqs: seq<Sequence>, maxOffset: nat, b: Byte)
    requires Lz.Valid(out, seqs, maxOffset) && b in Literals(seqs)
    ensures b in Denote(out, seqs, maxOffset)[|out|..]
    decreases |seqs|
  {
    hide Copy, Literals;
    if seqs == [] {
      NoneThere();
    } else {
      LiteralsFront(seqs);
      var next := Lz.Emit(out, seqs[0]);
      var all := Denote(out, seqs, maxOffset);
      assert out + seqs[0].lits <= next <= all;
      if b in seqs[0].lits {
        var i :| 0 <= i < |seqs[0].lits| && seqs[0].lits[i] == b;
        assert all[|out|..][i] == (out + seqs[0].lits)[|out| + i] == b;
      } else {
        LiteralsIn(next, seqs[1..], maxOffset, b);
        assert all[|next|..] == all[|out|..][|next| - |out|..];
      }
    }
  }

  lemma NoneThere()
    ensures Literals([]) == []
  {
  }

  /** The first literals are the front of the block. */
  lemma FirstRun(out: seq<Byte>, seqs: seq<Sequence>, maxOffset: nat)
    requires Lz.Valid(out, seqs, maxOffset) && seqs != []
    ensures seqs[0].lits <= Literals(seqs) && seqs[0].lits <= Denote(out, seqs, maxOffset)[|out|..]
  {
    hide Copy, Literals;
    LiteralsFront(seqs);
    var all := Denote(out, seqs, maxOffset);
    assert out + seqs[0].lits <= Lz.Emit(out, seqs[0]) <= all;
    assert all[|out|..|out| + |seqs[0].lits|] == seqs[0].lits;
  }

  lemma PrefixCounts(front: seq<Byte>, all: seq<Byte>, b: Byte)
    requires front <= all
    ensures multiset(front)[b] <= multiset(all)[b]
  {
    assert all == front + all[|front|..];
  }

  lemma EvenFrom(block: seq<Byte>, lits: seq<Byte>)
    requires |block| >= LateMatch.RUN_MOST && Lasting(block) && |lits| <= |block|
    requires block[..|block| - LateMatch.RUN_MOST] <= lits
    requires forall b :: b in lits ==> b in block
    ensures EvenCounts.Even(lits)
  {
    var front := block[..|block| - LateMatch.RUN_MOST];
    forall b | b in lits
      ensures 128 * multiset(lits)[b] >= |lits|
    {
      PrefixCounts(front, lits, b);
    }
  }

  /** The parse of such a block. */
  lemma LateParse(data: seq<Byte>, start: nat, end: nat, seqs: seq<Sequence>, maxOffset: nat)
    requires Spoiling(data, start, end) && LateMatch.CaughtLate(data, start, end, seqs)
    requires Lz.Valid(data[..start], seqs, maxOffset) && Denote(data[..start], seqs, maxOffset) == data[..end]
    ensures !Acceptable(Parsed(seqs))
    ensures LL_MAX < |Literals(seqs)| <= end - start && EvenCounts.Even(Literals(seqs))
  {
    hide Lz.Valid, Denote, Literals, Lasting, EvenCounts.Even;
    var p :| LateMatch.Ending(data, start, end, p) && LateMatch.Late(start, p, seqs);
    Bounds(data, start, end, p);
    var hist, block, lits := data[..start], data[start..end], Literals(seqs);
    assert data[..end][|hist|..] == block;
    FirstRun(hist, seqs, maxOffset);
    var front := block[..|block| - LateMatch.RUN_MOST];
    assert front <= seqs[0].lits <= lits;
    DenoteLength(hist, seqs, maxOffset);
    LiteralsAtMost(seqs);
    forall b | b in lits
      ensures b in block
    {
      LiteralsIn(hist, seqs, maxOffset, b);
    }
    EvenFrom(block, lits);
  }

  lemma Bounds(data: seq<Byte>, start: nat, end: nat, p: nat)
    requires LateMatch.Ending(data, start, end, p)
    ensures end - LateMatch.RUN_MOST <= p <= end <= |data|
  {
  }
}
