/** `parse_sequences` (src/vv_ans.c): an LZ token stream becomes a list of sequence entries and one
    literal buffer, or is refused. */
module SeqParse {
  import opened Bytes
  import opened Lz

  /** The longest literal run the literal-length code represents. */
  const LL_MAX: nat := 65535

  /** `seq_t`. */
  datatype SeqEntry = SeqEntry(litLen: nat, litOffset: nat, matchLen: nat, offset: nat)

  /** All literals of the sequences, in order. */
  function Literals(seqs: seq<Sequence>): seq<Byte> {
    if seqs == [] then [] else Literals(seqs[..|seqs| - 1]) + seqs[|seqs| - 1].lits
  }

  lemma {:induction false} LiteralsFront(seqs: seq<Sequence>)
    requires seqs != []
    ensures Literals(seqs) == seqs[0].lits + Literals(seqs[1..])
    decreases |seqs|
  {
    var n := |seqs| - 1;
    if n > 0 {
      LiteralsFront(seqs[..n]);
      assert seqs[..n][1..] == seqs[1..][..n - 1];
      assert seqs[1..][n - 1] == seqs[n];
    } else {
      assert seqs[..0] == [] && seqs[1..] == [];
    }
  }

  function EntrySequence(e: SeqEntry, lit: seq<Byte>): Sequence
    requires e.litOffset + e.litLen <= |lit|
  {
    Sequence(lit[e.litOffset..e.litOffset + e.litLen], e.matchLen, e.offset)
  }

  /** Entry `i` describes sequence `i`, its literals starting where the earlier ones end. */
  ghost predicate Describes(entries: seq<SeqEntry>, lit: seq<Byte>, seqs: seq<Sequence>) {
    && |entries| == |seqs|
    && forall i :: 0 <= i < |seqs| ==>
         && entries[i].litOffset == |Literals(seqs[..i])|
         && entries[i].litOffset + entries[i].litLen <= |lit|
         && EntrySequence(entries[i], lit) == seqs[i]
  }

  /** A final literal run as entries of at most LL_MAX literals each. */
  function SplitRun(lits: seq<Byte>): (r: seq<Sequence>)
    ensures |r| == (if lits == [] then 0 else (|lits| - 1) / LL_MAX) + 1
    decreases |lits|
  {
    if |lits| <= LL_MAX then [Sequence(lits, 0, 0)]
    else [Sequence(lits[..LL_MAX], 0, 0)] + SplitRun(lits[LL_MAX..])
  }

  /** The parse the coder accepts: at least one sequence, and no over-long literal run in front of
      a match, which the wire could not tell from a match. */
  predicate Acceptable(q: ParseResult) {
    && q.Parsed? && q.seqs != []
    && forall i :: 0 <= i < |q.seqs| && q.seqs[i].matchLen > 0 ==> |q.seqs[i].lits| <= LL_MAX
  }

  /** What is refused, other than an empty parse, has more literals than one run can hold. */
  lemma RefusedIsLong(seqs: seq<Sequence>)
    requires seqs != [] && !Acceptable(Parsed(seqs))
    ensures |Literals(seqs)| > LL_MAX
  {
    hide Literals;
    var i :| 0 <= i < |seqs| && seqs[i].matchLen > 0 && |seqs[i].lits| > LL_MAX;
    RunAmong(seqs, i);
  }

  lemma {:induction false} RunAmong(seqs: seq<Sequence>, i: nat)
    requires i < |seqs|
    ensures |seqs[i].lits| <= |Literals(seqs)|
    decreases |seqs|
  {
    if i < |seqs| - 1 {
      RunAmong(seqs[..|seqs| - 1], i);
    }
  }

  /** The entries of an accepted parse: a final literal run is split. */
  function Entries(seqs: seq<Sequence>): seq<Sequence> {
    if seqs == [] then []
    else
      var n := |seqs| - 1;
      if seqs[n].matchLen > 0 then seqs else seqs[..n] + SplitRun(seqs[n].lits)
  }

  /** Splitting a literal run does not change what the sequences denote. */
  lemma {:induction false} SplitRunDenotes(out: seq<Byte>, lits: seq<Byte>, maxOffset: nat)
    ensures Valid(out, SplitRun(lits), maxOffset) && Denote(out, SplitRun(lits), maxOffset) == out + lits
    decreases |lits|
  {
    if |lits| <= LL_MAX {
      DenoteNone(out + lits, maxOffset);
      DenoteOne(out, Sequence(lits, 0, 0), [], maxOffset);
      assert [Sequence(lits, 0, 0)] + [] == SplitRun(lits);
    } else {
      var head := Sequence(lits[..LL_MAX], 0, 0);
      SplitRunDenotes(out + lits[..LL_MAX], lits[LL_MAX..], maxOffset);
      DenoteOne(out, head, SplitRun(lits[LL_MAX..]), maxOffset);
      assert out + lits[..LL_MAX] + lits[LL_MAX..] == out + lits;
    }
  }

  lemma EntriesDenote(out: seq<Byte>, seqs: seq<Sequence>, maxOffset: nat)
    ensures Valid(out, Entries(seqs), maxOffset) <==> Valid(out, seqs, maxOffset)
    ensures Valid(out, seqs, maxOffset) ==> Denote(out, Entries(seqs), maxOffset) == Denote(out, seqs, maxOffset)
  {
    hide Valid, Denote, SplitRun;
    if seqs != [] && seqs[|seqs| - 1].matchLen == 0 {
      var n := |seqs| - 1;
      var last := seqs[n];
      assert seqs == seqs[..n] + [last];
      ValidPrefix(out, seqs[..n], SplitRun(last.lits), maxOffset);
      ValidPrefix(out, seqs[..n], [last], maxOffset);
      if Valid(out, seqs[..n], maxOffset) {
        DenoteAppend(out, seqs[..n], [last], maxOffset);
        DenoteAppend(out, seqs[..n], SplitRun(last.lits), maxOffset);
        var mid := Denote(out, seqs[..n], maxOffset);
        SplitRunDenotes(mid, last.lits, maxOffset);
        assert [last] + [] == [last];
        DenoteOne(mid, last, [], maxOffset);
        DenoteNone(mid + last.lits, maxOffset);
      }
    }
  }

  lemma {:induction false} ValidPrefix(out: seq<Byte>, a: seq<Sequence>, b: seq<Sequence>, maxOffset: nat)
    ensures Valid(out, a + b, maxOffset) ==> Valid(out, a, maxOffset)
    decreases |a|
  {
    if a == [] {
      assert a + b == b;
    } else {
      assert (a + b)[1..] == a[1..] + b;
      if Valid(out, a + b, maxOffset) {
        ValidPrefix(Emit(out, a[0]), a[1..], b, maxOffset);
      }
    }
  }

  //////////////////////////////////////////////////////////////////////////////
  // The parser
  //////////////////////////////////////////////////////////////////////////////

  /** The extension loop. */
  method ReadExt(s: seq<Byte>, p: nat) returns (r: Extension)
    ensures r == ReadExtension(s, p, false)
  {
    var ext: nat, q := 0, p;
    if q >= |s| {
      return NoExtension;
    }
    while true
      invariant p <= q < |s|
      invariant ReadExtension(s, p, false) == Raised(ext, ReadExtension(s, q, false))
      decreases |s| - q
    {
      var b := s[q];
      q := q + 1;
      ext := ext + b;
      if b < 255 || q >= |s| {
        return Extension(ext, q);
      }
    }
  }

  function Raised(v: nat, e: Extension): Extension {
    if e.Extension? then Extension(v + e.value, e.next) else e
  }

  method ReadLen(s: seq<Byte>, nibble: nat, p: nat) returns (r: Extension)
    requires p <= |s|
    ensures r == ReadLength(s, nibble, p, false)
  {
    if nibble == 15 {
      var e := ReadExt(s, p);
      if e.NoExtension? {
        return NoExtension;
      }
      return Extension(15 + e.value, e.next);
    }
    return Extension(nibble, p);
  }

  method ReadOffset(s: seq<Byte>, p: nat, offBytes: nat) returns (off: nat)
    requires 2 <= offBytes <= 3 && p + offBytes <= |s|
    ensures off == LittleEndian(s, p, offBytes)
  {
    assert LittleEndian(s, p, 2) == s[p] as int + 256 * s[p + 1] as int;
    if offBytes == 3 {
      assert LittleEndian(s, p, 3) == s[p] + 256 * LittleEndian(s, p + 1, 2);
      off := s[p] as int + 256 * (s[p + 1] as int + 256 * s[p + 2] as int);
    } else {
      off := s[p] as int + 256 * s[p + 1] as int;
    }
  }

  /** Every accepted run so far carries a match and a representable literal length. */
  ghost predicate AllMatches(seqs: seq<Sequence>) {
    forall i :: 0 <= i < |seqs| ==> seqs[i].matchLen > 0 && |seqs[i].lits| <= LL_MAX
  }

  ghost function After(done: seq<Sequence>, q: ParseResult): ParseResult {
    if q.Parsed? then Parsed(done + q.seqs) else Malformed
  }

  lemma DescribesAppend(entries: seq<SeqEntry>, lit: seq<Byte>, seqs: seq<Sequence>, e: SeqEntry, lits: seq<Byte>, one: Sequence)
    requires Describes(entries, lit, seqs) && |lit| == |Literals(seqs)|
    requires e == SeqEntry(|lits|, |lit|, one.matchLen, one.offset) && one.lits == lits
    ensures Describes(entries + [e], lit + lits, seqs + [one])
    ensures |lit + lits| == |Literals(seqs + [one])|
    ensures Literals(seqs + [one]) == Literals(seqs) + lits
  {
    var all := seqs + [one];
    assert all[..|seqs|] == seqs;
    assert (lit + lits)[|lit|..] == lits;
    forall i | 0 <= i < |all|
      ensures (entries + [e])[i].litOffset == |Literals(all[..i])|
      ensures (entries + [e])[i].litOffset + (entries + [e])[i].litLen <= |lit + lits|
      ensures EntrySequence((entries + [e])[i], lit + lits) == all[i]
    {
      if i < |seqs| {
        assert all[..i] == seqs[..i];
        var f := entries[i];
        assert (lit + lits)[f.litOffset..f.litOffset + f.litLen] == lit[f.litOffset..f.litOffset + f.litLen];
      }
    }
  }

  /** The parse result: no entries stands for the failure code 0. */
  datatype Parse = Parse(entries: seq<SeqEntry>, lits: seq<Byte>)

  ghost predicate ParseOutcome(tokens: seq<Byte>, offBytes: nat, minMatch: nat, r: Parse) {
    var q := ParseTokens(tokens, 0, offBytes, minMatch, false);
    if Acceptable(q) then
      && Describes(r.entries, r.lits, Entries(q.seqs))
      && r.lits == Literals(Entries(q.seqs))
      && r.entries != []
    else r.entries == []
  }

  /** The entry count a token prefix can produce. */
  lemma CapacityBound(n: nat, p: nat, len: nat)
    requires 3 * n <= p <= len
    ensures n <= len / 3
  {
  }

  /** `parse_sequences` under its caller's capacity bound: the bound never truncates the parse, so
      the result is exactly the accepted entries. */
  method ParseSequences(tokens: seq<Byte>, offBytes: nat, minMatch: nat) returns (r: Parse)
    requires 2 <= offBytes <= 3 && minMatch > 0
    ensures ParseOutcome(tokens, offBytes, minMatch, r)
    ensures |r.entries| <= |tokens| / 3 + |tokens| / 65535 + 2
  {
    hide ReadLength, LittleEndian, Describes, Literals, Entries, ParseTokens;
    var cap := |tokens| / 3 + |tokens| / 65535 + 8;
    var entries: seq<SeqEntry> := [];
    var lits: seq<Byte> := [];
    var p := 0;
    ghost var done: seq<Sequence> := [];
    NothingParsed(tokens, offBytes, minMatch);
    while p < |tokens| && |entries| < cap
      invariant p <= |tokens| && 3 * |entries| + |lits| <= p
      invariant AllMatches(done) && Describes(entries, lits, done) && lits == Literals(done)
      invariant ParseTokens(tokens, 0, offBytes, minMatch, false) ==
                After(done, ParseTokens(tokens, p, offBytes, minMatch, false))
      decreases |tokens| - p
    {
      var start := p;
      ParseStep(tokens, start, offBytes, minMatch, done);
      var token := tokens[p];
      var l := ReadLen(tokens, token / 16, p + 1);
      if l.NoExtension? {
        return Parse([], []);
      }
      var ll := l.value;
      p := l.next;
      if ll > |tokens| - p {
        return Parse([], []);
      }
      var run := tokens[p..p + ll];
      p := p + ll;
      if ll > LL_MAX && p < |tokens| {
        TooLong(tokens, start, offBytes, minMatch, done);
        return Parse([], []);
      }
      if p >= |tokens| {
        assert ReadToken(tokens, start, offBytes, minMatch, false) == LastToken(run);
        r := FinishRun(entries, lits, run, cap, done, start, |tokens|);
        LastRun(done, run);
        return r;
      }
      if offBytes > |tokens| - p {
        return Parse([], []);
      }
      var off := ReadOffset(tokens, p, offBytes);
      p := p + offBytes;
      var m := ReadLen(tokens, token % 16, p);
      if m.NoExtension? {
        return Parse([], []);
      }
      p := m.next;
      ghost var one := Sequence(run, m.value + minMatch, off);
      assert ReadToken(tokens, start, offBytes, minMatch, false) == FullToken(run, off, m.value + minMatch, p);
      DescribesAppend(entries, lits, done, SeqEntry(ll, |lits|, m.value + minMatch, off), run, one);
      entries := entries + [SeqEntry(ll, |lits|, m.value + minMatch, off)];
      lits := lits + run;
      AfterOne(done, one, ParseTokens(tokens, p, offBytes, minMatch, false));
      done := done + [one];
    }
    CapacityBound(|entries|, p, |tokens|);
    if p < |tokens| {
      return Parse([], []);
    }
    ParsedAll(tokens, p, offBytes, minMatch, done);
    DescribesLength(entries, lits, done);
    r := Parse(entries, lits);
  }

  /** The final literal run, split into representable entries. */
  method FinishRun(entries0: seq<SeqEntry>, lits0: seq<Byte>, run: seq<Byte>, cap: nat, ghost done: seq<Sequence>,
                   ghost start: nat, len: nat)
    returns (r: Parse)
    requires Describes(entries0, lits0, done) && lits0 == Literals(done)
    requires 3 * |entries0| + |lits0| <= start && start + 1 + |run| <= len
    requires cap == len / 3 + len / 65535 + 8
    ensures Describes(r.entries, r.lits, done + SplitRun(run)) && r.lits == Literals(done + SplitRun(run))
    ensures r.entries != [] && |r.entries| <= len / 3 + len / 65535 + 2
  {
    hide Describes, Literals;
    var entries, lits, rest := entries0, lits0, run;
    ghost var pieces: seq<Sequence> := [];
    assert done + [] == done && [] + SplitRun(run) == SplitRun(run);
    while |rest| > LL_MAX
      invariant Describes(entries, lits, done + pieces) && lits == Literals(done + pieces)
      invariant pieces + SplitRun(rest) == SplitRun(run)
      invariant LL_MAX * |pieces| + |rest| == |run| && |entries| == |entries0| + |pieces|
      decreases |rest|
    {
      assert |pieces| <= len / 65535 by { PieceBound(|pieces|, |run|, len); }
      if |entries| >= cap {
        return Parse([], []);
      }
      var piece := rest[..LL_MAX];
      ghost var one := Sequence(piece, 0, 0);
      DescribesAppend(entries, lits, done + pieces, SeqEntry(LL_MAX, |lits|, 0, 0), piece, one);
      assert done + pieces + [one] == done + (pieces + [one]);
      assert pieces + SplitRun(rest) == (pieces + [one]) + SplitRun(rest[LL_MAX..]);
      entries := entries + [SeqEntry(LL_MAX, |lits|, 0, 0)];
      lits := lits + piece;
      pieces := pieces + [one];
      rest := rest[LL_MAX..];
    }
    PieceBound(|pieces|, |run|, len);
    if |entries| >= cap {
      return Parse([], []);
    }
    ghost var one := Sequence(rest, 0, 0);
    DescribesAppend(entries, lits, done + pieces, SeqEntry(|rest|, |lits|, 0, 0), rest, one);
    assert done + pieces + [one] == done + (pieces + [one]);
    r := Parse(entries + [SeqEntry(|rest|, |lits|, 0, 0)], lits + rest);
  }

  lemma PieceBound(n: nat, run: nat, len: nat)
    requires LL_MAX * n <= run <= len
    ensures n <= len / 65535
  {
  }

  lemma NothingParsed(tokens: seq<Byte>, offBytes: nat, minMatch: nat)
    ensures Describes([], [], []) && Literals([]) == []
    ensures ParseTokens(tokens, 0, offBytes, minMatch, false) ==
            After([], ParseTokens(tokens, 0, offBytes, minMatch, false))
  {
    var q := ParseTokens(tokens, 0, offBytes, minMatch, false);
    if q.Parsed? {
      assert [] + q.seqs == q.seqs;
    }
  }

  /** One unfolding of the parse behind the sequences already taken. */
  lemma ParseStep(tokens: seq<Byte>, p: nat, offBytes: nat, minMatch: nat, done: seq<Sequence>)
    requires p < |tokens|
    ensures var t := ReadToken(tokens, p, offBytes, minMatch, false);
            var q := After(done, ParseTokens(tokens, p, offBytes, minMatch, false));
            && (t.BadToken? ==> q == Malformed)
            && (t.LastToken? ==> q == Parsed(done + [Sequence(t.lits, 0, 0)]))
            && (t.FullToken? ==> q == After(done, After([Sequence(t.lits, t.matchLen, t.offset)],
                                                        ParseTokens(tokens, t.next, offBytes, minMatch, false))))
  {
    hide ReadToken;
  }

  lemma AfterOne(done: seq<Sequence>, one: Sequence, q: ParseResult)
    ensures After(done, After([one], q)) == After(done + [one], q)
  {
    if q.Parsed? {
      assert done + ([one] + q.seqs) == done + [one] + q.seqs;
    }
  }

  /** A run too long for its match refuses the whole stream. */
  lemma TooLong(tokens: seq<Byte>, p: nat, offBytes: nat, minMatch: nat, done: seq<Sequence>)
    requires p < |tokens| && minMatch > 0
    requires var l := ReadLength(tokens, tokens[p] / 16, p + 1, false);
             l.Extension? && LL_MAX < l.value < |tokens| - l.next
    ensures !Acceptable(After(done, ParseTokens(tokens, p, offBytes, minMatch, false)))
  {
    hide ReadLength, LittleEndian;
    var t := ReadToken(tokens, p, offBytes, minMatch, false);
    if t.FullToken? {
      var one := Sequence(t.lits, t.matchLen, t.offset);
      var q := ParseTokens(tokens, t.next, offBytes, minMatch, false);
      if q.Parsed? {
        assert (done + ([one] + q.seqs))[|done|] == one;
      }
    }
  }

  lemma LastRun(done: seq<Sequence>, run: seq<Byte>)
    requires AllMatches(done)
    ensures Acceptable(Parsed(done + [Sequence(run, 0, 0)]))
    ensures Entries(done + [Sequence(run, 0, 0)]) == done + SplitRun(run)
  {
    var all := done + [Sequence(run, 0, 0)];
    assert all[..|all| - 1] == done;
  }

  lemma ParsedAll(tokens: seq<Byte>, p: nat, offBytes: nat, minMatch: nat, done: seq<Sequence>)
    requires p >= |tokens| && AllMatches(done)
    requires ParseTokens(tokens, 0, offBytes, minMatch, false) ==
             After(done, ParseTokens(tokens, p, offBytes, minMatch, false))
    ensures ParseTokens(tokens, 0, offBytes, minMatch, false) == Parsed(done)
    ensures Acceptable(Parsed(done)) <==> done != []
    ensures Entries(done) == done
  {
    assert done + [] == done;
  }

  lemma DescribesLength(entries: seq<SeqEntry>, lits: seq<Byte>, seqs: seq<Sequence>)
    requires Describes(entries, lits, seqs)
    ensures |entries| == |seqs|
  {
  }
}
