/** The block decoder's three loops (src/vv_decoder.c:32-125, 136-427) and the tiered match copies
    (src/vv_simd.c), as refinements of the plain token loop `DecodeTokens`. */
module BlockDecode {
  import opened Bytes
  import opened Copies
  import opened Lz
  import opened SeqParse

  const VV_MIN_MATCH: nat := 4
  const IP_MARGIN: nat := 48
  const OP_MARGIN: nat := 72

  //////////////////////////////////////////////////////////////////////////////
  // Match copies
  //////////////////////////////////////////////////////////////////////////////

  /** The copy routines selected at run time. */
  datatype Tier = Scalar | Wide16 | Wide32

  /** Stores of 32 bytes, one of 16, and an exact tail. */
  method MatchCopy32(buf: array<Byte>, d: nat, offset: nat, len: nat)
    requires 32 <= offset <= d && d + len <= buf.Length
    modifies buf
    ensures Copied(old(buf[..]), buf[..], d, offset, len, d + len)
  {
    hide Copied;
    ghost var before := buf[..];
    var done: nat := 0;
    CopiedNothing(before, d, offset);
    while len - done >= 32
      invariant done <= len
      invariant Copied(before, buf[..], d, offset, done, d + done)
      decreases len - done
    {
      ghost var mid := buf[..];
      StoreWide(buf, d + done, offset, 32, 32);
      CopiedChain(before, mid, buf[..], d, offset, done, 32, d + done + 32);
      done := done + 32;
    }
    if len - done >= 16 {
      ghost var mid := buf[..];
      StoreWide(buf, d + done, offset, 16, 16);
      CopiedChain(before, mid, buf[..], d, offset, done, 16, d + done + 16);
      done := done + 16;
    }
    ghost var mid := buf[..];
    StoreWide(buf, d + done, offset, len - done, len - done);
    CopiedChain(before, mid, buf[..], d, offset, done, len - done, d + len);
  }

  /** One 32-byte store for a short match, given the room. */
  method MatchCopy32Hot(buf: array<Byte>, d: nat, offset: nat, len: nat)
    requires 32 <= offset <= d && d + 32 <= buf.Length && d + len <= buf.Length
    modifies buf
    ensures Copied(old(buf[..]), buf[..], d, offset, len, if len <= 32 then d + 32 else d + len)
  {
    if len <= 32 {
      StoreWide(buf, d, offset, len, 32);
    } else {
      MatchCopy32(buf, d, offset, len);
    }
  }

  /** Words of eight bytes, then bytes. */
  method MatchCopy8(buf: array<Byte>, d: nat, offset: nat, len: nat)
    requires 8 <= offset <= d && d + len <= buf.Length
    modifies buf
    ensures Copied(old(buf[..]), buf[..], d, offset, len, d + len)
  {
    hide Copied;
    ghost var before := buf[..];
    var whole := len / 8 * 8;
    CopyChunks(buf, d, offset, whole, 8);
    ghost var mid := buf[..];
    CopyBytes(buf, d + whole, offset, len - whole);
    CopiedChain(before, mid, buf[..], d, offset, whole, len - whole, d + len);
  }

  /** `vv_copy_match`: every tier is the byte-by-byte copy, and writes nothing else. */
  method CopyMatch(tier: Tier, buf: array<Byte>, d: nat, offset: nat, len: nat)
    requires 1 <= offset <= d && d + len <= buf.Length
    modifies buf
    ensures Copied(old(buf[..]), buf[..], d, offset, len, d + len)
  {
    if tier == Wide32 && offset >= 32 {
      MatchCopy32(buf, d, offset, len);
    } else if offset >= 16 {
      CopyChunks(buf, d, offset, len, 16);
    } else if offset >= 8 {
      MatchCopy8(buf, d, offset, len);
    } else {
      CopyBytes(buf, d, offset, len);
    }
  }

  /** The fast loops' choice: the over-store only where 32 bytes of room remain. */
  method FastCopyMatch(buf: array<Byte>, d: nat, offset: nat, len: nat, opEnd: nat)
    requires 1 <= offset <= d && d + len <= opEnd <= buf.Length
    modifies buf
    ensures Copied(old(buf[..]), buf[..], d, offset, len, opEnd)
  {
    hide Copied;
    ghost var before := buf[..];
    if offset >= 32 {
      if opEnd - d >= 32 {
        MatchCopy32Hot(buf, d, offset, len);
        CopiedWider(before, buf[..], d, offset, len, if len <= 32 then d + 32 else d + len, opEnd);
        return;
      } else {
        MatchCopy32(buf, d, offset, len);
      }
    } else if offset >= 16 {
      CopyChunks(buf, d, offset, len, 16);
    } else if offset >= 8 {
      MatchCopy8(buf, d, offset, len);
    } else {
      CopyBytes(buf, d, offset, len);
    }
    CopiedWider(before, buf[..], d, offset, len, d + len, opEnd);
  }

  //////////////////////////////////////////////////////////////////////////////
  // Lengths
  //////////////////////////////////////////////////////////////////////////////

  /** `read_ext_len`: input that ends inside an extension is an error. */
  method ReadExtLen(s: seq<Byte>, p: nat) returns (r: Extension)
    ensures r == ReadExtension(s, p, true)
  {
    var val: nat, q := 0, p;
    while q < |s|
      invariant p <= q && (q <= |s| || q == p)
      invariant ReadExtension(s, p, true) == Raised(val, ReadExtension(s, q, true))
      decreases |s| - q
    {
      var b := s[q];
      q := q + 1;
      val := val + b;
      if b < 255 {
        return Extension(val, q);
      }
    }
    return NoExtension;
  }

  method ReadStrictLen(s: seq<Byte>, nibble: nat, p: nat) returns (r: Extension)
    requires p <= |s|
    ensures r == ReadLength(s, nibble, p, true)
  {
    if nibble == 15 {
      var e := ReadExtLen(s, p);
      if e.NoExtension? {
        return NoExtension;
      }
      return Extension(15 + e.value, e.next);
    }
    return Extension(nibble, p);
  }

  //////////////////////////////////////////////////////////////////////////////
  // One token
  //////////////////////////////////////////////////////////////////////////////

  /** A block: its tokens, where its space in the output ends, and the frame's offset bound. */
  datatype Frame = Frame(s: seq<Byte>, limit: nat, maxOffset: nat, offBytes: nat)

  function Plain(f: Frame, p: nat, out: seq<Byte>): BlockResult
    requires |out| <= f.limit
  {
    DecodeTokens(f.s, p, out, f.limit, f.maxOffset, f.offBytes, VV_MIN_MATCH)
  }

  /** The plain loop after the literals of a token whose second nibble is `nibble`. */
  function AfterRun(f: Frame, nibble: nat, p2: nat, out1: seq<Byte>): BlockResult
    requires p2 <= |f.s| && |out1| <= f.limit
  {
    if p2 == |f.s| then BlockOk(out1)
    else if f.offBytes > |f.s| - p2 then BlockError(Corrupt)
    else
      match ReadLength(f.s, nibble, p2 + f.offBytes, true)
      case NoExtension => BlockError(Corrupt)
      case Extension(ml, p3) =>
        var offset, len := LittleEndian(f.s, p2, f.offBytes), ml + VV_MIN_MATCH;
        if offset == 0 || offset > f.maxOffset || offset > |out1| then BlockError(Corrupt)
        else if len > f.limit - |out1| then BlockError(Overflow)
        else Plain(f, p3, Copy(out1, offset, len))
  }

  lemma PlainRun(f: Frame, p: nat, out: seq<Byte>)
    requires |out| <= f.limit && p < |f.s|
    ensures Plain(f, p, out) ==
            match ReadLength(f.s, f.s[p] / 16, p + 1, true)
            case NoExtension => BlockError(Corrupt)
            case Extension(ll, p1) =>
              if ll > |f.s| - p1 then BlockError(Corrupt)
              else if ll > f.limit - |out| then BlockError(Overflow)
              else AfterRun(f, f.s[p] % 16, p1 + ll, out + f.s[p1..p1 + ll])
  {
    hide ReadLength, LittleEndian, Copy;
  }

  /** `BadRun` is the code the fast loops return for a literal run that does not fit its input or
      its output; the plain loop tells the two apart. */
  datatype Outcome = Fine | Bad(error: DecodeError) | BadRun

  ghost predicate Agrees(o: Outcome, r: BlockResult) {
    (o.Bad? ==> r == BlockError(o.error)) && (o.BadRun? ==> r.BlockError?)
  }

  /** The literals of a token. In the fast loops a run of at most 14 is one 16-byte store, which
      the margins make safe. */
  method TakeRun(f: Frame, ip: nat, buf: array<Byte>, op: nat, fast: bool) returns (o: Outcome, p2: nat, end: nat)
    requires ip < |f.s| && op <= f.limit <= buf.Length
    requires fast ==> ip + IP_MARGIN < |f.s| && op + OP_MARGIN < f.limit
    modifies buf
    ensures Agrees(o, Plain(f, ip, old(buf[..op]))) && (!fast ==> !o.BadRun?) && op <= end <= f.limit
    ensures buf[f.limit..] == old(buf[f.limit..]) && buf[..op] == old(buf[..op])
    ensures o.Fine? ==> ip < p2 <= |f.s| && Plain(f, ip, old(buf[..op])) == AfterRun(f, f.s[ip] % 16, p2, buf[..end])
  {
    hide ReadLength, AfterRun, Plain;
    PlainRun(f, ip, buf[..op]);
    end, p2 := op, ip;
    var r := ReadStrictLen(f.s, f.s[ip] / 16, ip + 1);
    if r.NoExtension? {
      return Bad(Corrupt), p2, end;
    }
    ShortRun(f.s, f.s[ip] / 16, ip + 1);
    var ll, p1 := r.value, r.next;
    if ll > |f.s| - p1 || ll > f.limit - op {
      o := if fast then BadRun else if ll > |f.s| - p1 then Bad(Corrupt) else Bad(Overflow);
      return o, p2, end;
    }
    ghost var before := buf[..];
    var n := if fast && ll <= 14 then 16 else ll;
    StoreBytes(buf, op, f.s[p1..p1 + n]);
    AfterStore(before, buf[..], op, f.s[p1..p1 + n], ll, f.limit);
    end, p2 := op + ll, p1 + ll;
    assert f.s[p1..p1 + n][..ll] == f.s[p1..p2];
    assert buf[..end] == buf[..][..end] && buf[..op] == buf[..][..op] && before[..op] == old(buf[..op]);
    assert buf[f.limit..] == buf[..][f.limit..] && before[f.limit..] == old(buf[f.limit..]);
    o := Fine;
  }

  lemma ShortRun(s: seq<Byte>, nibble: nat, p: nat)
    requires p <= |s| && ReadLength(s, nibble, p, true).Extension?
    ensures ReadLength(s, nibble, p, true).value <= 14 ==> ReadLength(s, nibble, p, true).next == p
  {
  }

  /** The match of a token, when there is input left after the literals. Without `history` the
      offset is checked against the window alone, because that much output already exists. */
  method TakeMatch(f: Frame, nibble: nat, p2: nat, buf: array<Byte>, op: nat, fast: bool, history: bool, tier: Tier)
    returns (o: Outcome, p3: nat, end: nat)
    requires p2 < |f.s| && op <= f.limit <= buf.Length && 2 <= f.offBytes <= 3
    requires history || f.maxOffset <= op
    modifies buf
    ensures Agrees(o, AfterRun(f, nibble, p2, old(buf[..op]))) && !o.BadRun? && op <= end <= f.limit
    ensures buf[f.limit..] == old(buf[f.limit..]) && buf[..op] == old(buf[..op])
    ensures o.Fine? ==> p2 < p3 <= |f.s| && AfterRun(f, nibble, p2, old(buf[..op])) == Plain(f, p3, buf[..end])
  {
    hide ReadLength, Plain, Copied, LittleEndian, Copy;
    end, p3 := op, p2;
    if |f.s| - p2 < f.offBytes {
      return Bad(Corrupt), p3, end;
    }
    var offset := ReadOffset(f.s, p2, f.offBytes);
    var r := ReadStrictLen(f.s, nibble, p2 + f.offBytes);
    if r.NoExtension? {
      return Bad(Corrupt), p3, end;
    }
    var len := r.value + VV_MIN_MATCH;
    if offset == 0 || offset > f.maxOffset || (history && offset > op) {
      return Bad(Corrupt), p3, end;
    }
    if len > f.limit - op {
      return Bad(Overflow), p3, end;
    }
    ghost var before := buf[..];
    if fast {
      FastCopyMatch(buf, op, offset, len, f.limit);
    } else {
      CopyMatch(tier, buf, op, offset, len);
      CopiedWider(before, buf[..], op, offset, len, op + len, f.limit);
    }
    CopiedMeans(before, buf[..], op, offset, len, f.limit);
    end, p3 := op + len, r.next;
    assert buf[..end] == buf[..][..end] && buf[..op] == buf[..][..op] && before[..op] == old(buf[..op]);
    assert buf[f.limit..] == buf[..][f.limit..] && before[f.limit..] == old(buf[f.limit..]);
    o := Fine;
  }

  /** One token, in any of the three loops. */
  method TakeToken(f: Frame, ip: nat, buf: array<Byte>, op: nat, fast: bool, history: bool, tier: Tier)
    returns (o: Outcome, next: nat, end: nat)
    requires ip < |f.s| && op <= f.limit <= buf.Length && 2 <= f.offBytes <= 3
    requires fast ==> ip + IP_MARGIN < |f.s| && op + OP_MARGIN < f.limit
    requires history || f.maxOffset <= op
    modifies buf
    ensures Agrees(o, Plain(f, ip, old(buf[..op]))) && (!fast ==> !o.BadRun?) && op <= end <= f.limit
    ensures buf[f.limit..] == old(buf[f.limit..]) && buf[..op] == old(buf[..op])
    ensures o.Fine? ==> ip < next <= |f.s| && Plain(f, ip, old(buf[..op])) == Plain(f, next, buf[..end])
  {
    hide AfterRun, Plain;
    o, next, end := TakeRun(f, ip, buf, op, fast);
    if !o.Fine? {
      return;
    }
    if next >= |f.s| {
      PlainEnd(f, f.s[ip] % 16, next, buf[..end]);
      return;
    }
    ghost var mid := end;
    o, next, end := TakeMatch(f, f.s[ip] % 16, next, buf, end, fast, history, tier);
    assert buf[..op] == buf[..mid][..op];
  }

  lemma PlainEnd(f: Frame, nibble: nat, p: nat, out: seq<Byte>)
    requires |out| <= f.limit && p == |f.s|
    ensures AfterRun(f, nibble, p, out) == Plain(f, p, out) == BlockOk(out)
  {
  }

  //////////////////////////////////////////////////////////////////////////////
  // The three loops
  //////////////////////////////////////////////////////////////////////////////

  /** `decode_block_tokens_impl`, with the fast loops (`wide`) or without: it succeeds exactly when
      the plain loop does, with the same bytes, and writes nothing past the block's space. */
  method DecodeBlockTokens(s: seq<Byte>, buf: array<Byte>, start: nat, cap: nat, maxOffset: nat, offBytes: nat,
                           wide: bool, tier: Tier) returns (o: Outcome, end: nat)
    requires start + cap <= buf.Length && 2 <= offBytes <= 3
    modifies buf
    ensures start <= end <= start + cap && buf[start + cap..] == old(buf[start + cap..]) && buf[..start] == old(buf[..start])
    ensures var r := DecodeTokens(s, 0, old(buf[..start]), start + cap, maxOffset, offBytes, VV_MIN_MATCH);
            && (o.Fine? <==> r.BlockOk?) && (o.Fine? ==> buf[..end] == r.out)
            && (o.Bad? ==> r == BlockError(o.error))
            && (!wide ==> !o.BadRun?)
  {
    hide DecodeTokens;
    var f := Frame(s, start + cap, maxOffset, offBytes);
    var ip: nat, op := 0, start;
    var ipSafe := if |s| > IP_MARGIN then |s| - IP_MARGIN else 0;
    var opSafe := if cap > OP_MARGIN then f.limit - OP_MARGIN else start;
    ghost var goal := Plain(f, 0, buf[..start]);
    if wide {
      while ip < ipSafe && op < opSafe && op <= maxOffset
        invariant ip <= |s| && start <= op <= f.limit && buf[f.limit..] == old(buf[f.limit..]) && buf[..start] == old(buf[..start])
        invariant goal == Plain(f, ip, buf[..op])
        decreases |s| - ip
      {
        ghost var was := op;
        o, ip, op := TakeToken(f, ip, buf, op, true, true, tier);
        assert buf[..start] == buf[..was][..start];
        if !o.Fine? {
          return o, op;
        }
      }
      while ip < ipSafe && op < opSafe
        invariant ip <= |s| && start <= op <= f.limit && buf[f.limit..] == old(buf[f.limit..]) && buf[..start] == old(buf[..start])
        invariant goal == Plain(f, ip, buf[..op])
        invariant ip < ipSafe && op < opSafe ==> op > maxOffset
        decreases |s| - ip
      {
        ghost var was := op;
        o, ip, op := TakeToken(f, ip, buf, op, true, false, tier);
        assert buf[..start] == buf[..was][..start];
        if !o.Fine? {
          return o, op;
        }
      }
    }
    while ip < |s|
      invariant ip <= |s| && start <= op <= f.limit && buf[f.limit..] == old(buf[f.limit..]) && buf[..start] == old(buf[..start])
      invariant goal == Plain(f, ip, buf[..op])
      decreases |s| - ip
    {
      ghost var was := op;
      o, ip, op := TakeToken(f, ip, buf, op, false, true, tier);
      assert buf[..start] == buf[..was][..start];
      if !o.Fine? {
        return o, op;
      }
    }
    PlainEnd(f, 0, ip, buf[..op]);
    return Fine, op;
  }
}
