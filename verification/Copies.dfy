/** Wide loads and stores of the decoders (src/vv_decoder.c:62-125, src/vv_simd.c, src/vv_ans.c),
    as refinements of the byte-by-byte match copy. A store may run past the bytes wanted. */
module Copies {
  import opened Bytes
  import opened Lz

  /** When the source lies at least `n` bytes back, `n` copied bytes are a slice of the old output. */
  lemma {:induction false} CopyWide(out: seq<Byte>, offset: nat, n: nat)
    requires 1 <= offset <= |out| && n <= offset
    ensures Copy(out, offset, n) == out + out[|out| - offset..|out| - offset + n]
    decreases n
  {
    var r := out + out[|out| - offset..|out| - offset + n];
    forall k | |out| <= k < |r|
      ensures r[k] == r[k - offset]
    {
    }
    CopyUnique(out, offset, n, r);
  }

  /** A load of `n` bytes followed by one store: the source is read before anything is written. */
  method Store(buf: array<Byte>, d: nat, s: nat, n: nat)
    requires s + n <= buf.Length && d + n <= buf.Length
    modifies buf
    ensures buf[..] == old(buf[..d]) + old(buf[s..s + n]) + old(buf[d + n..])
  {
    StoreBytes(buf, d, buf[s..s + n]);
  }

  method StoreBytes(buf: array<Byte>, d: nat, v: seq<Byte>)
    requires d + |v| <= buf.Length
    modifies buf
    ensures buf[..] == old(buf[..d]) + v + old(buf[d + |v|..])
  {
    for i := 0 to |v|
      invariant buf[d..d + i] == v[..i]
      invariant buf[..d] == old(buf[..d])
      invariant buf[d + i..] == old(buf[d + i..])
    {
      ghost var rest := buf[d + i..];
      buf[d + i] := v[i];
      assert buf[d + i + 1..] == rest[1..];
      assert old(buf[d + i..])[1..] == old(buf[d + i + 1..]);
      assert buf[d..d + i + 1] == buf[d..d + i] + [v[i]];
    }
    assert buf[..] == buf[..d] + buf[d..d + |v|] + buf[d + |v|..];
  }

  /** A store of more bytes than wanted leaves the wanted ones, and nothing past `bound` changes. */
  lemma AfterStore(before: seq<Byte>, now: seq<Byte>, op: nat, v: seq<Byte>, len: nat, bound: nat)
    requires len <= |v| && op + |v| <= bound <= |before|
    requires now == before[..op] + v + before[op + |v|..]
    ensures now[..op + len] == before[..op] + v[..len] && now[..op] == before[..op]
    ensures now[bound..] == before[bound..]
  {
  }

  /** From `before` to `now` a copy has been made at `d`, and nothing from `bound` on has changed. */
  ghost predicate Copied(before: seq<Byte>, now: seq<Byte>, d: nat, offset: nat, len: nat, bound: nat) {
    && 1 <= offset <= d && d + len <= bound <= |before| == |now|
    && now[..d + len] == Copy(before[..d], offset, len)
    && now[bound..] == before[bound..]
  }

  lemma CopiedMeans(before: seq<Byte>, now: seq<Byte>, d: nat, offset: nat, len: nat, bound: nat)
    requires Copied(before, now, d, offset, len, bound)
    ensures 1 <= offset <= d && d + len <= bound <= |before| == |now|
    ensures now[..d + len] == Copy(before[..d], offset, len) && now[..d] == before[..d]
    ensures now[bound..] == before[bound..]
  {
    var r := Copy(before[..d], offset, len);
    assert now[..d] == now[..d + len][..d];
  }

  lemma CopiedNothing(before: seq<Byte>, d: nat, offset: nat)
    requires 1 <= offset <= d <= |before|
    ensures Copied(before, before, d, offset, 0, d)
  {
  }

  /** A copy continued where an exact one stopped is one copy. */
  lemma CopiedChain(before: seq<Byte>, mid: seq<Byte>, now: seq<Byte>, d: nat, offset: nat, a: nat, b: nat, bound: nat)
    requires Copied(before, mid, d, offset, a, d + a)
    requires Copied(mid, now, d + a, offset, b, bound)
    ensures Copied(before, now, d, offset, a + b, bound)
  {
    CopyAppend(before[..d], offset, a, b);
    TailFrom(before, mid, d + a, bound);
  }

  lemma TailFrom(x: seq<Byte>, y: seq<Byte>, i: nat, j: nat)
    requires i <= j <= |x| == |y| && x[i..] == y[i..]
    ensures x[j..] == y[j..]
  {
    assert x[j..] == x[i..][j - i..];
    assert y[j..] == y[i..][j - i..];
  }

  lemma CopiedWider(before: seq<Byte>, now: seq<Byte>, d: nat, offset: nat, len: nat, bound: nat, wider: nat)
    requires Copied(before, now, d, offset, len, bound) && bound <= wider <= |now|
    ensures Copied(before, now, d, offset, len, wider)
  {
    TailFrom(before, now, bound, wider);
  }

  lemma StoreCopies(before: seq<Byte>, now: seq<Byte>, d: nat, offset: nat, len: nat, w: nat)
    requires 1 <= offset <= d && len <= w <= offset && d + w <= |before|
    requires now == before[..d] + before[d - offset..d - offset + w] + before[d + w..]
    ensures Copied(before, now, d, offset, len, d + w)
  {
    var out := before[..d];
    CopyWide(out, offset, len);
    var load := before[d - offset..d - offset + w];
    assert now[..d + len] == out + load[..len];
    assert load[..len] == out[d - offset..d - offset + len];
  }

  /** One store of `w` bytes makes a copy of any `len <= w`; the bytes between are overshoot. */
  method StoreWide(buf: array<Byte>, d: nat, offset: nat, len: nat, w: nat)
    requires 1 <= offset <= d && len <= w <= offset && d + w <= buf.Length
    modifies buf
    ensures Copied(old(buf[..]), buf[..], d, offset, len, d + w)
  {
    hide Copied;
    ghost var before := buf[..];
    assert buf[..d] == before[..d] && buf[d - offset..d - offset + w] == before[d - offset..d - offset + w]
           && buf[d + w..] == before[d + w..];
    Store(buf, d, d - offset, w);
    StoreCopies(before, buf[..], d, offset, len, w);
  }

  /** Stores of `w` bytes while they fit, then the exact tail. */
  method CopyChunks(buf: array<Byte>, d: nat, offset: nat, len: nat, w: nat)
    requires 1 <= w <= offset <= d && d + len <= buf.Length
    modifies buf
    ensures Copied(old(buf[..]), buf[..], d, offset, len, d + len)
  {
    hide Copied;
    ghost var before := buf[..];
    var done := 0;
    CopiedNothing(before, d, offset);
    while len - done >= w
      invariant 0 <= done <= len
      invariant Copied(before, buf[..], d, offset, done, d + done)
      decreases len - done
    {
      ghost var mid := buf[..];
      StoreWide(buf, d + done, offset, w, w);
      CopiedChain(before, mid, buf[..], d, offset, done, w, d + done + w);
      done := done + w;
    }
    ghost var mid := buf[..];
    StoreWide(buf, d + done, offset, len - done, len - done);
    CopiedChain(before, mid, buf[..], d, offset, done, len - done, d + len);
  }

  lemma ByteStore(s: seq<Byte>, d: nat, i: nat)
    requires d < |s| && i < |s|
    ensures s[d := s[i]] == s[..d] + s[i..i + 1] + s[d + 1..]
  {
  }

  method CopyByte(buf: array<Byte>, d: nat, offset: nat)
    requires 1 <= offset <= d < buf.Length
    modifies buf
    ensures Copied(old(buf[..]), buf[..], d, offset, 1, d + 1)
  {
    hide Copied;
    ghost var mid := buf[..];
    buf[d] := buf[d - offset];
    assert buf[..] == mid[d := mid[d - offset]];
    ByteStore(mid, d, d - offset);
    StoreCopies(mid, buf[..], d, offset, 1, 1);
  }

  /** Byte by byte, correct for every offset. */
  method CopyBytes(buf: array<Byte>, d: nat, offset: nat, len: nat)
    requires 1 <= offset <= d && d + len <= buf.Length
    modifies buf
    ensures Copied(old(buf[..]), buf[..], d, offset, len, d + len)
  {
    hide Copied;
    ghost var before := buf[..];
    CopiedNothing(before, d, offset);
    for i := 0 to len
      invariant Copied(before, buf[..], d, offset, i, d + i)
    {
      ghost var mid := buf[..];
      CopyByte(buf, d + i, offset);
      CopiedChain(before, mid, buf[..], d, offset, i, 1, d + i + 1);
    }
  }
}
