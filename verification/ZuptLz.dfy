/** The older LZ codec (src/zupt_lz.c:28-241): tokens with offsets of two bytes and matches from 3 bytes on,
    over hash chains. */
module ZuptLz {
  import opened Arith
  import opened Bits
  import opened Bytes
  import Copies
  import opened GreedyParse
  import opened HashChains
  import opened LazyLog
  import opened Lz
  import opened MatchFinder
  import opened Tokens

  const LZ_MIN_MATCH: nat := 3
  const MAX_OFFSET: nat := 65535
  const MAX_LEN: nat := 65535
  const OFFSET_BYTES: nat := 2
  const HASH_SIZE: nat := 0x4_0000
  const CHAIN_SIZE: nat := 65535
  const MAX_SOURCE: nat := 0x8000_0000

  //////////////////////////////////////////////////////////////////////////////
  // Decoding, on values
  //////////////////////////////////////////////////////////////////////////////

  datatype Length = TooBig | Length(total: nat, next: nat)

  /** `lz_read_extra`: bytes are added up to the first below 255, or to the end of the input; the sum may not
      pass 2^32. */
  function ReadExtra(s: seq<Byte>, p: nat, t: nat): (r: Length)
    requires p <= |s|
    ensures r.Length? ==> p <= r.next <= |s| && r.total >= t
    decreases |s| - p
  {
    if p >= |s| then Length(t, p)
    else if t > 0xFFFF_FFFF - 255 then TooBig
    else if s[p] < 255 then Length(t + s[p], p + 1)
    else ReadExtra(s, p + 1, t + 255)
  }

  /** A length whose nibble is 15 goes on. */
  function ReadLen(s: seq<Byte>, p: nat, nibble: nat, base: nat): (r: Length)
    requires p <= |s|
    ensures r.Length? ==> p <= r.next <= |s| && r.total >= base + nibble
  {
    if nibble == 15 then ReadExtra(s, p, base + 15) else Length(base + nibble, p)
  }

  datatype Result = Faulty | Decoded(out: seq<Byte>)

  /** `zupt_lz_decompress` from position `p`, with `out` written so far and room for `cap` bytes. */
  function Decode(s: seq<Byte>, p: nat, out: seq<Byte>, cap: nat): (r: Result)
    requires |out| <= cap
    ensures r.Decoded? ==> |r.out| <= cap
    decreases |s| - p
  {
    if p >= |s| then Decoded(out)
    else
      match ReadLen(s, p + 1, s[p] / 16, 0)
      case TooBig => Faulty
      case Length(ll, p1) =>
        if p1 + ll > |s| || |out| + ll > cap then Faulty
        else
          var out1, p2 := out + s[p1..p1 + ll], p1 + ll;
          if p2 >= |s| then Decoded(out1)
          else if p2 + 2 > |s| then Faulty
          else
            var offset := LittleEndian(s, p2, 2);
            if offset == 0 || offset > |out1| then Faulty
            else
              match ReadLen(s, p2 + 2, s[p] % 16, LZ_MIN_MATCH)
              case TooBig => Faulty
              case Length(ml, p3) =>
                if |out1| + ml > cap then Faulty else Decode(s, p3, Copy(out1, offset, ml), cap)
  }

  /** What the decoder leaves in `dlen` bytes: nothing if the input is corrupt. */
  function Decompress(s: seq<Byte>, dlen: nat): (r: seq<Byte>)
    ensures |r| <= dlen
  {
    match Decode(s, 0, [], dlen)
    case Faulty => []
    case Decoded(out) => out
  }

  //////////////////////////////////////////////////////////////////////////////
  // Round trip
  //////////////////////////////////////////////////////////////////////////////

  lemma {:induction false} ExtraInverse(s: seq<Byte>, p: nat, v: nat, t: nat)
    requires At(s, p, Varint(v)) && t + v <= 0xFFFF_FFFF - 255
    ensures p <= |s| && ReadExtra(s, p, t) == Length(t + v, p + |Varint(v)|)
    decreases v
  {
    hide At;
    AtMeans(s, p, Varint(v));
    if v >= 255 {
      AtHead(s, p, 255, Varint(v - 255));
      ExtraInverse(s, p + 1, v - 255, t + 255);
    } else {
      assert [v as Byte] + [] == [v as Byte];
      AtHead(s, p, v, []);
    }
  }

  lemma LenInverse(s: seq<Byte>, p: nat, v: nat, base: nat)
    requires At(s, p, ExtensionBytes(v)) && base + v <= 0xFFFF_FFFF - 255
    ensures p <= |s| && ReadLen(s, p, Nibble(v), base) == Length(base + v, p + |ExtensionBytes(v)|)
  {
    hide At, ReadExtra, Varint;
    AtMeans(s, p, ExtensionBytes(v));
    if v >= 15 {
      ExtraInverse(s, p, v - 15, base + 15);
    }
  }

  /** A sequence this codec writes. */
  ghost predicate Writable(one: Sequence) {
    |one.lits| < MAX_SOURCE && one.matchLen <= MAX_LEN
  }

  lemma LastInverse(s: seq<Byte>, p: nat, lits: seq<Byte>, out: seq<Byte>, cap: nat)
    requires |lits| < MAX_SOURCE && |out| + |lits| <= cap
    requires At(s, p, TokenBytes(Sequence(lits, 0, 0), OFFSET_BYTES, LZ_MIN_MATCH))
    requires p + |TokenBytes(Sequence(lits, 0, 0), OFFSET_BYTES, LZ_MIN_MATCH)| == |s|
    ensures Decode(s, p, out, cap) == Decoded(out + lits)
  {
    hide At, ReadLen, ExtensionBytes, Nibble;
    var one, ext := Sequence(lits, 0, 0), ExtensionBytes(|lits|);
    assert TokenBytes(one, OFFSET_BYTES, LZ_MIN_MATCH) == [Lead(one, LZ_MIN_MATCH)] + (ext + lits);
    AtHead(s, p, Lead(one, LZ_MIN_MATCH), ext + lits);
    AtSplit(s, p + 1, ext, lits);
    LeadNibbles(Nibble(|lits|), 0);
    LenInverse(s, p + 1, |lits|, 0);
    AtMeans(s, p + 1 + |ext|, lits);
  }

  /** Where the parts of a token with a match stand. */
  lemma TokenPlaces(s: seq<Byte>, p: nat, one: Sequence)
    requires Carries(one, OFFSET_BYTES, LZ_MIN_MATCH) && At(s, p, TokenBytes(one, OFFSET_BYTES, LZ_MIN_MATCH))
    ensures var ext, ext2 := ExtensionBytes(|one.lits|), ExtensionBytes(one.matchLen - LZ_MIN_MATCH);
            var p2 := p + 1 + |ext| + |one.lits|;
            && p < |s| && s[p] == Lead(one, LZ_MIN_MATCH) && At(s, p + 1, ext) && At(s, p + 1 + |ext|, one.lits)
            && At(s, p2, LeBytes(one.offset, OFFSET_BYTES)) && At(s, p2 + 2, ext2)
            && p2 + 2 + |ext2| == p + |TokenBytes(one, OFFSET_BYTES, LZ_MIN_MATCH)|
  {
    hide At, LeBytes, ExtensionBytes, Nibble, Lead;
    var ext, ext2 := ExtensionBytes(|one.lits|), ExtensionBytes(one.matchLen - LZ_MIN_MATCH);
    var le := LeBytes(one.offset, OFFSET_BYTES);
    assert TokenBytes(one, OFFSET_BYTES, LZ_MIN_MATCH) == [Lead(one, LZ_MIN_MATCH)] + (ext + (one.lits + (le + ext2)));
    AtHead(s, p, Lead(one, LZ_MIN_MATCH), ext + (one.lits + (le + ext2)));
    AtSplit(s, p + 1, ext, one.lits + (le + ext2));
    AtSplit(s, p + 1 + |ext|, one.lits, le + ext2);
    AtSplit(s, p + 1 + |ext| + |one.lits|, le, ext2);
  }

  /** The parts of a token with a match, as they are read. */
  lemma TokenParts(s: seq<Byte>, p: nat, one: Sequence)
    requires Carries(one, OFFSET_BYTES, LZ_MIN_MATCH) && Writable(one)
    requires At(s, p, TokenBytes(one, OFFSET_BYTES, LZ_MIN_MATCH))
    ensures var p1 := p + 1 + |ExtensionBytes(|one.lits|)|;
            var p2 := p1 + |one.lits|;
            var p3 := p2 + 2 + |ExtensionBytes(one.matchLen - LZ_MIN_MATCH)|;
            && p3 == p + |TokenBytes(one, OFFSET_BYTES, LZ_MIN_MATCH)| <= |s|
            && ReadLen(s, p + 1, s[p] / 16, 0) == Length(|one.lits|, p1) && s[p1..p2] == one.lits
            && LittleEndian(s, p2, 2) == one.offset
            && ReadLen(s, p2 + 2, s[p] % 16, LZ_MIN_MATCH) == Length(one.matchLen, p3)
  {
    hide At, ReadLen, LittleEndian, LeBytes, ExtensionBytes, Nibble, Pow2, TokenBytes;
    TokenPlaces(s, p, one);
    var ext, ml := ExtensionBytes(|one.lits|), one.matchLen - LZ_MIN_MATCH;
    var p2 := p + 1 + |ext| + |one.lits|;
    LeadNibbles(Nibble(|one.lits|), Nibble(ml));
    LenInverse(s, p + 1, |one.lits|, 0);
    ReadLe(s, p2, one.offset, OFFSET_BYTES);
    LenInverse(s, p2 + 2, ml, LZ_MIN_MATCH);
    AtMeans(s, p + 1 + |ext|, one.lits);
    AtMeans(s, p2 + 2, ExtensionBytes(ml));
  }

  lemma FullInverse(s: seq<Byte>, p: nat, one: Sequence, out: seq<Byte>, cap: nat)
    requires Carries(one, OFFSET_BYTES, LZ_MIN_MATCH) && Writable(one) && 1 <= one.offset <= |out| + |one.lits|
    requires At(s, p, TokenBytes(one, OFFSET_BYTES, LZ_MIN_MATCH)) && |out| + |one.lits| + one.matchLen <= cap
    ensures Decode(s, p, out, cap) ==
            Decode(s, p + |TokenBytes(one, OFFSET_BYTES, LZ_MIN_MATCH)|, Lz.Emit(out, one), cap)
  {
    hide At, ReadLen, LittleEndian, TokenBytes, Copy;
    TokenParts(s, p, one);
  }

  /** Emitted tokens decode to what their sequences denote. */
  lemma {:induction false} DecodeInverse(s: seq<Byte>, p: nat, seqs: seq<Sequence>, out: seq<Byte>, cap: nat)
    requires Emittable(seqs, OFFSET_BYTES, LZ_MIN_MATCH) && forall i :: 0 <= i < |seqs| ==> Writable(seqs[i])
    requires At(s, p, TokenStream(seqs, OFFSET_BYTES, LZ_MIN_MATCH)) && p + |TokenStream(seqs, OFFSET_BYTES, LZ_MIN_MATCH)| == |s|
    requires Lz.Valid(out, seqs, MAX_OFFSET) && |Denote(out, seqs, MAX_OFFSET)| <= cap
    ensures |out| <= cap && Decode(s, p, out, cap) == Decoded(Denote(out, seqs, MAX_OFFSET))
    decreases |seqs|
  {
    hide At, TokenBytes, Decode, Carries, Lz.Valid, Denote, Copy;
    var one := seqs[0];
    assert seqs == [one] + seqs[1..];
    DenoteOne(out, one, seqs[1..], MAX_OFFSET);
    AtSplit(s, p, TokenBytes(one, OFFSET_BYTES, LZ_MIN_MATCH), TokenStream(seqs[1..], OFFSET_BYTES, LZ_MIN_MATCH));
    if |seqs| == 1 {
      assert one == Sequence(one.lits, 0, 0);
      NoTokens(OFFSET_BYTES, LZ_MIN_MATCH);
      assert seqs[1..] == [];
      DenoteNone(out + one.lits, MAX_OFFSET);
      LastInverse(s, p, one.lits, out, cap);
    } else {
      CarriesMatch(one, OFFSET_BYTES, LZ_MIN_MATCH);
      FullInverse(s, p, one, out, cap);
      DecodeInverse(s, p + |TokenBytes(one, OFFSET_BYTES, LZ_MIN_MATCH)|, seqs[1..], Lz.Emit(out, one), cap);
    }
  }

  //////////////////////////////////////////////////////////////////////////////
  // Matches
  //////////////////////////////////////////////////////////////////////////////

  /** `lz_hash4`. */
  function Hash(src: seq<Byte>, p: nat): (h: nat)
    requires p + 4 <= |src|
    ensures h < HASH_SIZE
  {
    LittleEndian(src, p, 4) * 2654435761 % 0x1_0000_0000 / 0x4000
  }

  /** What equal hashes and three equal bytes say: the multiplier is odd, so that the fourth byte alone moves the
      hash's upper eight bits. */
  lemma FourthByte(a: nat, d: nat, e: nat)
    requires d < 256 && e < 256
    requires (a + 0x100_0000 * d) * 2654435761 % 0x1_0000_0000 / 0x4000 == (a + 0x100_0000 * e) * 2654435761 % 0x1_0000_0000 / 0x4000
    ensures d == e
  {
    TopByte(a * 2654435761, 2654435761 * d);
    TopByte(a * 2654435761, 2654435761 * e);
    assert (a + 0x100_0000 * d) * 2654435761 == a * 2654435761 + 0x100_0000 * (2654435761 * d);
    assert (a + 0x100_0000 * e) * 2654435761 == a * 2654435761 + 0x100_0000 * (2654435761 * e);
    OddMultiplier(a * 2654435761 / 0x100_0000, d, e);
  }

  lemma OddMultiplier(x: nat, d: nat, e: nat)
    requires d < 256 && e < 256 && (x + 2654435761 * d) % 256 == (x + 2654435761 * e) % 256
    ensures d == e
  {
    var t: int := (x + 2654435761 * d) / 256 - (x + 2654435761 * e) / 256;
    var u: int := t - 10368889 * (d - e);
    assert 177 * (d - e) == 256 * u;
    assert d - e == 256 * (81 * u - 56 * (d - e));
  }

  lemma TopByte(x: nat, y: nat)
    ensures (x + 0x100_0000 * y) % 0x1_0000_0000 / 0x4000 / 0x400 == (x / 0x100_0000 + y) % 256
  {
    var r, low := (x / 0x100_0000 + y) % 256, x % 0x100_0000;
    var q := (x / 0x100_0000 + y) / 256;
    DivModUnique(x + 0x100_0000 * y, 0x1_0000_0000, q, r * 0x100_0000 + low);
    assert (r * 0x100_0000 + low) / 0x4000 / 0x400 == r;
  }

  lemma HashTells(src: seq<Byte>, p: nat, q: nat)
    requires p + 4 <= |src| && q + 4 <= |src| && Hash(src, p) == Hash(src, q) && src[p..p + 3] == src[q..q + 3]
    ensures src[p + 3] == src[q + 3]
  {
    hide LittleEndian;
    FourBytes(src, p);
    FourBytes(src, q);
    EqualValues(src, p, q, 3);
    FourthByte(LittleEndian(src, p, 3), src[p + 3], src[q + 3]);
  }

  lemma FourBytes(src: seq<Byte>, p: nat)
    requires p + 4 <= |src|
    ensures LittleEndian(src, p, 4) == LittleEndian(src, p, 3) + 0x100_0000 * (src[p + 3] as nat)
  {
    assert LittleEndian(src, p + 3, 1) == src[p + 3];
    assert LittleEndian(src, p + 2, 2) == src[p + 2] as nat + 256 * (src[p + 3] as nat);
    assert LittleEndian(src, p + 1, 3) == src[p + 1] as nat + 256 * (src[p + 2] as nat + 256 * (src[p + 3] as nat));
    assert LittleEndian(src, p + 1, 2) == src[p + 1] as nat + 256 * (src[p + 2] as nat);
  }

  ghost function Hashes(src: seq<Byte>): (hs: seq<nat>)
    ensures |hs| == if |src| < 4 then 0 else |src| - 3
    ensures forall p :: 0 <= p < |hs| ==> hs[p] == Hash(src, p)
  {
    seq(if |src| < 4 then 0 else |src| - 3, (p: nat) requires p + 4 <= |src| => Hash(src, p))
  }

  function LevelOf(level: int): (lv: nat)
    ensures 1 <= lv <= 9
  {
    if level < 1 then 1 else if level > 9 then 9 else level
  }

  /** What the parser searches with. */
  ghost function FinderOf(src: seq<Byte>, level: int): Finder {
    var lv := LevelOf(level);
    Finder(Hashes(src), 4 + lv * lv * 3, MAX_OFFSET, LZ_MIN_MATCH, MAX_LEN, 256, if lv >= 3 then 1 else 0, LZ_MIN_MATCH)
  }

  ghost function SetOf(ins: seq<nat>): set<nat> {
    set p | p in ins
  }

  /** The chains hold the positions inserted, in order. */
  ghost predicate Keeps(src: seq<Byte>, ht: seq<int>, ch: seq<int>, ins: seq<nat>, lim: nat) {
    && Linked(src, ht, ch, SetOf(ins), lim) && Chained(Hashes(src), ht, ch, ins, lim)
  }

  /** A link is none, or leads to an inserted position with that hash. */
  ghost predicate Leads(src: seq<Byte>, ins: set<nat>, h: nat, v: int) {
    v < 0 || (v in ins && v + 4 <= |src| && Hash(src, v) == h)
  }

  /** The tables after inserting the positions `ins`, all before `lim`: heads and the links of the last 65535
      positions lead to positions with the same hash. Older links may have been overwritten. */
  ghost predicate Linked(src: seq<Byte>, ht: seq<int>, ch: seq<int>, ins: set<nat>, lim: nat) {
    && |ht| == HASH_SIZE && |ch| == CHAIN_SIZE
    && (forall r :: r in ins ==> r < lim && r + 4 <= |src|)
    && (forall h :: 0 <= h < HASH_SIZE ==> Leads(src, ins, h, ht[h]))
    && (forall r :: r in ins && lim <= r + CHAIN_SIZE ==> Leads(src, ins, Hash(src, r), ch[r % CHAIN_SIZE]))
  }

  lemma LinkedNone(src: seq<Byte>, ht: seq<int>, ch: seq<int>)
    requires |ht| == HASH_SIZE && |ch| == CHAIN_SIZE && forall h :: 0 <= h < HASH_SIZE ==> ht[h] == -1
    ensures Linked(src, ht, ch, {}, 0)
  {
  }

  lemma LinkedLater(src: seq<Byte>, ht: seq<int>, ch: seq<int>, ins: set<nat>, lim: nat, later: nat)
    requires Linked(src, ht, ch, ins, lim) && lim <= later
    ensures Linked(src, ht, ch, ins, later)
  {
    hide Hash;
  }

  lemma LinkedInsert(src: seq<Byte>, ht: seq<int>, ch: seq<int>, ins: set<nat>, lim: nat, ip: nat)
    requires Linked(src, ht, ch, ins, lim) && lim <= ip && ip + 4 <= |src|
    ensures Linked(src, ht[Hash(src, ip) := ip], ch[ip % CHAIN_SIZE := ht[Hash(src, ip)]], ins + {ip}, ip + 1)
  {
    hide Hash;
    var h := Hash(src, ip);
    var ht', ch', ins' := ht[h := ip], ch[ip % CHAIN_SIZE := ht[h]], ins + {ip};
    forall r | r in ins' && ip + 1 <= r + CHAIN_SIZE
      ensures Leads(src, ins', Hash(src, r), ch'[r % CHAIN_SIZE])
    {
      if r != ip {
        assert Leads(src, ins, Hash(src, r), ch[r % CHAIN_SIZE]);
        SlotsApart(r, ip);
      } else {
        assert Leads(src, ins, h, ht[h]);
      }
    }
    forall g | 0 <= g < HASH_SIZE
      ensures Leads(src, ins', g, ht'[g])
    {
      assert Leads(src, ins, g, ht[g]);
    }
  }

  lemma SlotsApart(r: nat, ip: nat)
    requires r < ip < r + CHAIN_SIZE
    ensures r % CHAIN_SIZE != ip % CHAIN_SIZE
  {
  }

  /** No match, or one the decoder can copy. It has at least four bytes. */
  ghost predicate Found(src: seq<Byte>, ip: nat, len: nat, off: nat) {
    len > 0 ==>
      && LZ_MIN_MATCH < len <= MAX_LEN && off <= MAX_OFFSET && MatchAt(src, ip, off, len, |src|)
      && Full(src, ip, off, len, |src|, MAX_LEN)
  }

  /** Three bytes and the hash make four. */
  lemma NeverThree(src: seq<Byte>, ref: nat, ip: nat, most: nat, l: nat)
    requires ref < ip && ip + 4 <= |src| && Hash(src, ref) == Hash(src, ip) && 4 <= most && ip + most <= |src|
    requires 3 <= l <= most && SameBytes(src, ip, ref, l) && (l < most ==> src[ref + l] != src[ip + l])
    ensures l >= 4
  {
    hide Hash;
    if l == 3 {
      HashTells(src, ref, ip);
    }
  }

  /** The positions `lz_find_match` walks. */
  ghost function Chain(src: seq<Byte>, ip: nat, ht: seq<int>, ch: seq<int>, maxChain: nat): seq<nat>
    requires ip + 4 <= |src| && |ht| == HASH_SIZE && |ch| == CHAIN_SIZE
  {
    Visited(ch, ht[Hash(src, ip)], -1, maxChain, if ip <= MAX_OFFSET then 0 else ip - MAX_OFFSET, ip)
  }

  /** Compares at one position, its far end and first byte first: more than `best` bytes, if there are any. */
  method Probe(src: seq<Byte>, ip: nat, ref: nat, len: nat, best: nat, most: nat) returns (l: nat)
    requires ref < ip <= ref + MAX_OFFSET && ip + 4 <= |src| && Hash(src, ref) == Hash(src, ip) && most == Most(ip, |src|, MAX_LEN)
    requires best == if len == 0 then LZ_MIN_MATCH - 1 else len
    requires len == 0 || len >= LZ_MIN_MATCH
    ensures l > best ==> Found(src, ip, l, ip - ref)
    ensures !Beaten(src, ip, ref, if l > best then l else len, LZ_MIN_MATCH, most)
  {
    hide SameBytes, MatchAt, Beaten, Hash;
    l := 0;
    if best < |src| - ip && src[ref + best] == src[ip + best] && src[ref] == src[ip] {
      l := Common(src, ref, ip, most);
      if l > best {
        NeverThree(src, ref, ip, most, l);
        FoundOne(src, ip, l, ip - ref, most);
        AsFarAsItGoes(src, ip, ref, l, LZ_MIN_MATCH, most);
      } else {
        Unequal(src, ip, ref, len, LZ_MIN_MATCH, best, l, most);
      }
    } else {
      Unequal(src, ip, ref, len, LZ_MIN_MATCH, best, if best < |src| - ip && src[ref + best] != src[ip + best] then best else 0, most);
    }
  }

  /** `lz_find_match`: the longest match on one chain, unless one of 256 bytes ends the walk. The hash takes in four
      bytes, so that although three would do for a token, no match of three is ever found. */
  method FindMatch(src: seq<Byte>, ip: nat, ht: array<int>, ch: array<int>, maxChain: nat, ghost inserted: seq<nat>, ghost f: Finder)
    returns (len: nat, off: nat)
    requires ip <= |src| && ht.Length == HASH_SIZE && ch.Length == CHAIN_SIZE
    requires Keeps(src, ht[..], ch[..], inserted, ip) && Suits(src, f, maxChain)
    ensures Found(src, ip, len, off) && Searched(src, f, ip, inserted, len, off)
    ensures ip + 4 <= |src| && len < 256 ==>
              BestOf(src, ip, Chain(src, ip, ht[..], ch[..], maxChain), len, LZ_MIN_MATCH, Most(ip, |src|, MAX_LEN))
  {
    hide Hash, SameBytes, MatchAt, Visited, BestOf, Beaten, Leads, Chained, Searched, Longest;
    len, off := 0, 0;
    ghost var ins, lim := SetOf(inserted), ip;
    if ip + 4 > |src| {
      SearchedHere(src, f, maxChain, ht[..], ch[..], inserted, ip, 0, 0);
      return;
    }
    ghost var h := Hash(src, ip);
    var ref, best, count := ht[Hash(src, ip)], LZ_MIN_MATCH - 1, 0;
    var most := if |src| - ip > MAX_LEN then MAX_LEN else |src| - ip;
    ghost var limit, seen: seq<nat> := if ip <= MAX_OFFSET then 0 else ip - MAX_OFFSET, [];
    ghost var all := Chain(src, ip, ht[..], ch[..], maxChain);
    NoneSeen(src, ip, LZ_MIN_MATCH, most);
    assert Leads(src, ins, h, ht[..][h]);
    while ref >= 0 && count < maxChain
      invariant best == (if len == 0 then LZ_MIN_MATCH - 1 else len) && Found(src, ip, len, off) && Leads(src, ins, h, ref)
      invariant (len == 0 || len >= LZ_MIN_MATCH) && len < 256 && count <= maxChain && all == seen + Visited(ch[..], ref, -1, maxChain - count, limit, ip)
      invariant BestOf(src, ip, seen, len, LZ_MIN_MATCH, most)
      decreases maxChain - count
    {
      var dist := ip - ref;
      if dist < 0 || dist > MAX_OFFSET || dist == 0 {
        break;
      }
      VisitedOne(ch[..], ref, -1, maxChain - count, limit, ip);
      LeadsTo(src, ins, h, ref);
      var l := Probe(src, ip, ref, len, best, most);
      BestNext(src, ip, seen, len, if l > best then l else len, LZ_MIN_MATCH, most, ref);
      if l > best {
        best, len, off := l, l, dist;
        if l >= 256 {
          break;
        }
      }
      assert Leads(src, ins, Hash(src, ref), ch[..][ref % CHAIN_SIZE]);
      seen, ref := seen + [ref], ch[ref % CHAIN_SIZE];
      count := count + 1;
    }
    if len < 256 {
      VisitedDone(ch[..], ref, -1, maxChain - count, limit, ip);
      assert seen + [] == seen;
    }
    SearchedHere(src, f, maxChain, ht[..], ch[..], inserted, ip, len, off);
  }

  ghost predicate Suits(src: seq<Byte>, f: Finder, maxChain: nat) {
    && f.hs == Hashes(src) && f.depth == maxChain && f.window == MAX_OFFSET && f.least == LZ_MIN_MATCH && f.most == MAX_LEN
    && f.early == 256 && f.margin == LZ_MIN_MATCH
  }

  /** What the walk finds is what was to be found near. */
  lemma SearchedHere(src: seq<Byte>, f: Finder, maxChain: nat, ht: seq<int>, ch: seq<int>, ins: seq<nat>, ip: nat, len: nat, off: nat)
    requires ip <= |src| && |ch| == CHAIN_SIZE && Keeps(src, ht, ch, ins, ip) && Suits(src, f, maxChain) && Found(src, ip, len, off)
    requires ip + 4 > |src| ==> len == 0
    requires ip + 4 <= |src| && len < 256 ==>
               BestOf(src, ip, Chain(src, ip, ht, ch, maxChain), len, LZ_MIN_MATCH, Most(ip, |src|, MAX_LEN))
    ensures Searched(src, f, ip, ins, len, off)
  {
    hide Hash, SameBytes, Visited, BestOf, Recent, MatchAt, Longest, Heads, HashChains.Links, Leads;
    if ip + 4 <= |src| {
      NearMet(f, ht, ch, ins, ip);
      if len < 256 {
        BestPrefix(src, ip, Chain(src, ip, ht, ch, maxChain), LazyLog.Near(f, ip, ins), len, LZ_MIN_MATCH, Most(ip, |src|, MAX_LEN));
      }
    }
  }

  lemma LeadsTo(src: seq<Byte>, ins: set<nat>, h: nat, ref: nat)
    requires Leads(src, ins, h, ref)
    ensures ref in ins && ref + 4 <= |src| && Hash(src, ref) == h
  {
  }

  lemma FoundOne(src: seq<Byte>, ip: nat, l: nat, dist: nat, most: nat)
    requires 4 <= l <= most <= MAX_LEN && 1 <= dist <= MAX_OFFSET && dist <= ip && ip + most <= |src| && SameBytes(src, ip, ip - dist, l)
    requires most == Most(ip, |src|, MAX_LEN) && (l < most ==> src[ip - dist + l] != src[ip + l])
    ensures Found(src, ip, l, dist)
  {
  }

  /** The length of the longest common prefix, at most `most`. */
  method Common(src: seq<Byte>, ref: nat, ip: nat, most: nat) returns (len: nat)
    requires ref < ip && ip + most <= |src|
    ensures len <= most && SameBytes(src, ip, ref, len)
    ensures len < most ==> src[ref + len] != src[ip + len]
  {
    hide SameBytes;
    len := 0;
    SameNone(src, ip, ref);
    while len < most && src[ref + len] == src[ip + len]
      invariant len <= most && SameBytes(src, ip, ref, len)
    {
      SameOne(src, ip + len, ref + len);
      SameJoin(src, ip, ref, len, 1);
      len := len + 1;
    }
  }

  /** `lz_insert_hash`. */
  method Insert(src: seq<Byte>, ip: nat, ht: array<int>, ch: array<int>)
    requires ht.Length == HASH_SIZE && ch.Length == CHAIN_SIZE && ht != ch
    modifies ht, ch
    ensures ip + 4 > |src| ==> ht[..] == old(ht[..]) && ch[..] == old(ch[..])
    ensures ip + 4 <= |src| ==> ht[..] == old(ht[..])[Hash(src, ip) := ip]
    ensures ip + 4 <= |src| ==> ch[..] == old(ch[..])[ip % CHAIN_SIZE := old(ht[Hash(src, ip)])]
  {
    if ip + 4 <= |src| {
      var h := Hash(src, ip);
      ch[ip % CHAIN_SIZE] := ht[h];
      ht[h] := ip;
    }
  }

  ghost function OwnOf(src: seq<Byte>, ip: nat): seq<nat> {
    if ip + 4 <= |src| then [ip] else []
  }

  /** Inserts a position behind all those inserted, if four bytes are left there. */
  method InsertNext(src: seq<Byte>, ip: nat, ht: array<int>, ch: array<int>, ghost ins: seq<nat>)
    requires ht.Length == HASH_SIZE && ch.Length == CHAIN_SIZE && ht != ch && Keeps(src, ht[..], ch[..], ins, ip)
    modifies ht, ch
    ensures Keeps(src, ht[..], ch[..], ins + OwnOf(src, ip), ip + 1)
  {
    hide Hash, Linked, Chained;
    if ip + 4 <= |src| {
      LinkedInsert(src, ht[..], ch[..], SetOf(ins), ip, ip);
      ChainedInsert(Hashes(src), ht[..], ch[..], ins, ip, ip);
      assert SetOf(ins + [ip]) == SetOf(ins) + {ip};
    } else {
      KeepsOn(src, ht[..], ch[..], ins, ip, ip + 1);
      assert ins + [] == ins;
    }
    Insert(src, ip, ht, ch);
  }

  lemma KeepsOn(src: seq<Byte>, ht: seq<int>, ch: seq<int>, ins: seq<nat>, lim: nat, later: nat)
    requires Keeps(src, ht, ch, ins, lim) && lim <= later
    ensures Keeps(src, ht, ch, ins, later)
  {
    LinkedLater(src, ht, ch, SetOf(ins), lim, later);
    ChainedLater(Hashes(src), ht, ch, ins, lim, later);
  }

  method InsertInside(src: seq<Byte>, start: nat, end: nat, ht: array<int>, ch: array<int>, ghost ins: seq<nat>)
    requires ht.Length == HASH_SIZE && ch.Length == CHAIN_SIZE && ht != ch && start <= end && Keeps(src, ht[..], ch[..], ins, start)
    modifies ht, ch
    ensures Keeps(src, ht[..], ch[..], ins + Range(start, if end <= |Hashes(src)| then end else |Hashes(src)|), end)
  {
    hide Keeps;
    var j := start;
    RangeNone(start);
    assert ins + [] == ins;
    while j < end && j + 4 <= |src|
      invariant start <= j <= end && (j > start ==> j + 3 <= |src|)
      invariant Keeps(src, ht[..], ch[..], ins + Range(start, j), j)
      decreases end - j
    {
      InsertNext(src, j, ht, ch, ins + Range(start, j));
      RangeNext(start, j);
      assert ins + Range(start, j) + [j] == ins + Range(start, j + 1);
      j := j + 1;
    }
    KeepsOn(src, ht[..], ch[..], ins + Range(start, j), j, end);
    RangeStops(start, end, |Hashes(src)|, j);
  }

  //////////////////////////////////////////////////////////////////////////////
  // Compressing
  //////////////////////////////////////////////////////////////////////////////

  /** The room checked for before a token is written. */
  function NeededFull(ll: nat, extra: nat): nat {
    1 + (ll / 255 + 1) + ll + 2 + (extra / 255 + 1)
  }

  function NeededLast(ll: nat): nat {
    1 + (ll / 255 + 1) + ll
  }

  lemma Fits(one: Sequence)
    ensures one.matchLen >= LZ_MIN_MATCH ==>
              |TokenBytes(one, OFFSET_BYTES, LZ_MIN_MATCH)| <= NeededFull(|one.lits|, one.matchLen - LZ_MIN_MATCH)
    ensures one.matchLen == 0 ==> |TokenBytes(one, OFFSET_BYTES, LZ_MIN_MATCH)| <= NeededLast(|one.lits|)
  {
  }

  const WLOG: nat := 16

  lemma WindowIs()
    ensures Window(WLOG) == MAX_OFFSET && OffBytes(WLOG) == OFFSET_BYTES
  {
    Pow2Small();
  }

  /** The matches so far denote the first `anchor` bytes, and `dst[..op]` holds their tokens. */
  ghost predicate Done(src: seq<Byte>, anchor: nat, seqs: seq<Sequence>, tokens: seq<Byte>) {
    && Covers(src, 0, anchor, seqs, WLOG, MAX_LEN, LZ_MIN_MATCH) && tokens == TokenStream(seqs, OFFSET_BYTES, LZ_MIN_MATCH)
    && forall i :: 0 <= i < |seqs| ==> Writable(seqs[i])
  }

  /** One more token. */
  lemma DoneNext(src: seq<Byte>, anchor: nat, seqs: seq<Sequence>, tokens: seq<Byte>, ip: nat, len: nat, off: nat)
    requires Done(src, anchor, seqs, tokens) && anchor <= ip && len > 0 && Found(src, ip, len, off) && |src| < MAX_SOURCE
    ensures ip <= |src|
    ensures var one := Sequence(src[anchor..ip], len, off);
            && Carries(one, OFFSET_BYTES, LZ_MIN_MATCH)
            && Done(src, ip + len, seqs + [one], tokens + TokenBytes(one, OFFSET_BYTES, LZ_MIN_MATCH))
  {
    hide Covers, TokenBytes, MatchAt, Window;
    WindowIs();
    MatchInside(src, ip, off, len, |src|);
    CoversMatch(src, 0, anchor, seqs, WLOG, MAX_LEN, LZ_MIN_MATCH, ip, off, len, |src|);
    StreamAppend(seqs, Sequence(src[anchor..ip], len, off), OFFSET_BYTES, LZ_MIN_MATCH);
    Pow2Small();
  }

  lemma DoneAll(src: seq<Byte>, anchor: nat, seqs: seq<Sequence>, tokens: seq<Byte>, dlen: nat)
    requires Done(src, anchor, seqs, tokens) && anchor <= |src| < MAX_SOURCE && |src| <= dlen
    ensures Decompress(tokens + TokenBytes(Sequence(src[anchor..], 0, 0), OFFSET_BYTES, LZ_MIN_MATCH), dlen) == src
  {
    hide Covers, TokenBytes, Window, Emittable, Lz.Valid, Denote, Decode, TokenStream;
    WindowIs();
    var one := Sequence(src[anchor..|src|], 0, 0);
    assert src[anchor..] == src[anchor..|src|] && src[..|src|] == src && src[..0] == [];
    CoversAll(src, 0, anchor, |src|, seqs, WLOG, MAX_LEN, LZ_MIN_MATCH);
    StreamAppend(seqs, one, OFFSET_BYTES, LZ_MIN_MATCH);
    var s := TokenStream(seqs + [one], OFFSET_BYTES, LZ_MIN_MATCH);
    assert s[0..|s|] == s;
    DecodeInverse(s, 0, seqs + [one], [], dlen);
  }

  lemma DoneNothing(src: seq<Byte>)
    ensures Done(src, 0, [], [])
  {
    CoversNothing(src, 0, WLOG, MAX_LEN, LZ_MIN_MATCH);
    NoTokens(OFFSET_BYTES, LZ_MIN_MATCH);
  }

  /** The run so far: the tokens written, what the chains hold, and the looks. */
  ghost predicate Running(src: seq<Byte>, f: Finder, ht: seq<int>, ch: seq<int>, looks: seq<Look>, m: Mark, anchor: nat,
                          seqs: seq<Sequence>, tokens: seq<Byte>) {
    && Done(src, anchor, seqs, tokens) && Keeps(src, ht, ch, m.ins, m.ip)
    && LazyLog.Log(src, f, looks) && m == Here(src, f, looks) && anchor <= m.ip
    && Sequences(src, looks) == seqs && LitStart(looks) == anchor
  }

  lemma RunningStarts(src: seq<Byte>, f: Finder, ht: seq<int>, ch: seq<int>)
    requires |ht| == HASH_SIZE && |ch| == CHAIN_SIZE && forall h :: 0 <= h < HASH_SIZE ==> ht[h] == -1
    ensures Running(src, f, ht, ch, [], START, 0, [], [])
  {
    hide Done, Linked, Chained;
    DoneNothing(src);
    LinkedNone(src, ht, ch);
    ChainedNothing(Hashes(src), ht, ch, 0);
    NoLooks(src, f);
    assert SetOf(START.ins) == {};
  }

  lemma RunningParts(src: seq<Byte>, f: Finder, ht: seq<int>, ch: seq<int>, looks: seq<Look>, m: Mark, anchor: nat, seqs: seq<Sequence>,
                     tokens: seq<Byte>)
    requires Running(src, f, ht, ch, looks, m, anchor, seqs, tokens)
    ensures Done(src, anchor, seqs, tokens) && Keeps(src, ht, ch, m.ins, m.ip) && LazyLog.Log(src, f, looks) && m == Here(src, f, looks)
    ensures Sequences(src, looks) == seqs && LitStart(looks) == anchor
  {
  }

  /** A position passed over. */
  lemma RunningLit(src: seq<Byte>, f: Finder, ht: seq<int>, ch: seq<int>, now: seq<int>, links: seq<int>, looks: seq<Look>, k: Look,
                   anchor: nat, seqs: seq<Sequence>, tokens: seq<Byte>)
    requires Running(src, f, ht, ch, looks, k.mark, anchor, seqs, tokens) && LookOkay(src, f, k) && !k.taken
    requires f.hs == Hashes(src) && Keeps(src, now, links, k.mark.ins + OwnOf(src, k.mark.ip), k.mark.ip + 1)
    ensures Running(src, f, now, links, looks + [k], MarkAfter(src, f, k), anchor, seqs, tokens)
  {
    hide Done, Keeps, Searched, LazyLog.Log, Here;
    OneMore(src, f, looks, k);
    SequencesMore(src, looks, k);
  }

  /** A match taken. */
  lemma RunningMatch(src: seq<Byte>, f: Finder, ht: seq<int>, ch: seq<int>, now: seq<int>, links: seq<int>, looks: seq<Look>, k: Look,
                     anchor: nat, seqs: seq<Sequence>, tokens: seq<Byte>, more: seq<Byte>)
    requires Running(src, f, ht, ch, looks, k.mark, anchor, seqs, tokens) && LookOkay(src, f, k) && k.taken && anchor <= k.mark.ip
    requires Keeps(src, now, links, MarkAfter(src, f, k).ins, k.mark.ip + k.len)
    requires Done(src, k.mark.ip + k.len, seqs + [Sequence(src[anchor..k.mark.ip], k.len, k.dist)], more)
    ensures Running(src, f, now, links, looks + [k], MarkAfter(src, f, k), k.mark.ip + k.len,
                    seqs + [Sequence(src[anchor..k.mark.ip], k.len, k.dist)], more)
  {
    hide Done, Keeps, Searched, LazyLog.Log, Here, Behind, Own;
    OneMore(src, f, looks, k);
    SequencesMore(src, looks, k);
  }

  lemma SuitsMeans(src: seq<Byte>, f: Finder, maxChain: nat, ip: nat)
    requires Suits(src, f, maxChain)
    ensures f.hs == Hashes(src) && f.margin == LZ_MIN_MATCH && Own(f, ip) == OwnOf(src, ip)
  {
  }

  lemma LookedAhead(src: seq<Byte>, f: Finder, k: Look)
    requires f.steps == 1 && f.margin == LZ_MIN_MATCH && k.mark.passed == 0 && k.len > 0 && k.mark.ip + 1 + LZ_MIN_MATCH <= |src|
    requires Searched(src, f, k.mark.ip, k.mark.ins, k.len, k.dist)
    requires Searched(src, f, k.mark.ip + 1, k.mark.ins + Own(f, k.mark.ip), k.ahead, k.aheadDist)
    requires k.taken <==> k.ahead <= k.len + 1
    ensures LookOkay(src, f, k) && Further(src, f, k)
  {
    hide Searched, Own;
  }

  /** The position behind is not looked ahead from. */
  lemma ShiftedHere(src: seq<Byte>, f: Finder, k: Look)
    requires LookOkay(src, f, k) && Further(src, f, k) && !k.taken && f.steps == 1 && k.mark.passed == 0 && k.mark.ip + 1 < |src|
    ensures var m, now := MarkAfter(src, f, k), Look(MarkAfter(src, f, k), k.ahead, k.aheadDist, 0, 0, true);
            && m == Mark(k.mark.ip + 1, k.mark.ins + Own(f, k.mark.ip), 1, k.ahead, k.aheadDist)
            && LookOkay(src, f, now) && !Further(src, f, now)
  {
    hide Searched, Own;
  }

  /** Looks one position ahead for a match that is longer by two or more; then the position is passed over. */
  method Lazy(src: seq<Byte>, ip0: nat, len0: nat, off0: nat, ht: array<int>, ch: array<int>, maxChain: nat, ghost f: Finder,
              ghost looks0: seq<Look>, ghost m0: Mark, ghost anchor: nat, ghost seqs: seq<Sequence>, ghost tokens: seq<Byte>)
    returns (ip: nat, len: nat, off: nat, ghost looks: seq<Look>, ghost k: Look)
    requires ht.Length == HASH_SIZE && ch.Length == CHAIN_SIZE && ht != ch && Suits(src, f, maxChain) && f.steps == 1
    requires Running(src, f, ht[..], ch[..], looks0, m0, anchor, seqs, tokens) && m0.ip == ip0 && m0.passed == 0
    requires len0 > 0 && ip0 + 1 + LZ_MIN_MATCH <= |src| && Found(src, ip0, len0, off0) && Searched(src, f, ip0, m0.ins, len0, off0)
    modifies ht, ch
    ensures ip0 <= ip <= ip0 + 1 && len > 0 && Found(src, ip, len, off)
    ensures k.mark.ip == ip && k.len == len && k.dist == off && k.taken && LookOkay(src, f, k)
    ensures exists hs, ls :: Running(src, f, hs, ls, looks, k.mark, anchor, seqs, tokens)
    ensures Keeps(src, ht[..], ch[..], if Further(src, f, k) then k.mark.ins + OwnOf(src, ip) else k.mark.ins, ip0 + 1)
    ensures ip == ip0 ==> Further(src, f, k)
  {
    hide Running, Found, Keeps, Searched, LookOkay, MarkAfter, Further, Suits;
    ip, len, off, looks := ip0, len0, off0, looks0;
    ghost var hs, ls := ht[..], ch[..];
    RunningParts(src, f, hs, ls, looks, m0, anchor, seqs, tokens);
    InsertNext(src, ip, ht, ch, m0.ins);
    SuitsMeans(src, f, maxChain, ip);
    var len2, off2 := FindMatch(src, ip + 1, ht, ch, maxChain, m0.ins + OwnOf(src, ip), f);
    k := Look(m0, len, off, len2, off2, len2 <= len + 1);
    LookedAhead(src, f, k);
    if len2 > len + 1 {
      ShiftedHere(src, f, k);
      RunningLit(src, f, hs, ls, ht[..], ch[..], looks, k, anchor, seqs, tokens);
      FoundInside(src, ip + 1, len2, off2);
      looks := looks + [k];
      ip, len, off := ip + 1, len2, off2;
      k := Look(MarkAfter(src, f, k), len, off, 0, 0, true);
      return;
    }
  }

  /** `zupt_lz_bound`. */
  function Bound(n: nat): nat {
    n + n / 255 + 32
  }

  /** Tokens for `anchor` bytes take at most one byte in 255 more, as each match saves the byte its literals' length
      may cost; and the room asked for before a token is written is little more. */
  lemma TokenRoom(one: Sequence, op: nat, anchor: nat)
    requires one.matchLen > LZ_MIN_MATCH && op <= anchor + anchor / 255
    ensures var next := anchor + |one.lits| + one.matchLen;
            && op + |TokenBytes(one, OFFSET_BYTES, LZ_MIN_MATCH)| <= next + next / 255
            && op + NeededFull(|one.lits|, one.matchLen - LZ_MIN_MATCH) <= next + next / 255 + 2
  {
    var ll, ml := |one.lits|, one.matchLen;
    assert |TokenBytes(one, OFFSET_BYTES, LZ_MIN_MATCH)| ==
           1 + |ExtensionBytes(ll)| + ll + 2 + |ExtensionBytes(ml - LZ_MIN_MATCH)|;
    assert anchor / 255 + ll / 255 <= (anchor + ll) / 255 <= (anchor + ll + ml) / 255;
  }

  lemma BoundGrows(a: nat, b: nat)
    requires a <= b
    ensures a + a / 255 + 2 <= Bound(b)
  {
  }

  lemma LastRoom(op: nat, anchor: nat, n: nat)
    requires op <= anchor + anchor / 255 && anchor <= n
    ensures op + NeededLast(n - anchor) <= Bound(n)
  {
    assert anchor / 255 + (n - anchor) / 255 <= n / 255;
  }

  /** The token of one match. */
  method PutMatch(src: seq<Byte>, dst: array<Byte>, op: nat, anchor: nat, ip: nat, len: nat, off: nat, ghost seqs: seq<Sequence>)
    returns (ok: bool, next: nat)
    requires anchor <= ip && len > 0 && Found(src, ip, len, off) && |src| < MAX_SOURCE
    requires op <= dst.Length && op <= anchor + anchor / 255 && Done(src, anchor, seqs, dst[..op])
    modifies dst
    ensures ip + len <= |src| && (Bound(|src|) <= dst.Length ==> ok)
    ensures !ok ==> len >= LZ_MIN_MATCH && op + NeededFull(ip - anchor, len - LZ_MIN_MATCH) > dst.Length
    ensures ok ==> next <= dst.Length && next <= ip + len + (ip + len) / 255
    ensures ok ==> Done(src, ip + len, seqs + [Sequence(src[anchor..ip], len, off)], dst[..next])
  {
    hide Done, Found, TokenBytes, NeededFull, Carries, Bound;
    DoneNext(src, anchor, seqs, dst[..op], ip, len, off);
    FoundInside(src, ip, len, off);
    ghost var one := Sequence(src[anchor..ip], len, off);
    TokenRoom(one, op, anchor);
    BoundGrows(ip + len, |src|);
    next := op;
    if op + NeededFull(ip - anchor, len - LZ_MIN_MATCH) > dst.Length {
      return false, op;
    }
    Fits(one);
    next := EmitToken(dst, op, src[anchor..ip], len, off, OFFSET_BYTES, LZ_MIN_MATCH);
    ok := true;
  }

  /** The match to take: the one found, or, for a lazy level, the one behind it. */
  method Decide(src: seq<Byte>, ip0: nat, len0: nat, off0: nat, ht: array<int>, ch: array<int>, lazy: bool, maxChain: nat, ghost f: Finder,
                ghost looks0: seq<Look>, ghost m0: Mark, ghost anchor: nat, ghost seqs: seq<Sequence>, ghost tokens: seq<Byte>)
    returns (ip: nat, len: nat, off: nat, ghost looks: seq<Look>, ghost k: Look)
    requires ht.Length == HASH_SIZE && ch.Length == CHAIN_SIZE && ht != ch
    requires Suits(src, f, maxChain) && f.steps == (if lazy then 1 else 0) && ip0 < |src|
    requires Running(src, f, ht[..], ch[..], looks0, m0, anchor, seqs, tokens) && m0.ip == ip0 && m0.passed == 0
    requires len0 > 0 && Found(src, ip0, len0, off0) && Searched(src, f, ip0, m0.ins, len0, off0)
    modifies ht, ch
    ensures ip0 <= ip <= ip0 + 1 && len > 0 && Found(src, ip, len, off)
    ensures k.mark.ip == ip && k.len == len && k.dist == off && k.taken && LookOkay(src, f, k)
    ensures exists hs, ls :: Running(src, f, hs, ls, looks, k.mark, anchor, seqs, tokens)
    ensures Keeps(src, ht[..], ch[..], if Further(src, f, k) then k.mark.ins + OwnOf(src, ip) else k.mark.ins, if lazy then ip0 + 1 else ip)
  {
    hide Running, Found, Keeps, Searched, LookOkay, Further, Suits;
    if lazy && ip0 + 1 + LZ_MIN_MATCH <= |src| {
      ip, len, off, looks, k := Lazy(src, ip0, len0, off0, ht, ch, maxChain, f, looks0, m0, anchor, seqs, tokens);
      return;
    }
    ip, len, off, looks := ip0, len0, off0, looks0;
    RunningParts(src, f, ht[..], ch[..], looks, m0, anchor, seqs, tokens);
    SuitsMeans(src, f, maxChain, ip);
    k := Look(m0, len, off, 0, 0, true);
    TakenHere(src, f, k);
    KeepsOn(src, ht[..], ch[..], m0.ins, ip, ip + 1);
  }

  /** A match: looked ahead from, written, and its positions inserted. */
  method Turn(src: seq<Byte>, dst: array<Byte>, ht: array<int>, ch: array<int>, ip0: nat, op: nat, anchor: nat, len0: nat, off0: nat,
              lazy: bool, maxChain: nat, ghost f: Finder, ghost looks0: seq<Look>, ghost m0: Mark, ghost seqs: seq<Sequence>)
    returns (ok: bool, ip: nat, next: nat, ghost one: Sequence, ghost looks: seq<Look>, ghost m: Mark)
    requires ht.Length == HASH_SIZE && ch.Length == CHAIN_SIZE && ht != ch && ht != dst as object && ch != dst as object
    requires Suits(src, f, maxChain) && f.steps == (if lazy then 1 else 0) && ip0 < |src| && op <= dst.Length
    requires Running(src, f, ht[..], ch[..], looks0, m0, anchor, seqs, dst[..op]) && m0.ip == ip0 && m0.passed == 0
    requires len0 > 0 && Found(src, ip0, len0, off0) && Searched(src, f, ip0, m0.ins, len0, off0) && |src| < MAX_SOURCE
    requires anchor <= ip0 && op <= anchor + anchor / 255
    modifies dst, ht, ch
    ensures Bound(|src|) <= dst.Length ==> ok
    ensures ok ==> ip0 < ip <= |src| && next <= dst.Length && next <= ip + ip / 255 && m.ip == ip && m.passed == 0
    ensures ok ==> Running(src, f, ht[..], ch[..], looks, m, ip, seqs + [one], dst[..next])
    ensures !ok ==> LazyLog.Log(src, f, looks) && NoSpace(src, looks, dst.Length)
  {
    hide Done, Found, Keeps, Searched, Running, Bound, NoSpace, LookOkay, MarkAfter;
    var len, off;
    ghost var k;
    ip, len, off, looks, k := Decide(src, ip0, len0, off0, ht, ch, lazy, maxChain, f, looks0, m0, anchor, seqs, dst[..op]);
    ghost var hs, ls :| Running(src, f, hs, ls, looks, k.mark, anchor, seqs, dst[..op]);
    FoundInside(src, ip, len, off);
    one := Sequence(src[anchor..ip], len, off);
    RunningParts(src, f, hs, ls, looks, k.mark, anchor, seqs, dst[..op]);
    ghost var was := dst[..op];
    ok, next := PutMatch(src, dst, op, anchor, ip, len, off, seqs);
    if !ok {
      OneMore(src, f, looks, k);
      NoSpaceFor(src, looks, k, dst.Length, seqs, anchor, was);
      looks, m := looks + [k], k.mark;
      return;
    }
    InsertAll(src, ip, len, ht, ch, lazy, f, k, ip0 + 1);
    RunningMatch(src, f, hs, ls, ht[..], ch[..], looks, k, anchor, seqs, was, dst[..next]);
    looks, m := looks + [k], MarkAfter(src, f, k);
    AfterTaken(src, f, k);
    ip := ip + len;
  }

  lemma TakenHere(src: seq<Byte>, f: Finder, k: Look)
    requires k.mark.ip < |src| && k.mark.passed == 0 && k.len > 0 && k.taken && Searched(src, f, k.mark.ip, k.mark.ins, k.len, k.dist)
    requires f.steps == 0 || k.mark.ip + f.margin >= |src|
    ensures LookOkay(src, f, k) && !Further(src, f, k)
  {
    hide Searched;
  }

  lemma AfterTaken(src: seq<Byte>, f: Finder, k: Look)
    requires k.taken
    ensures MarkAfter(src, f, k).ip == k.mark.ip + k.len && MarkAfter(src, f, k).passed == 0
  {
  }

  /** The positions of a match: the first, unless it was inserted on looking ahead or not looked ahead from; and those
      behind it. */
  method InsertAll(src: seq<Byte>, ip: nat, len: nat, ht: array<int>, ch: array<int>, lazy: bool, ghost f: Finder, ghost k: Look, ghost lim: nat)
    requires ht.Length == HASH_SIZE && ch.Length == CHAIN_SIZE && ht != ch && k.mark.ip == ip && k.len == len > 0 && k.taken
    requires f.hs == Hashes(src) && f.steps == (if lazy then 1 else 0) && lim <= ip + 1
    requires Keeps(src, ht[..], ch[..], if Further(src, f, k) then k.mark.ins + OwnOf(src, ip) else k.mark.ins, if lazy then lim else ip)
    modifies ht, ch
    ensures Keeps(src, ht[..], ch[..], MarkAfter(src, f, k).ins, ip + len)
  {
    hide Keeps, Range;
    ghost var own := if f.steps == 0 || Further(src, f, k) then k.mark.ins + Own(f, ip) else k.mark.ins;
    assert Own(f, ip) == OwnOf(src, ip);
    assert k.mark.ins + [] == k.mark.ins;
    if !lazy {
      InsertNext(src, ip, ht, ch, k.mark.ins);
    } else {
      KeepsOn(src, ht[..], ch[..], own, lim, ip + 1);
    }
    InsertInside(src, ip + 1, ip + len, ht, ch, own);
  }

  /** Why nothing is returned: there was no room for the last match taken, or for the last literals. */
  ghost predicate NoSpace(src: seq<Byte>, looks: seq<Look>, room: nat) {
    if looks != [] && looks[|looks| - 1].taken && Squeezed(src, looks[..|looks| - 1], looks[|looks| - 1], room) then true
    else
      LitStart(looks) <= |src| &&
      |TokenStream(Sequences(src, looks), OFFSET_BYTES, LZ_MIN_MATCH)| + NeededLast(|src| - LitStart(looks)) > room
  }

  ghost predicate Squeezed(src: seq<Byte>, looks: seq<Look>, k: Look, room: nat) {
    && LitStart(looks) <= k.mark.ip && k.len >= LZ_MIN_MATCH
    && |TokenStream(Sequences(src, looks), OFFSET_BYTES, LZ_MIN_MATCH)| + NeededFull(k.mark.ip - LitStart(looks), k.len - LZ_MIN_MATCH) > room
  }

  lemma NoSpaceFor(src: seq<Byte>, looks: seq<Look>, k: Look, room: nat, seqs: seq<Sequence>, anchor: nat, tokens: seq<Byte>)
    requires k.taken && k.len >= LZ_MIN_MATCH && anchor <= k.mark.ip && Sequences(src, looks) == seqs && LitStart(looks) == anchor
    requires Done(src, anchor, seqs, tokens) && |tokens| + NeededFull(k.mark.ip - anchor, k.len - LZ_MIN_MATCH) > room
    ensures NoSpace(src, looks + [k], room)
  {
    hide Covers, TokenStream, Sequences, LitStart;
    assert (looks + [k])[..|looks|] == looks;
  }

  /** The whole run: the tokens of its sequences and of the last literals. */
  ghost predicate Whole(src: seq<Byte>, f: Finder, looks: seq<Look>, tokens: seq<Byte>) {
    && Here(src, f, looks).ip + LZ_MIN_MATCH > |src| && LitStart(looks) <= |src|
    && tokens == TokenStream(Sequences(src, looks) + [Sequence(src[LitStart(looks)..], 0, 0)], OFFSET_BYTES, LZ_MIN_MATCH)
  }

  /** `zupt_lz_compress`. What it returns decompresses to the source in any buffer that can hold it: the tokens of what the
      looks took, and a position is passed over only where nothing near shares three bytes, or for a longer match behind
      it. It returns 0 only for the empty source or where there is no room, of which `zupt_lz_bound` bytes are enough. */
  method Compress(src: seq<Byte>, dst: array<Byte>, level: int) returns (n: nat, ghost looks: seq<Look>)
    requires |src| < MAX_SOURCE
    modifies dst
    ensures n <= dst.Length && (src == [] ==> n == 0)
    ensures src != [] && Bound(|src|) <= dst.Length ==> n > 0
    ensures n > 0 ==> forall dlen: nat :: dlen >= |src| ==> Decompress(dst[..n], dlen) == src
    ensures LazyLog.Log(src, FinderOf(src, level), looks)
    ensures n > 0 ==> Whole(src, FinderOf(src, level), looks, dst[..n])
    ensures src != [] && n == 0 ==> NoSpace(src, looks, dst.Length)
  {
    hide Done, Found, Keeps, Searched, Running, Bound, NoSpace, Decompress, LookOkay, MarkAfter, Whole, LazyLog.Log;
    looks := [];
    ghost var f := FinderOf(src, level);
    NoLooks(src, f);
    if |src| == 0 {
      return 0, [];
    }
    var lv := LevelOf(level);
    var maxChain := 4 + lv * lv * 3;
    var lazy := lv >= 3;
    var ht := new int[HASH_SIZE](_ => -1);
    var ch := new int[CHAIN_SIZE](_ => 0);
    var ip: nat, op: nat, anchor: nat := 0, 0, 0;
    ghost var seqs: seq<Sequence>, m := [], START;
    RunningStarts(src, f, ht[..], ch[..]);
    assert dst[..0] == [];
    while ip + LZ_MIN_MATCH <= |src|
      invariant anchor <= ip <= |src| && op <= dst.Length && fresh(ht) && fresh(ch)
      invariant Running(src, f, ht[..], ch[..], looks, m, anchor, seqs, dst[..op]) && m.ip == ip && m.passed == 0
      invariant op <= anchor + anchor / 255
      decreases |src| - ip
    {
      RunningParts(src, f, ht[..], ch[..], looks, m, anchor, seqs, dst[..op]);
      var len, off := FindMatch(src, ip, ht, ch, maxChain, m.ins, f);
      if len == 0 {
        ghost var k, hs, ls := Look(m, 0, 0, 0, 0, false), ht[..], ch[..];
        PassedHere(src, f, k, off);
        InsertNext(src, ip, ht, ch, m.ins);
        RunningLit(src, f, hs, ls, ht[..], ch[..], looks, k, anchor, seqs, dst[..op]);
        looks, m := looks + [k], MarkAfter(src, f, k);
        ip := ip + 1;
        continue;
      }
      var ok;
      ghost var one;
      ok, ip, op, one, looks, m := Turn(src, dst, ht, ch, ip, op, anchor, len, off, lazy, maxChain, f, looks, m, seqs);
      if !ok {
        return 0, looks;
      }
      anchor := ip;
      seqs := seqs + [one];
    }
    RunningParts(src, f, ht[..], ch[..], looks, m, anchor, seqs, dst[..op]);
    n := LastLiterals(src, dst, op, anchor, f, looks, seqs);
  }

  lemma PassedHere(src: seq<Byte>, f: Finder, k: Look, off: nat)
    requires k.mark.ip < |src| && k.mark.passed == 0 && k.len == 0 == k.dist && !k.taken && Searched(src, f, k.mark.ip, k.mark.ins, 0, off)
    ensures LookOkay(src, f, k) && MarkAfter(src, f, k).ip == k.mark.ip + 1 && MarkAfter(src, f, k).passed == 0
  {
  }

  /** The last literals. */
  method LastLiterals(src: seq<Byte>, dst: array<Byte>, op: nat, anchor: nat, ghost f: Finder, ghost looks: seq<Look>, ghost seqs: seq<Sequence>)
    returns (n: nat)
    requires anchor <= |src| < MAX_SOURCE && op <= dst.Length && op <= anchor + anchor / 255 && Done(src, anchor, seqs, dst[..op])
    requires Sequences(src, looks) == seqs && LitStart(looks) == anchor && Here(src, f, looks).ip + LZ_MIN_MATCH > |src|
    modifies dst
    ensures n <= dst.Length && (Bound(|src|) <= dst.Length ==> n > 0)
    ensures n > 0 ==> Whole(src, f, looks, dst[..n]) && forall dlen: nat :: dlen >= |src| ==> Decompress(dst[..n], dlen) == src
    ensures n == 0 ==> NoSpace(src, looks, dst.Length)
  {
    hide Covers, TokenBytes, NeededFull, NeededLast, Decompress, Carries, Bound, TokenStream, Sequences, LitStart, Here;
    LastRoom(op, anchor, |src|);
    if op + NeededLast(|src| - anchor) > dst.Length {
      return 0;
    }
    ghost var one, tokens := Sequence(src[anchor..], 0, 0), dst[..op];
    Fits(one);
    SomeBytes(one, OFFSET_BYTES, LZ_MIN_MATCH);
    n := EmitToken(dst, op, src[anchor..], 0, 0, OFFSET_BYTES, LZ_MIN_MATCH);
    StreamAppend(seqs, one, OFFSET_BYTES, LZ_MIN_MATCH);
    forall dlen: nat | dlen >= |src|
      ensures Decompress(dst[..n], dlen) == src
    {
      DoneAll(src, anchor, seqs, tokens, dlen);
    }
  }

  lemma FoundInside(src: seq<Byte>, ip: nat, len: nat, off: nat)
    requires Found(src, ip, len, off) && len > 0
    ensures ip + len <= |src| && len > LZ_MIN_MATCH
  {
  }

  //////////////////////////////////////////////////////////////////////////////
  // Decompressing
  //////////////////////////////////////////////////////////////////////////////

  /** `lz_read_extra`. */
  method ReadMore(s: seq<Byte>, pos: nat, init: nat) returns (r: Length)
    requires pos <= |s|
    ensures r == ReadExtra(s, pos, init)
  {
    var p, t := pos, init;
    while p < |s|
      invariant pos <= p <= |s| && ReadExtra(s, p, t) == ReadExtra(s, pos, init)
      decreases |s| - p
    {
      if t > 0xFFFF_FFFF - 255 {
        return TooBig;
      }
      if s[p] < 255 {
        return Length(t + s[p], p + 1);
      }
      t, p := t + 255, p + 1;
    }
    r := Length(t, p);
  }

  method TakeLen(s: seq<Byte>, pos: nat, nibble: nat, base: nat) returns (r: Length)
    requires pos <= |s|
    ensures r == ReadLen(s, pos, nibble, base)
  {
    hide ReadExtra;
    if nibble == 15 {
      r := ReadMore(s, pos, base + 15);
    } else {
      r := Length(base + nibble, pos);
    }
  }

  /** `zupt_lz_decompress`, into the first `dlen` bytes of `dst`. */
  method DecompressInto(s: seq<Byte>, dst: array<Byte>, dlen: nat) returns (n: nat)
    requires dlen <= dst.Length
    modifies dst
    ensures n <= dlen && dst[..n] == Decompress(s, dlen)
  {
    hide Decode, ReadLen, LittleEndian, Copy;
    var ip, op: nat := 0, 0;
    assert dst[..0] == [];
    while ip < |s|
      invariant ip <= |s| && op <= dlen && Decode(s, 0, [], dlen) == Decode(s, ip, dst[..op], dlen)
      decreases |s| - ip
    {
      DecodeStep(s, ip, dst[..op], dlen);
      ghost var out := dst[..op];
      var token := s[ip];
      var lit := TakeLen(s, ip + 1, token / 16, 0);
      if lit.TooBig? || lit.next + lit.total > |s| || op + lit.total > dlen {
        return 0;
      }
      var p2 := lit.next + lit.total;
      op := WriteBytes(dst, op, s[lit.next..p2]);
      if p2 >= |s| {
        return op;
      }
      if p2 + 2 > |s| {
        return 0;
      }
      var offset := LittleEndian(s, p2, 2);
      if offset == 0 || offset > op {
        return 0;
      }
      var ml := TakeLen(s, p2 + 2, token % 16, LZ_MIN_MATCH);
      if ml.TooBig? || op + ml.total > dlen {
        return 0;
      }
      Copies.CopyBytes(dst, op, offset, ml.total);
      op := op + ml.total;
      ip := ml.next;
    }
    DecodeEnd(s, ip, dst[..op], dlen);
    n := op;
  }

  lemma DecodeEnd(s: seq<Byte>, p: nat, out: seq<Byte>, cap: nat)
    requires p >= |s| && |out| <= cap
    ensures Decode(s, p, out, cap) == Decoded(out)
  {
  }

  lemma DecodeStep(s: seq<Byte>, p: nat, out: seq<Byte>, cap: nat)
    requires p < |s| && |out| <= cap
    ensures Decode(s, p, out, cap) ==
            match ReadLen(s, p + 1, s[p] / 16, 0)
            case TooBig => Faulty
            case Length(ll, p1) =>
              if p1 + ll > |s| || |out| + ll > cap then Faulty
              else
                var out1, p2 := out + s[p1..p1 + ll], p1 + ll;
                if p2 >= |s| then Decoded(out1)
                else if p2 + 2 > |s| then Faulty
                else
                  var offset := LittleEndian(s, p2, 2);
                  if offset == 0 || offset > |out1| then Faulty
                  else
                    match ReadLen(s, p2 + 2, s[p] % 16, LZ_MIN_MATCH)
                    case TooBig => Faulty
                    case Length(ml, p3) =>
                      if |out1| + ml > cap then Faulty else Decode(s, p3, Copy(out1, offset, ml), cap)
  {
  }
}
