/** Parsing for src/zupt_lzh.c: level settings (80-106), match finding over hash chains (446-502) and the
    lazy parser (553-622). Every suggestion of the chains is checked, and they suggest what was inserted last. */
module LzhMatch {
  import opened Bytes
  import opened HashChains
  import opened LazyLog
  import opened Lz
  import opened LzhSyms
  import opened MatchFinder

  const HASH_SIZE: nat := 0x10_0000

  datatype Config = Config(win: nat, maxChain: nat, lazyDepth: nat, minMatch: nat)

  /** `lzh_config`, with the level forced into 1..9. */
  function ConfigFor(level: int): (c: Config)
    ensures 0 < c.win <= MAX_DISTANCE && MIN_MATCH <= c.minMatch <= 4
  {
    if level <= 1 then Config(65536, 12, 0, 4)
    else if level == 2 then Config(131072, 24, 1, 4)
    else if level == 3 then Config(131072, 48, 1, 3)
    else if level == 4 then Config(262144, 96, 2, 3)
    else if level == 5 then Config(524288, 160, 2, 3)
    else if level == 6 then Config(524288, 256, 3, 3)
    else if level == 7 then Config(1048576, 384, 3, 3)
    else if level == 8 then Config(1048576, 512, 4, 3)
    else Config(1048576, 768, 5, 3)
  }

  /** `lzh_hash`, 20 bits. */
  function Hash(src: seq<Byte>, p: nat): (h: nat)
    requires p + 4 <= |src|
    ensures h < HASH_SIZE
  {
    LittleEndian(src, p, 4) * 2654435761 % 0x1_0000_0000 / 0x1000
  }

  /** The length of the longest common prefix, at most `most`: words of eight bytes, then bytes. */
  method CommonLength(src: seq<Byte>, ref: nat, ip: nat, most: nat) returns (len: nat)
    requires ref < ip && ip + most <= |src|
    ensures len <= most && SameBytes(src, ip, ref, len)
    ensures len < most ==> src[ref + len] != src[ip + len]
  {
    hide SameBytes;
    len := 0;
    SameNone(src, ip, ref);
    while len + 8 <= most && src[ref + len..ref + len + 8] == src[ip + len..ip + len + 8]
      invariant len <= most && SameBytes(src, ip, ref, len)
    {
      SameWord(src, ip + len, ref + len);
      SameJoin(src, ip, ref, len, 8);
      len := len + 8;
    }
    while len < most && src[ref + len] == src[ip + len]
      invariant len <= most && SameBytes(src, ip, ref, len)
    {
      SameOne(src, ip + len, ref + len);
      SameJoin(src, ip, ref, len, 1);
      len := len + 1;
    }
  }

  lemma SameWord(src: seq<Byte>, a: nat, b: nat)
    requires a + 8 <= |src| && b + 8 <= |src| && src[b..b + 8] == src[a..a + 8]
    ensures SameBytes(src, a, b, 8)
  {
  }

  /** No match, or a match the decoder can copy. */
  ghost predicate Found(src: seq<Byte>, ip: nat, cfg: Config, len: nat, dist: nat) {
    len > 0 ==>
      && cfg.minMatch <= len <= MAX_MATCH && dist <= cfg.win && MatchAt(src, ip, dist, len, |src|)
      && Full(src, ip, dist, len, |src|, MAX_MATCH)
  }

  ghost function Hashes(src: seq<Byte>): (hs: seq<nat>)
    ensures |hs| == if |src| < 4 then 0 else |src| - 3
    ensures forall p :: 0 <= p < |hs| ==> hs[p] == Hash(src, p)
  {
    seq(if |src| < 4 then 0 else |src| - 3, (p: nat) requires p + 4 <= |src| => Hash(src, p))
  }

  /** What the parser searches with. */
  ghost function FinderOf(src: seq<Byte>, cfg: Config): Finder {
    Finder(Hashes(src), cfg.maxChain, cfg.win, cfg.minMatch, MAX_MATCH, 512, if cfg.lazyDepth > 3 then 3 else cfg.lazyDepth, 1)
  }

  /** The chains hold the positions inserted. */
  ghost predicate Keeps(src: seq<Byte>, ht: seq<int>, ch: seq<int>, ins: seq<nat>, lim: nat) {
    |ht| == HASH_SIZE && Chained(Hashes(src), ht, ch, ins, lim)
  }

  /** The positions `find_match` walks. */
  ghost function Chain(src: seq<Byte>, ip: nat, ht: seq<int>, ch: seq<int>, cfg: Config): seq<nat>
    requires ip + 4 <= |src| && |ht| == HASH_SIZE && ch != []
  {
    Visited(ch, ht[Hash(src, ip)], -1, cfg.maxChain, if ip <= cfg.win then 0 else ip - cfg.win, ip)
  }

  /** Compares at one position, its far end and two first bytes first: more than `best` bytes, if there are any. */
  method Probe(src: seq<Byte>, ip: nat, ref: nat, len: nat, best: nat, cfg: Config, most: nat) returns (l: nat)
    requires ref < ip <= ref + cfg.win && ip + 4 <= |src| && most == Most(ip, |src|, MAX_MATCH) && cfg.minMatch >= MIN_MATCH
    requires best == if len == 0 then cfg.minMatch - 1 else len
    requires len == 0 || len >= cfg.minMatch
    ensures l > best ==> Found(src, ip, cfg, l, ip - ref)
    ensures !Beaten(src, ip, ref, if l > best then l else len, cfg.minMatch, most)
  {
    hide SameBytes, MatchAt, Beaten;
    l := 0;
    if best < |src| - ip && src[ref + best] == src[ip + best] && src[ref] == src[ip] && src[ref + 1] == src[ip + 1] {
      l := CommonLength(src, ref, ip, most);
      if l > best {
        FoundOne(src, ip, cfg, l, ip - ref, most);
        AsFarAsItGoes(src, ip, ref, l, cfg.minMatch, most);
      } else {
        Unequal(src, ip, ref, len, cfg.minMatch, best, l, most);
      }
    } else {
      var k := if best < |src| - ip && src[ref + best] != src[ip + best] then best else if src[ref] != src[ip] then 0 else 1;
      Unequal(src, ip, ref, len, cfg.minMatch, best, k, most);
    }
  }

  /** `find_match`: the longest match on one chain, unless one of 512 bytes ends the walk. */
  method FindMatch(src: seq<Byte>, ip: nat, ht: array<int>, ch: array<int>, cfg: Config, ghost ins: seq<nat>)
    returns (len: nat, dist: nat)
    requires ip <= |src| && ht.Length == HASH_SIZE && ch.Length == cfg.win > 0 && cfg.minMatch >= MIN_MATCH
    requires Keeps(src, ht[..], ch[..], ins, ip)
    ensures Found(src, ip, cfg, len, dist) && Searched(src, FinderOf(src, cfg), ip, ins, len, dist)
    ensures ip + 4 <= |src| && len < 512 ==>
              BestOf(src, ip, Chain(src, ip, ht[..], ch[..], cfg), len, cfg.minMatch, Most(ip, |src|, MAX_MATCH))
  {
    hide Hash, SameBytes, MatchAt, Visited, BestOf, Beaten, Found, Keeps, Searched;
    len, dist := 0, 0;
    NotFound(src, ip, cfg);
    if ip + 4 > |src| {
      SearchedHere(src, cfg, ht[..], ch[..], ins, ip, len, dist);
      return;
    }
    var best: nat := cfg.minMatch - 1;
    var cnt := 0;
    var ref := ht[Hash(src, ip)];
    var most := if |src| - ip > MAX_MATCH then MAX_MATCH else |src| - ip;
    ghost var limit, seen: seq<nat> := if ip <= cfg.win then 0 else ip - cfg.win, [];
    ghost var all := Chain(src, ip, ht[..], ch[..], cfg);
    NoneSeen(src, ip, cfg.minMatch, most);
    while ref >= 0 && cnt < cfg.maxChain
      invariant Found(src, ip, cfg, len, dist) && best == (if len == 0 then cfg.minMatch - 1 else len)
      invariant len == 0 || len >= cfg.minMatch
      invariant cnt <= cfg.maxChain && all == seen + Visited(ch[..], ref, -1, cfg.maxChain - cnt, limit, ip)
      invariant BestOf(src, ip, seen, len, cfg.minMatch, most)
      decreases cfg.maxChain - cnt
    {
      var d := ip - ref;
      if d < 0 || d > cfg.win || d == 0 {
        break;
      }
      VisitedOne(ch[..], ref, -1, cfg.maxChain - cnt, limit, ip);
      var l := Probe(src, ip, ref, len, best, cfg, most);
      BestNext(src, ip, seen, len, if l > best then l else len, cfg.minMatch, most, ref);
      if l > best {
        best, len, dist := l, l, d;
        if l >= MAX_MATCH || (l >= 512 && cnt > cfg.maxChain / 4) {
          SearchedHere(src, cfg, ht[..], ch[..], ins, ip, len, dist);
          return;
        }
      }
      seen, ref := seen + [ref], ch[ref % cfg.win];
      cnt := cnt + 1;
    }
    VisitedDone(ch[..], ref, -1, cfg.maxChain - cnt, limit, ip);
    assert seen + [] == seen;
    SearchedHere(src, cfg, ht[..], ch[..], ins, ip, len, dist);
  }

  /** What the walk finds is what was to be found near. */
  lemma SearchedHere(src: seq<Byte>, cfg: Config, ht: seq<int>, ch: seq<int>, ins: seq<nat>, ip: nat, len: nat, dist: nat)
    requires ip <= |src| && |ch| == cfg.win > 0 && Keeps(src, ht, ch, ins, ip) && Found(src, ip, cfg, len, dist)
    requires ip + 4 > |src| ==> len == 0
    requires ip + 4 <= |src| && len < 512 ==>
               BestOf(src, ip, Chain(src, ip, ht, ch, cfg), len, cfg.minMatch, Most(ip, |src|, MAX_MATCH))
    ensures Searched(src, FinderOf(src, cfg), ip, ins, len, dist)
  {
    hide Hash, SameBytes, Visited, BestOf, Recent, MatchAt, Longest, Heads, Links;
    var f := FinderOf(src, cfg);
    if ip + 4 <= |src| {
      NearMet(f, ht, ch, ins, ip);
      if len < 512 {
        BestPrefix(src, ip, Chain(src, ip, ht, ch, cfg), LazyLog.Near(f, ip, ins), len, cfg.minMatch, Most(ip, |src|, MAX_MATCH));
      }
    }
  }

  lemma NotFound(src: seq<Byte>, ip: nat, cfg: Config)
    ensures forall dist: nat :: Found(src, ip, cfg, 0, dist)
  {
  }

  lemma FoundOne(src: seq<Byte>, ip: nat, cfg: Config, l: nat, dist: nat, most: nat)
    requires cfg.minMatch <= l <= most <= MAX_MATCH && 1 <= dist <= cfg.win && dist <= ip && ip + most <= |src|
    requires SameBytes(src, ip, ip - dist, l) && (l < most ==> src[ip - dist + l] != src[ip + l]) && most == Most(ip, |src|, MAX_MATCH)
    ensures Found(src, ip, cfg, l, dist)
  {
  }

  /** `insert_hash`, of a position behind all those inserted. */
  method InsertHash(src: seq<Byte>, ip: nat, ht: array<int>, ch: array<int>, ghost ins: seq<nat>)
    requires ht.Length == HASH_SIZE && ch.Length > 0 && ht != ch && Keeps(src, ht[..], ch[..], ins, ip)
    modifies ht, ch
    ensures Keeps(src, ht[..], ch[..], ins + (if ip + 4 <= |src| then [ip] else []), ip + 1)
  {
    hide Hash, Heads, Links, InOrder;
    if ip + 4 <= |src| {
      ChainedInsert(Hashes(src), ht[..], ch[..], ins, ip, ip);
      var h := Hash(src, ip);
      ch[ip % ch.Length] := ht[h];
      ht[h] := ip;
      assert ht[..] == old(ht[..])[h := ip] && ch[..] == old(ch[..])[ip % ch.Length := old(ht[h])];
    } else {
      ChainedLater(Hashes(src), ht[..], ch[..], ins, ip, ip + 1);
      assert ins + [] == ins;
    }
  }

  //////////////////////////////////////////////////////////////////////////////
  // The parser
  //////////////////////////////////////////////////////////////////////////////

  /** The pieces denote the first `ip` bytes of the source. */
  ghost predicate Covers(src: seq<Byte>, ps: seq<Piece>, ip: nat) {
    ip <= |src| && Meaningful([], ps) && Meaning([], ps) == src[..ip]
  }

  lemma CoversNothing(src: seq<Byte>)
    ensures Covers(src, [], 0)
  {
  }

  lemma CoversLit(src: seq<Byte>, ps: seq<Piece>, ip: nat)
    requires Covers(src, ps, ip) && ip < |src|
    ensures Covers(src, ps + [Lit(src[ip])], ip + 1)
  {
    hide Meaningful, Meaning;
    MeaningAppend([], ps, Lit(src[ip]));
    assert src[..ip + 1] == src[..ip] + [src[ip]];
  }

  lemma CoversMatch(src: seq<Byte>, ps: seq<Piece>, ip: nat, cfg: Config, len: nat, dist: nat)
    requires Covers(src, ps, ip) && len > 0 && Found(src, ip, cfg, len, dist)
    requires cfg.win <= MAX_DISTANCE && cfg.minMatch >= MIN_MATCH
    ensures Covers(src, ps + [Match(len, dist)], ip + len)
  {
    hide Meaningful, Meaning, Copy, SameBytes;
    MeaningAppend([], ps, Match(len, dist));
    MatchCopies(src, ip, dist, len, |src|);
  }

  /** The pieces that looks make: literals where nothing was taken. */
  ghost predicate Makes(src: seq<Byte>, looks: seq<Look>, ps: seq<Piece>) {
    && |ps| == |looks|
    && forall i :: 0 <= i < |ps| ==>
         && looks[i].mark.ip < |src|
         && ps[i] == if looks[i].taken then Match(looks[i].len, looks[i].dist) else Lit(src[looks[i].mark.ip])
  }

  /** The run so far: what it covers, and what the chains hold. */
  ghost predicate Running(src: seq<Byte>, cfg: Config, ht: seq<int>, ch: seq<int>, looks: seq<Look>, ps: seq<Piece>, k: Mark) {
    && Covers(src, ps, k.ip) && Keeps(src, ht, ch, k.ins, k.ip) && Makes(src, looks, ps)
    && Log(src, FinderOf(src, cfg), looks) && k == Here(src, FinderOf(src, cfg), looks)
  }

  lemma RunningStarts(src: seq<Byte>, cfg: Config, ht: seq<int>, ch: seq<int>)
    requires |ht| == HASH_SIZE && ch != []
    ensures Running(src, cfg, ht, ch, [], [], START)
  {
    hide Covers, Hashes;
    CoversNothing(src);
    NoLooks(src, FinderOf(src, cfg));
    ChainedNothing(Hashes(src), ht, ch, 0);
  }

  /** A position passed over: a literal. */
  lemma RunningLit(src: seq<Byte>, cfg: Config, ht: seq<int>, ch: seq<int>, now: seq<int>, links: seq<int>, looks: seq<Look>, ps: seq<Piece>,
                   k: Look)
    requires Running(src, cfg, ht, ch, looks, ps, k.mark) && LookOkay(src, FinderOf(src, cfg), k) && !k.taken
    requires Keeps(src, now, links, k.mark.ins + (if k.mark.ip + 4 <= |src| then [k.mark.ip] else []), k.mark.ip + 1)
    ensures Running(src, cfg, now, links, looks + [k], ps + [Lit(src[k.mark.ip])], MarkAfter(src, FinderOf(src, cfg), k))
  {
    hide Covers, Keeps, Searched, Log, Here;
    CoversLit(src, ps, k.mark.ip);
    OneMore(src, FinderOf(src, cfg), looks, k);
  }

  /** A match taken. */
  lemma RunningMatch(src: seq<Byte>, cfg: Config, ht: seq<int>, ch: seq<int>, now: seq<int>, links: seq<int>, looks: seq<Look>, ps: seq<Piece>,
                     k: Look)
    requires Running(src, cfg, ht, ch, looks, ps, k.mark) && LookOkay(src, FinderOf(src, cfg), k) && k.taken
    requires Found(src, k.mark.ip, cfg, k.len, k.dist) && cfg.win <= MAX_DISTANCE && cfg.minMatch >= MIN_MATCH
    requires Keeps(src, now, links, MarkAfter(src, FinderOf(src, cfg), k).ins, k.mark.ip + k.len)
    ensures Running(src, cfg, now, links, looks + [k], ps + [Match(k.len, k.dist)], MarkAfter(src, FinderOf(src, cfg), k))
  {
    hide Covers, Keeps, Searched, Log, Here, Found, Behind, Own;
    CoversMatch(src, ps, k.mark.ip, cfg, k.len, k.dist);
    OneMore(src, FinderOf(src, cfg), looks, k);
  }

  /** Looks one position ahead, up to three times, for a match that is longer by two or more; what is
      passed over becomes literals. Returns the look at the position whose match is taken, and whether that position has
      been inserted. */
  method LookAhead(src: seq<Byte>, ip0: nat, len0: nat, dist0: nat, ps0: seq<Piece>, ht: array<int>, ch: array<int>, cfg: Config,
                   ghost looks0: seq<Look>, ghost m0: Mark)
    returns (ip: nat, len: nat, dist: nat, ps: seq<Piece>, ghost looks: seq<Look>, ghost k: Look)
    requires ht.Length == HASH_SIZE && ch.Length == cfg.win > 0 && ht != ch && cfg.minMatch >= MIN_MATCH
    requires Running(src, cfg, ht[..], ch[..], looks0, ps0, m0) && m0.ip == ip0 < |src| && m0.passed == 0
    requires len0 > 0 && Found(src, ip0, cfg, len0, dist0) && Searched(src, FinderOf(src, cfg), ip0, m0.ins, len0, dist0)
    modifies ht, ch
    ensures ip >= ip0 && len > 0 && Found(src, ip, cfg, len, dist) && k.mark.ip == ip && k.len == len && k.dist == dist && k.taken
    ensures LookOkay(src, FinderOf(src, cfg), k)
    ensures exists hs, ls :: Running(src, cfg, hs, ls, looks, ps, k.mark)
    ensures var own := k.mark.ins + Own(FinderOf(src, cfg), ip);
            if Further(src, FinderOf(src, cfg), k) then Keeps(src, ht[..], ch[..], own, ip + 1)
            else Keeps(src, ht[..], ch[..], k.mark.ins, ip)
  {
    hide Covers, Found, Keeps, Searched, Running, Own;
    ip, len, dist, ps, looks := ip0, len0, dist0, ps0, looks0;
    ghost var m := m0;
    ghost var f := FinderOf(src, cfg);
    var depth := 1;
    RunningKeeps(src, cfg, ht[..], ch[..], looks, ps, m);
    while depth <= 3 && cfg.lazyDepth >= depth && ip + 1 < |src|
      invariant ip0 <= ip < |src| && depth == m.passed + 1 && m.passed <= f.steps
      invariant Running(src, cfg, ht[..], ch[..], looks, ps, m) && m.ip == ip && Keeps(src, ht[..], ch[..], m.ins, ip)
      invariant len > 0 && Found(src, ip, cfg, len, dist) && Searched(src, f, ip, m.ins, len, dist)
      invariant m.passed > 0 ==> m.len == len && m.dist == dist
      decreases 4 - depth
    {
      ghost var hs, ls := ht[..], ch[..];
      InsertHash(src, ip, ht, ch, m.ins);
      assert Own(f, ip) == if ip + 4 <= |src| then [ip] else [] by { OwnHere(src, cfg, ip); }
      var len2, dist2 := FindMatch(src, ip + 1, ht, ch, cfg, m.ins + Own(f, ip));
      k := Look(m, len, dist, len2, dist2, len2 <= len + 1);
      if len2 <= len + 1 {
        return;
      }
      RunningLit(src, cfg, hs, ls, ht[..], ch[..], looks, ps, k);
      m := MarkAfter(src, f, k);
      ps, looks := ps + [Lit(src[ip])], looks + [k];
      ip, len, dist := ip + 1, len2, dist2;
      FoundStarts(src, ip, cfg, len, dist);
      depth := depth + 1;
    }
    k := Look(m, len, dist, 0, 0, true);
  }

  lemma FoundStarts(src: seq<Byte>, ip: nat, cfg: Config, len: nat, dist: nat)
    requires Found(src, ip, cfg, len, dist) && len > 0
    ensures ip + len <= |src|
  {
  }

  lemma RunningKeeps(src: seq<Byte>, cfg: Config, ht: seq<int>, ch: seq<int>, looks: seq<Look>, ps: seq<Piece>, k: Mark)
    requires Running(src, cfg, ht, ch, looks, ps, k)
    ensures Keeps(src, ht, ch, k.ins, k.ip)
  {
  }

  lemma OwnHere(src: seq<Byte>, cfg: Config, ip: nat)
    ensures Own(FinderOf(src, cfg), ip) == if ip + 4 <= |src| then [ip] else []
  {
  }

  /** The LZ77 parse: its pieces denote the source, whatever the hash chains suggest; and they are what the looks make. */
  method Parse(src: seq<Byte>, cfg: Config) returns (ps: seq<Piece>, ghost looks: seq<Look>)
    requires 0 < cfg.win <= MAX_DISTANCE && cfg.minMatch >= MIN_MATCH
    ensures Meaningful([], ps) && Meaning([], ps) == src
    ensures src != [] ==> ps != []
    ensures Log(src, FinderOf(src, cfg), looks) && Makes(src, looks, ps)
  {
    hide Covers, Running, Keeps, Found, Searched, Own, Behind, Log, Makes;
    var ht := new int[HASH_SIZE](_ => -1);
    var ch := new int[cfg.win](_ => 0);
    ps, looks := [], [];
    var ip: nat := 0;
    ghost var m, f := START, FinderOf(src, cfg);
    RunningStarts(src, cfg, ht[..], ch[..]);
    while ip < |src|
      invariant ip <= |src| && fresh(ht) && fresh(ch) && (ip > 0 ==> ps != [])
      invariant Running(src, cfg, ht[..], ch[..], looks, ps, m) && m.ip == ip && m.passed == 0
      decreases |src| - ip
    {
      RunningKeeps(src, cfg, ht[..], ch[..], looks, ps, m);
      var len, dist := FindMatch(src, ip, ht, ch, cfg, m.ins);
      if len == 0 {
        ghost var k := Look(m, 0, 0, 0, 0, false);
        SearchedNone(src, f, ip, m.ins, dist);
        ghost var hs, ls := ht[..], ch[..];
        InsertHash(src, ip, ht, ch, m.ins);
        RunningLit(src, cfg, hs, ls, ht[..], ch[..], looks, ps, k);
        m := MarkAfter(src, f, k);
        ps, looks := ps + [Lit(src[ip])], looks + [k];
        ip := ip + 1;
      } else {
        ghost var k;
        ip, len, dist, ps, looks, k := LookAhead(src, ip, len, dist, ps, ht, ch, cfg, looks, m);
        ghost var hs, ls :| Running(src, cfg, hs, ls, looks, ps, k.mark);
        InsertAll(src, ip, len, ht, ch, cfg, k);
        FoundStarts(src, ip, cfg, len, dist);
        RunningMatch(src, cfg, hs, ls, ht[..], ch[..], looks, ps, k);
        m := MarkAfter(src, f, k);
        ps, looks := ps + [Match(len, dist)], looks + [k];
        ip := ip + len;
      }
    }
    RunningLog(src, cfg, ht[..], ch[..], looks, ps, m);
    CoversAll(src, ps, ip);
  }

  lemma SearchedNone(src: seq<Byte>, f: Finder, ip: nat, ins: seq<nat>, dist: nat)
    requires Searched(src, f, ip, ins, 0, dist)
    ensures Searched(src, f, ip, ins, 0, 0)
  {
  }

  lemma RunningLog(src: seq<Byte>, cfg: Config, ht: seq<int>, ch: seq<int>, looks: seq<Look>, ps: seq<Piece>, k: Mark)
    requires Running(src, cfg, ht, ch, looks, ps, k)
    ensures Log(src, FinderOf(src, cfg), looks) && Makes(src, looks, ps) && Covers(src, ps, k.ip)
  {
  }

  lemma CoversAll(src: seq<Byte>, ps: seq<Piece>, ip: nat)
    requires Covers(src, ps, ip) && ip >= |src|
    ensures Meaningful([], ps) && Meaning([], ps) == src
  {
    assert src[..ip] == src;
  }

  /** The positions of a match: the first, unless it was inserted on looking ahead, or was not looked ahead from; and
      those behind it. */
  method InsertAll(src: seq<Byte>, ip: nat, len: nat, ht: array<int>, ch: array<int>, cfg: Config, ghost k: Look)
    requires ht.Length == HASH_SIZE && ch.Length > 0 && ht != ch && k.mark.ip == ip && k.len == len > 0 && k.taken
    requires var own := k.mark.ins + Own(FinderOf(src, cfg), ip);
             if Further(src, FinderOf(src, cfg), k) then Keeps(src, ht[..], ch[..], own, ip + 1)
             else Keeps(src, ht[..], ch[..], k.mark.ins, ip)
    modifies ht, ch
    ensures Keeps(src, ht[..], ch[..], MarkAfter(src, FinderOf(src, cfg), k).ins, ip + len)
  {
    hide Keeps, Range;
    ghost var f := FinderOf(src, cfg);
    ghost var own := if f.steps == 0 || Further(src, f, k) then k.mark.ins + Own(f, ip) else k.mark.ins;
    OwnHere(src, cfg, ip);
    assert k.mark.ins + [] == k.mark.ins;
    if cfg.lazyDepth < 1 {
      InsertHash(src, ip, ht, ch, k.mark.ins);
    } else {
      KeepsOn(src, ht[..], ch[..], own, if Further(src, f, k) then ip + 1 else ip, ip + 1);
    }
    InsertInside(src, ip + 1, ip + len, ht, ch, own);
  }

  lemma KeepsOn(src: seq<Byte>, ht: seq<int>, ch: seq<int>, ins: seq<nat>, lim: nat, later: nat)
    requires Keeps(src, ht, ch, ins, lim) && lim <= later
    ensures Keeps(src, ht, ch, ins, later)
  {
    ChainedLater(Hashes(src), ht, ch, ins, lim, later);
  }

  /** Links the positions inside a match. */
  method InsertInside(src: seq<Byte>, start: nat, end: nat, ht: array<int>, ch: array<int>, ghost ins: seq<nat>)
    requires ht.Length == HASH_SIZE && ch.Length > 0 && ht != ch && start <= end && Keeps(src, ht[..], ch[..], ins, start)
    modifies ht, ch
    ensures Keeps(src, ht[..], ch[..], ins + Range(start, if end <= |Hashes(src)| then end else |Hashes(src)|), end)
  {
    hide Keeps;
    var j := start;
    RangeNone(start);
    assert ins + [] == ins;
    while j < end && j + 4 <= |src|
      invariant start <= j <= end && (j > start ==> j + 3 <= |src|)
      invariant Keeps(src, ht[..], ch[..], ins + Range(start, j), j)
      decreases end - j
    {
      InsertHash(src, j, ht, ch, ins + Range(start, j));
      RangeNext(start, j);
      assert ins + Range(start, j) + [j] == ins + Range(start, j + 1);
      j := j + 1;
    }
    KeepsOn(src, ht[..], ch[..], ins + Range(start, j), j, end);
    RangeStops(start, end, |Hashes(src)|, j);
  }
}
