/** A run of the lazy parsers (src/zupt_lzh.c:553-622 and the one of src/zupt_lz.c), look by look: what was found at each
    position, what had been inserted by then, and whether it was taken. A match found is passed over only for one at the
    next position that is longer by two or more. */
module LazyLog {
  import opened Bytes
  import opened HashChains
  import opened Lz
  import opened MatchFinder

  /** What a parser searches with: the hashes of all positions that have one; chain depth and window; the shortest and the
      longest match, and the length at which a search may end early; how many positions it looks ahead, and how many bytes
      must be left for that. */
  datatype Finder = Finder(hs: seq<nat>, depth: nat, window: nat, least: nat, most: nat, early: nat, steps: nat, margin: nat)

  /** The positions inserted last with the hash of `ip`: as many as a chain is walked for, in the window. */
  ghost function Near(f: Finder, ip: nat, ins: seq<nat>): seq<nat>
    requires ip < |f.hs| && InOrder(f.hs, ins, ip)
  {
    Recent(f.hs, ins, |ins|, f.hs[ip], f.depth, if ip <= f.window then 0 else ip - f.window)
  }

  /** `len` bytes `dist` back are a match that goes as far as the bytes agree, and no position near shares more, unless it
      was long enough to end the search; or there is none, and no position near shares enough. */
  ghost predicate Searched(src: seq<Byte>, f: Finder, ip: nat, ins: seq<nat>, len: nat, dist: nat) {
    && (len > 0 ==>
          && f.least <= len <= f.most && dist <= f.window && MatchAt(src, ip, dist, len, |src|)
          && Full(src, ip, dist, len, |src|, f.most))
    && if ip >= |f.hs| then len == 0
       else
         && InOrder(f.hs, ins, ip) && ip <= |src|
         && (len < f.early ==> BestOf(src, ip, Near(f, ip, ins), len, f.least, Most(ip, |src|, f.most)))
  }

  /** What was found at a position and at the one behind it, after how many positions passed over for a better one; and
      whether it was taken. */
  datatype Look = Look(mark: Mark, len: nat, dist: nat, ahead: nat, aheadDist: nat, taken: bool)

  /** Where a look starts: the position, the positions inserted, how many were passed over just before, and what was then
      already found here. */
  datatype Mark = Mark(ip: nat, ins: seq<nat>, passed: nat, len: nat, dist: nat)

  ghost function Own(f: Finder, ip: nat): seq<nat> {
    if ip < |f.hs| then [ip] else []
  }

  /** Whether the position behind is looked at as well. */
  predicate Further(src: seq<Byte>, f: Finder, k: Look) {
    k.len > 0 && k.mark.passed < f.steps && k.mark.ip + f.margin < |src|
  }

  ghost predicate LookOkay(src: seq<Byte>, f: Finder, k: Look) {
    && k.mark.ip < |src| && Searched(src, f, k.mark.ip, k.mark.ins, k.len, k.dist)
    && (k.mark.passed > 0 ==> k.len == k.mark.len && k.dist == k.mark.dist)
    && (Further(src, f, k) ==> Searched(src, f, k.mark.ip + 1, k.mark.ins + Own(f, k.mark.ip), k.ahead, k.aheadDist))
    && (k.taken <==> k.len > 0 && !(Further(src, f, k) && k.ahead > k.len + 1))
  }

  /** The positions behind the first of a match. */
  ghost function Behind(f: Finder, k: Look): seq<nat> {
    Range(k.mark.ip + 1, if k.mark.ip + k.len <= |f.hs| then k.mark.ip + k.len else |f.hs|)
  }

  ghost function MarkAfter(src: seq<Byte>, f: Finder, k: Look): Mark {
    if k.taken then
      Mark(k.mark.ip + k.len,
           k.mark.ins + (if f.steps == 0 || Further(src, f, k) then Own(f, k.mark.ip) else []) + Behind(f, k), 0, 0, 0)
    else if k.len > 0 then Mark(k.mark.ip + 1, k.mark.ins + Own(f, k.mark.ip), k.mark.passed + 1, k.ahead, k.aheadDist)
    else Mark(k.mark.ip + 1, k.mark.ins + Own(f, k.mark.ip), 0, 0, 0)
  }

  const START: Mark := Mark(0, [], 0, 0, 0)

  ghost function Here(src: seq<Byte>, f: Finder, looks: seq<Look>): Mark {
    if looks == [] then START else MarkAfter(src, f, looks[|looks| - 1])
  }

  /** The looks of a run from the start of the source. */
  ghost predicate Log(src: seq<Byte>, f: Finder, looks: seq<Look>) {
    forall i :: 0 <= i < |looks| ==> LookOkay(src, f, looks[i]) && looks[i].mark == Here(src, f, looks[..i])
  }

  lemma NoLooks(src: seq<Byte>, f: Finder)
    ensures Log(src, f, []) && Here(src, f, []) == START
  {
  }

  lemma OneMore(src: seq<Byte>, f: Finder, looks: seq<Look>, k: Look)
    requires Log(src, f, looks) && LookOkay(src, f, k) && k.mark == Here(src, f, looks)
    ensures Log(src, f, looks + [k]) && Here(src, f, looks + [k]) == MarkAfter(src, f, k)
  {
    hide LookOkay, MarkAfter;
    var more := looks + [k];
    assert more[..|looks|] == looks;
    forall i | 0 <= i < |more|
      ensures LookOkay(src, f, more[i]) && more[i].mark == Here(src, f, more[..i])
    {
      if i < |looks| {
        assert more[..i] == looks[..i];
      }
    }
  }

  /** Where the literals since the last match start. */
  function LitStart(looks: seq<Look>): nat {
    if looks == [] then 0
    else
      var k := looks[|looks| - 1];
      if k.taken then k.mark.ip + k.len else LitStart(looks[..|looks| - 1])
  }

  /** The sequences the looks make: the literals since the last match, and the match. */
  function Sequences(src: seq<Byte>, looks: seq<Look>): seq<Sequence> {
    if looks == [] then []
    else
      var before, k := looks[..|looks| - 1], looks[|looks| - 1];
      var lit := LitStart(before);
      if k.taken && lit <= k.mark.ip <= |src| then Sequences(src, before) + [Sequence(src[lit..k.mark.ip], k.len, k.dist)]
      else Sequences(src, before)
  }

  lemma SequencesMore(src: seq<Byte>, looks: seq<Look>, k: Look)
    ensures LitStart(looks + [k]) == if k.taken then k.mark.ip + k.len else LitStart(looks)
    ensures var lit := LitStart(looks);
            Sequences(src, looks + [k]) ==
            if k.taken && lit <= k.mark.ip <= |src| then Sequences(src, looks) + [Sequence(src[lit..k.mark.ip], k.len, k.dist)]
            else Sequences(src, looks)
  {
    assert (looks + [k])[..|looks|] == looks;
  }

  /** The walk of a chain meets the positions near. */
  lemma NearMet(f: Finder, ht: seq<int>, ch: seq<int>, ins: seq<nat>, ip: nat)
    requires Chained(f.hs, ht, ch, ins, ip) && ip < |f.hs| && f.hs[ip] < |ht| && f.window <= |ch|
    ensures Near(f, ip, ins) <= Visited(ch, ht[f.hs[ip]], -1, f.depth, if ip <= f.window then 0 else ip - f.window, ip)
  {
    hide Recent, Visited, Links;
    var limit := if ip <= f.window then 0 else ip - f.window;
    assert Heads(f.hs, ht, ins, f.hs[ip]);
    RecentVisited(f.hs, ht, ch, ins, ip, |ins|, f.hs[ip], ht[f.hs[ip]], -1, f.depth, limit, limit, ip);
  }

  lemma BestPrefix(src: seq<Byte>, ip: nat, refs: seq<nat>, some: seq<nat>, len: nat, least: nat, most: nat)
    requires BestOf(src, ip, refs, len, least, most) && some <= refs
    ensures BestOf(src, ip, some, len, least, most)
  {
    hide Beaten;
    forall k | 0 <= k < |some| ensures !Beaten(src, ip, some[k], len, least, most) {
      assert some[k] == refs[k];
    }
  }
}
