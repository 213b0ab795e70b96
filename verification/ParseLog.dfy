/** A run of the greedy and lazy parser, turn by turn (src/vv_encoder.c:1446-1693): where it looked, what it took there,
    and what it had inserted by then. A position is passed over only if there was nothing to take. */
module ParseLog {
  import opened Bytes
  import opened HashChains
  import opened Lz
  import opened MatchFinder

  /** What bounds a run: chain depth, ring of links and window; the acceleration and whether its steps are not kept small;
      whether repeat offsets are tried; the shortest and the longest match; and whether the tables can hold every
      position. */
  datatype Limits = Limits(depth: nat, ring: nat, window: nat, accel: nat, far: bool, repeats: bool, minMatch: nat, most: nat, exact: bool)

  /** Where a turn starts: the position, the turns since the last match, the repeat offsets, the positions inserted. */
  datatype Mark = Mark(pos: nat, tries: nat, rep: Rep, ins: seq<nat>)

  /** A turn that took a match, or none (`len == 0`). */
  datatype Turn = Turn(mark: Mark, at: nat, len: nat, off: nat)

  /** The positions a turn inserts: the one passed over, or those of the match, of a long one only three at each end. */
  ghost function Inserted(end: nat, t: Turn): seq<nat> {
    if t.len == 0 then (if t.mark.pos + 4 <= end then [t.mark.pos] else [])
    else
      (if t.at > t.mark.pos then [t.mark.pos] else []) +
      (if t.len < 16 then Range(t.at, Clip(t.at + t.len, end))
       else Range(t.at, Clip(t.at + 3, end)) + Range(t.at + t.len - 3, Clip(t.at + t.len, end)))
  }

  /** No position with fewer than five bytes left is inserted inside a match. */
  function Clip(stop: nat, end: nat): int {
    if stop + 4 <= end then stop else end - 4
  }

  /** How far a position that is passed over leads. */
  function Stride(l: Limits, tries: nat): (n: nat)
    ensures n > 0
  {
    if l.accel == 0 then 1
    else if !l.far && 1 + tries * l.accel / 64 > 8 then 8
    else 1 + tries * l.accel / 64
  }

  ghost function After(end: nat, l: Limits, t: Turn): Mark {
    var ins := t.mark.ins + Inserted(end, t);
    if t.len > 0 then Mark(t.at + t.len, 0, PushRep(t.mark.rep, t.off), ins)
    else Mark(t.mark.pos + Stride(l, t.mark.tries), if l.accel > 0 then t.mark.tries + 1 else t.mark.tries, t.mark.rep, ins)
  }

  /** Four bytes at `pos` are found `off` before it. */
  ghost predicate Again(data: seq<Byte>, pos: nat, off: nat) {
    0 < off <= pos && SameBytes(data, pos, pos - off, 4)
  }

  /** Neither a repeat offset nor a position near shares four bytes. */
  ghost predicate Nothing(data: seq<Byte>, end: nat, l: Limits, k: Mark) {
    && (l.repeats ==> !Again(data, k.pos, k.rep.r0) && !Again(data, k.pos, k.rep.r1) && !Again(data, k.pos, k.rep.r2))
    && (l.exact && k.pos + 4 <= end <= |data| ==>
          && InOrder(Hashes(data, end), k.ins, k.pos)
          && forall ref :: ref in Near(data, end, k.pos, l.depth, l.ring, l.window, k.ins) ==> !SameBytes(data, k.pos, ref, 4))
  }

  /** A match at the position itself that is not at a repeat offset: no position near shares more bytes at a cost that
      they are worth. */
  ghost predicate Unbeaten(data: seq<Byte>, end: nat, l: Limits, k: Mark, len: nat, off: nat) {
    l.exact && k.pos + 4 <= end <= |data| && len < 256 && off != k.rep.r0 && off != k.rep.r1 && off != k.rep.r2 ==>
      && InOrder(Hashes(data, end), k.ins, k.pos)
      && AllWorse(data, k.pos, Near(data, end, k.pos, l.depth, l.ring, l.window, k.ins), len, off, Most(k.pos, end, l.most))
  }

  /** A match that is long enough and goes as far as the bytes agree, at the position or the one behind it; or nothing,
      where there is nothing. */
  ghost predicate TurnOkay(data: seq<Byte>, end: nat, l: Limits, t: Turn) {
    && t.mark.pos + l.minMatch < end <= |data|
    && if t.len > 0 then
         && l.minMatch <= t.len && t.mark.pos <= t.at <= t.mark.pos + 1
         && MatchAt(data, t.at, t.off, t.len, end) && t.off <= l.window
         && (t.len > 3 ==> Full(data, t.at, t.off, t.len, end, l.most))
         && (t.at == t.mark.pos ==> Unbeaten(data, end, l, t.mark, t.len, t.off))
       else t.at == t.mark.pos && (l.minMatch <= 4 ==> Nothing(data, end, l, t.mark))
  }

  ghost function Here(end: nat, l: Limits, first: Mark, turns: seq<Turn>): Mark {
    if turns == [] then first else After(end, l, turns[|turns| - 1])
  }

  /** The turns of a run from `first` on. */
  ghost predicate Log(data: seq<Byte>, end: nat, l: Limits, first: Mark, turns: seq<Turn>)
  {
    forall k :: 0 <= k < |turns| ==> TurnOkay(data, end, l, turns[k]) && turns[k].mark == Here(end, l, first, turns[..k])
  }

  /** Where the literals since the last match start. */
  function LitStart(start: nat, turns: seq<Turn>): nat {
    if turns == [] then start
    else
      var t := turns[|turns| - 1];
      if t.len > 0 then t.at + t.len else LitStart(start, turns[..|turns| - 1])
  }

  /** The sequences the turns make: the literals since the last match, and the match. */
  function Sequences(data: seq<Byte>, start: nat, turns: seq<Turn>): seq<Sequence> {
    if turns == [] then []
    else
      var before, t := turns[..|turns| - 1], turns[|turns| - 1];
      var lit := LitStart(start, before);
      if t.len > 0 && lit <= t.at <= |data| then Sequences(data, start, before) + [Sequence(data[lit..t.at], t.len, t.off)]
      else Sequences(data, start, before)
  }

  lemma NoTurns(data: seq<Byte>, end: nat, l: Limits, first: Mark)
    ensures Log(data, end, l, first, []) && Here(end, l, first, []) == first
    ensures LitStart(first.pos, []) == first.pos && Sequences(data, first.pos, []) == []
  {
  }

  lemma OneMore(data: seq<Byte>, end: nat, l: Limits, first: Mark, turns: seq<Turn>, t: Turn)
    requires Log(data, end, l, first, turns) && TurnOkay(data, end, l, t) && t.mark == Here(end, l, first, turns)
    ensures Log(data, end, l, first, turns + [t]) && Here(end, l, first, turns + [t]) == After(end, l, t)
    ensures LitStart(first.pos, turns + [t]) == if t.len > 0 then t.at + t.len else LitStart(first.pos, turns)
    ensures var lit := LitStart(first.pos, turns);
            Sequences(data, first.pos, turns + [t]) ==
            if t.len > 0 && lit <= t.at <= |data| then Sequences(data, first.pos, turns) + [Sequence(data[lit..t.at], t.len, t.off)]
            else Sequences(data, first.pos, turns)
  {
    hide TurnOkay, After;
    var more := turns + [t];
    assert more[..|turns|] == turns;
    forall k | 0 <= k < |more|
      ensures TurnOkay(data, end, l, more[k]) && more[k].mark == Here(end, l, first, more[..k])
    {
      if k < |turns| {
        assert more[..k] == turns[..k];
      }
    }
  }
}
