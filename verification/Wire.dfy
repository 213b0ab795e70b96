/** Fields and parts of a byte string, read one after another from the front. */
module Wire {
  import opened Arith
  import opened Bits
  import opened Bytes
  import opened Lz
  import opened Tokens

  lemma {:induction false} LittleEndianPrefix(p: seq<Byte>, x: seq<Byte>, i: nat, n: nat)
    requires i + n <= |p|
    ensures LittleEndian(p + x, i, n) == LittleEndian(p, i, n)
    decreases n
  {
    if n > 0 {
      LittleEndianPrefix(p, x, i + 1, n - 1);
    }
  }

  lemma {:induction false} LittleEndianSuffix(src: seq<Byte>, p: nat, i: nat, n: nat)
    requires p + i + n <= |src|
    ensures LittleEndian(src[p..], i, n) == LittleEndian(src, p + i, n)
    decreases n
  {
    if n > 0 {
      LittleEndianSuffix(src, p, i + 1, n - 1);
    }
  }

  lemma FrontLe(v: nat, n: nat, rest: seq<Byte>)
    requires v < Pow2(8 * n)
    ensures LittleEndian(LeBytes(v, n) + rest, 0, n) == v
    ensures (LeBytes(v, n) + rest)[n..] == rest
  {
    hide LeBytes, LittleEndian, Pow2;
    var s := LeBytes(v, n) + rest;
    assert s[0..n] == LeBytes(v, n);
    assert At(s, 0, LeBytes(v, n));
    ReadLe(s, 0, v, n);
  }

  lemma Pow2Of32()
    ensures Pow2(32) == 0x1_0000_0000 && Pow2(24) == 0x100_0000
  {
    hide Pow2;
    Pow2Small();
    Pow2Add(12, 12);
    Pow2Add(16, 16);
  }

  lemma Pow2Of64()
    ensures Pow2(64) == 0x1_0000_0000_0000_0000
  {
    hide Pow2;
    Pow2Of32();
    Pow2Add(32, 32);
  }

  /** Each value in `n` bytes. */
  function Fields(vs: seq<nat>, n: nat): seq<Byte> {
    if vs == [] then [] else LeBytes(vs[0], n) + Fields(vs[1..], n)
  }

  datatype Front = Short | Front(values: seq<nat>, rest: seq<Byte>)

  /** The first `count` fields of `n` bytes, and what follows them. */
  function TakeFields(s: seq<Byte>, n: nat, count: nat): (r: Front)
    ensures r.Front? ==> |r.values| == count && |r.rest| <= |s|
    decreases count
  {
    if count == 0 then Front([], s)
    else if |s| < n then Short
    else
      match TakeFields(s[n..], n, count - 1)
      case Short => Short
      case Front(values, rest) => Front([LittleEndian(s, 0, n)] + values, rest)
  }

  /** Fields that are there are read alike whatever follows. */
  lemma {:induction false} FieldsExtend(s: seq<Byte>, x: seq<Byte>, n: nat, count: nat)
    requires TakeFields(s, n, count).Front?
    ensures var f := TakeFields(s, n, count); TakeFields(s + x, n, count) == Front(f.values, f.rest + x)
    decreases count
  {
    hide LittleEndian;
    if count > 0 {
      LittleEndianPrefix(s, x, 0, n);
      assert (s + x)[n..] == s[n..] + x;
      FieldsExtend(s[n..], x, n, count - 1);
    }
  }

  lemma {:induction false} FieldsLeft(s: seq<Byte>, n: nat, count: nat)
    requires TakeFields(s, n, count).Front?
    ensures |TakeFields(s, n, count).rest| == |s| - n * count
    decreases count
  {
    if count > 0 {
      FieldsLeft(s[n..], n, count - 1);
    }
  }

  lemma {:induction false} FieldsRoundTrip(vs: seq<nat>, n: nat, rest: seq<Byte>)
    requires forall i :: 0 <= i < |vs| ==> vs[i] < Pow2(8 * n)
    ensures TakeFields(Fields(vs, n) + rest, n, |vs|) == Front(vs, rest)
    decreases |vs|
  {
    hide LeBytes, LittleEndian, Pow2;
    var s := Fields(vs, n) + rest;
    if vs == [] {
      assert s == rest;
    } else {
      assert s == LeBytes(vs[0], n) + (Fields(vs[1..], n) + rest);
      FrontLe(vs[0], n, Fields(vs[1..], n) + rest);
      FieldsRoundTrip(vs[1..], n, rest);
      assert vs == [vs[0]] + vs[1..];
    }
  }

  lemma {:induction false} FieldsSize(vs: seq<nat>, n: nat)
    ensures |Fields(vs, n)| == |vs| * n
    decreases |vs|
  {
    if vs != [] {
      FieldsSize(vs[1..], n);
    }
  }

  /** Parts one after another. */
  function Parts(ps: seq<seq<Byte>>): seq<Byte> {
    if ps == [] then [] else ps[0] + Parts(ps[1..])
  }

  function Total(sizes: seq<nat>): nat {
    if sizes == [] then 0 else sizes[0] + Total(sizes[1..])
  }

  /** The first parts of `s`, of the given sizes. */
  function Cut(s: seq<Byte>, sizes: seq<nat>): (ps: seq<seq<Byte>>)
    requires Total(sizes) <= |s|
    ensures |ps| == |sizes| && forall k :: 0 <= k < |ps| ==> |ps[k]| == sizes[k]
    decreases |sizes|
  {
    if sizes == [] then [] else [s[..sizes[0]]] + Cut(s[sizes[0]..], sizes[1..])
  }

  function Sizes(ps: seq<seq<Byte>>): (r: seq<nat>)
    ensures |r| == |ps|
  {
    if ps == [] then [] else [|ps[0]|] + Sizes(ps[1..])
  }

  lemma CutFront(a: seq<Byte>, t: seq<Byte>, sizes: seq<nat>)
    requires Total(sizes) <= |t|
    ensures Total([|a|] + sizes) == |a| + Total(sizes) <= |a + t|
    ensures Cut(a + t, [|a|] + sizes) == [a] + Cut(t, sizes)
  {
    assert ([|a|] + sizes)[1..] == sizes;
    assert (a + t)[|a|..] == t && (a + t)[..|a|] == a;
  }

  lemma {:induction false} PartsRoundTrip(ps: seq<seq<Byte>>, rest: seq<Byte>)
    ensures Total(Sizes(ps)) == |Parts(ps)| && Cut(Parts(ps) + rest, Sizes(ps)) == ps
    decreases |ps|
  {
    hide Cut, Total;
    if ps == [] {
      CutNone(Parts(ps) + rest);
    } else {
      PartsRoundTrip(ps[1..], rest);
      assert Parts(ps) + rest == ps[0] + (Parts(ps[1..]) + rest);
      CutFront(ps[0], Parts(ps[1..]) + rest, Sizes(ps[1..]));
      assert ps == [ps[0]] + ps[1..];
    }
  }

  lemma CutNone(s: seq<Byte>)
    ensures Total([]) == 0 && Cut(s, []) == []
  {
  }
}
