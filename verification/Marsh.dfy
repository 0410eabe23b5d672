/** The marsh format: a length on 8 bytes, then the data; the data of a node is its children in a row. */
module Marsh {
  import opened Bytes
  import opened Model

  const HDR: nat := 8
  const SIZE_MAX: nat := 0x1_0000_0000_0000_0000

  // ----- writing -----

  function Pack(data: seq<byte>): (m: seq<byte>)
    ensures |m| == HDR + |data|
  {
    ToLE(|data|, HDR) + data
  }

  function Concat(cs: seq<seq<byte>>): (r: seq<byte>)
  {
    if cs == [] then [] else cs[0] + Concat(cs[1..])
  }

  lemma {:induction false} ConcatSnoc(cs: seq<seq<byte>>, c: seq<byte>)
    ensures Concat(cs + [c]) == Concat(cs) + c
  {
    if cs == [] {
      assert cs + [c] == [c];
      assert Concat([c][1..]) == [];
    } else {
      assert (cs + [c])[1..] == cs[1..] + [c];
      ConcatSnoc(cs[1..], c);
    }
  }

  lemma {:induction false} ConcatSplit(cs: seq<seq<byte>>, i: nat)
    requires i < |cs|
    ensures Concat(cs) == Concat(cs[..i]) + cs[i] + Concat(cs[i + 1..])
  {
    if i > 0 {
      ConcatSplit(cs[1..], i - 1);
      assert cs[1..][..i - 1] == cs[..i][1..] && cs[1..][i..] == cs[i + 1..];
      var a, b, c, d := cs[0], Concat(cs[1..][..i - 1]), cs[i], Concat(cs[i + 1..]);
      assert a + (b + c + d) == a + b + c + d;
    }
  }

  /** Copy `src` into `dst` at `off`. */
  method Memcpy(dst: array<byte>, off: nat, src: seq<byte>)
    requires off + |src| <= dst.Length
    modifies dst
    ensures dst[..off] == old(dst[..off]) && dst[off..off + |src|] == src
    ensures dst[off + |src|..] == old(dst[off + |src|..])
  {
    var i := 0;
    while i < |src|
      invariant 0 <= i <= |src|
      invariant forall k :: 0 <= k < i ==> dst[off + k] == src[k]
      invariant forall k :: 0 <= k < dst.Length && !(off <= k < off + i) ==> dst[k] == old(dst[k])
    {
      dst[off + i] := src[i];
      i := i + 1;
    }
  }

  /** `bf_marsh_new`: a node in a buffer of its own. */
  method NewNode(data: seq<byte>) returns (buf: array<byte>)
    ensures fresh(buf) && buf[..] == Pack(data)
  {
    hide ToLE;
    buf := new byte[HDR + |data|];
    Memcpy(buf, 0, ToLE(|data|, HDR));
    Memcpy(buf, HDR, data);
    assert buf[..] == buf[..HDR] + buf[HDR..HDR + |data|];
  }

  /** A node under construction: the bytes of its children, in order, behind their total length. */
  class Node {
    var buf: array<byte>
    ghost var children: seq<seq<byte>>

    constructor ()
      ensures Valid() && fresh(buf) && children == []
    {
      buf := new byte[HDR](_ => 0);
      children := [];
      new;
      ZeroLength();
      assert buf[..] == [0, 0, 0, 0, 0, 0, 0, 0];
    }

    ghost predicate Valid()
      reads this, buf
    {
      buf[..] == Pack(Concat(children))
    }

    /**
     * Append a child. The bytes move to a larger buffer: what was there, then the child, and the
     * length is that of both.
     */
    method AddChildObj(obj: seq<byte>)
      requires Valid()
      modifies this
      ensures Valid() && fresh(buf) && children == old(children) + [obj]
    {
      hide ToLE, Concat;
      ghost var data := Concat(children);
      var len := buf.Length - HDR;
      var grown := new byte[HDR + len + |obj|];
      Memcpy(grown, HDR, buf[HDR..]);
      Memcpy(grown, HDR + len, obj);
      assert grown[HDR..] == data + obj by {
        assert grown[HDR..] == grown[HDR..HDR + len] + grown[HDR + len..];
      }
      Memcpy(grown, 0, ToLE(len + |obj|, HDR));
      assert grown[..] == grown[..HDR] + grown[HDR..];
      ConcatSnoc(children, obj);
      buf := grown;
      children := children + [obj];
    }

    /** Wrap raw data in a node and append it. */
    method AddChildRaw(raw: seq<byte>)
      requires Valid()
      modifies this
      ensures Valid() && fresh(buf) && children == old(children) + [Pack(raw)]
    {
      var child := NewNode(raw);
      AddChildObj(child[..]);
    }
  }

  lemma ZeroLength()
    ensures Pack(Concat([])) == [0, 0, 0, 0, 0, 0, 0, 0]
  {
    assert ToLE(0, 1) == [0] + ToLE(0, 0);
    assert ToLE(0, 2) == [0, 0];
    assert ToLE(0, 4) == [0, 0, 0, 0] by {
      assert ToLE(0, 3) == [0, 0, 0];
    }
    assert ToLE(0, 6) == [0, 0, 0, 0, 0, 0] by {
      assert ToLE(0, 5) == [0, 0, 0, 0, 0];
    }
    assert ToLE(0, 7) == [0, 0, 0, 0, 0, 0, 0];
  }

  // ----- reading -----

  function Len(bs: seq<byte>, p: nat): (n: nat)
    requires p + HDR <= |bs|
  {
    LE(bs[p..p + HDR])
  }

  function End(bs: seq<byte>, p: nat): (e: nat)
    requires p + HDR <= |bs|
    ensures e >= p + HDR
  {
    p + HDR + Len(bs, p)
  }

  /** A whole node starts at `p`. */
  predicate NodeAt(bs: seq<byte>, p: nat)
  {
    p + HDR <= |bs| && End(bs, p) <= |bs|
  }

  /** `bf_marsh_child_is_valid` */
  predicate ChildIsValid(bs: seq<byte>, p: nat, c: nat)
    requires NodeAt(bs, p)
  {
    p + HDR <= c <= End(bs, p) && c + HDR <= End(bs, p) && End(bs, c) <= End(bs, p)
  }

  /** `bf_marsh_next_child`: whatever the bytes are, the child is inside its parent and after the previous one. */
  function NextChild(bs: seq<byte>, p: nat, prev: Option<nat>): (r: Option<nat>)
    requires NodeAt(bs, p) && (prev.Some? ==> ChildIsValid(bs, p, prev.value))
    ensures r.Some? ==> ChildIsValid(bs, p, r.value) && NodeAt(bs, r.value)
                        && (prev.Some? ==> prev.value + HDR <= End(bs, prev.value) <= r.value)
  {
    var c := if prev.Some? then End(bs, prev.value) else p + HDR;
    if ChildIsValid(bs, p, c) then Some(c) else None
  }

  /** How much of the parent is left after a child. */
  function Rest(bs: seq<byte>, p: nat, prev: Option<nat>): (n: nat)
    requires NodeAt(bs, p) && (prev.Some? ==> ChildIsValid(bs, p, prev.value))
  {
    if prev.Some? then End(bs, p) - End(bs, prev.value) else End(bs, p) - p
  }

  /** All the children after `prev`. */
  function Children(bs: seq<byte>, p: nat, prev: Option<nat>): (cs: seq<nat>)
    requires NodeAt(bs, p) && (prev.Some? ==> ChildIsValid(bs, p, prev.value))
    decreases Rest(bs, p, prev)
  {
    var c := NextChild(bs, p, prev);
    if c == None then [] else [c.value] + Children(bs, p, c)
  }

  /** `cs` are the first children: they lie one after the other inside the parent. */
  predicate Chained(bs: seq<byte>, p: nat, cs: seq<nat>)
    requires NodeAt(bs, p)
  {
    forall i :: 0 <= i < |cs| ==> ChildIsValid(bs, p, cs[i]) && Follows(bs, p, cs, i)
  }

  /** Child `i` starts where the previous one ends. */
  predicate Follows(bs: seq<byte>, p: nat, cs: seq<nat>, i: nat)
    requires i < |cs|
  {
    if i == 0 then cs[i] == p + HDR else cs[i - 1] + HDR <= |bs| && cs[i] == End(bs, cs[i - 1])
  }

  function Last(cs: seq<nat>): (r: Option<nat>)
  {
    if cs == [] then None else Some(cs[|cs| - 1])
  }

  /** Walking the children of a node terminates on any bytes, with all of them. */
  method Walk(bs: seq<byte>, p: nat) returns (cs: seq<nat>)
    requires NodeAt(bs, p)
    ensures Chained(bs, p, cs) && NextChild(bs, p, Last(cs)) == None
    ensures cs == Children(bs, p, None)
  {
    hide LE, Len, End, Chained, NextChild, ChildIsValid, Children;
    cs := [];
    ChainedNone(bs, p);
    var child := NextChild(bs, p, None);
    while child.Some?
      invariant Chained(bs, p, cs) && LastValid(bs, p, cs)
      invariant child == NextChild(bs, p, Last(cs))
      invariant Children(bs, p, None) == cs + Children(bs, p, Last(cs))
      decreases Rest(bs, p, Last(cs))
    {
      ChainedMore(bs, p, cs, child.value);
      ChildrenMore(bs, p, cs, child.value);
      cs := cs + [child.value];
      child := NextChild(bs, p, child);
    }
    ChildrenEnd(bs, p, cs);
  }

  predicate LastValid(bs: seq<byte>, p: nat, cs: seq<nat>)
    requires NodeAt(bs, p)
  {
    Last(cs).Some? ==> ChildIsValid(bs, p, Last(cs).value)
  }

  lemma ChainedNone(bs: seq<byte>, p: nat)
    requires NodeAt(bs, p)
    ensures Chained(bs, p, [])
  {
  }

  lemma ChainedMore(bs: seq<byte>, p: nat, cs: seq<nat>, c: nat)
    requires NodeAt(bs, p) && Chained(bs, p, cs) && LastValid(bs, p, cs) && NextChild(bs, p, Last(cs)) == Some(c)
    ensures Chained(bs, p, cs + [c]) && LastValid(bs, p, cs + [c])
  {
    hide Len, ChildIsValid, NextChild;
    var ds := cs + [c];
    forall i | 0 <= i < |ds| ensures ChildIsValid(bs, p, ds[i]) && Follows(bs, p, ds, i) {
      if i < |cs| {
        assert Follows(bs, p, cs, i);
      } else {
        NextFollows(bs, p, cs, c);
      }
    }
  }

  lemma NextFollows(bs: seq<byte>, p: nat, cs: seq<nat>, c: nat)
    requires NodeAt(bs, p) && LastValid(bs, p, cs) && NextChild(bs, p, Last(cs)) == Some(c)
    ensures if cs == [] then c == p + HDR else cs[|cs| - 1] + HDR <= |bs| && c == End(bs, cs[|cs| - 1])
  {
  }

  lemma ChildrenMore(bs: seq<byte>, p: nat, cs: seq<nat>, c: nat)
    requires NodeAt(bs, p) && LastValid(bs, p, cs) && NextChild(bs, p, Last(cs)) == Some(c)
    ensures cs + Children(bs, p, Last(cs)) == (cs + [c]) + Children(bs, p, Some(c))
    ensures Rest(bs, p, Some(c)) < Rest(bs, p, Last(cs))
  {
    hide Len;
    var rest := Children(bs, p, Some(c));
    assert Children(bs, p, Last(cs)) == [c] + rest;
  }

  lemma ChildrenEnd(bs: seq<byte>, p: nat, cs: seq<nat>)
    requires NodeAt(bs, p) && LastValid(bs, p, cs) && NextChild(bs, p, Last(cs)) == None
    ensures cs + Children(bs, p, Last(cs)) == cs
  {
  }

  // ----- where things are -----

  predicate At(bs: seq<byte>, p: nat, m: seq<byte>)
  {
    p + |m| <= |bs| && bs[p..p + |m|] == m
  }

  lemma AtPart(bs: seq<byte>, p: nat, a: seq<byte>, b: seq<byte>, c: seq<byte>)
    requires At(bs, p, a + b + c)
    ensures At(bs, p + |a|, b)
  {
    var m := a + b + c;
    SubSlice(bs, p, |m|, |a|, |b|);
    assert m[|a|..|a| + |b|] == b;
  }

  lemma AtWhole(bs: seq<byte>)
    ensures At(bs, 0, bs)
  {
  }

  /** The length field of `m` is right. */
  predicate IsNode(m: seq<byte>)
  {
    |m| >= HDR && LE(m[..HDR]) == |m| - HDR
  }

  lemma PackIsNode(data: seq<byte>)
    requires |data| < SIZE_MAX
    ensures IsNode(Pack(data))
  {
    assert Pow256(8) == SIZE_MAX;
    LEOfToLE(|data|, HDR);
    assert Pack(data)[..HDR] == ToLE(|data|, HDR);
  }

  lemma AtNode(bs: seq<byte>, p: nat, m: seq<byte>)
    requires At(bs, p, m) && IsNode(m)
    ensures NodeAt(bs, p) && End(bs, p) == p + |m|
  {
    SubSlice(bs, p, |m|, 0, HDR);
    assert m[0..HDR] == m[..HDR];
  }

  predicate AllNodes(cs: seq<seq<byte>>)
  {
    forall i :: 0 <= i < |cs| ==> IsNode(cs[i])
  }

  /** Position of child `i` of the node at `p`. */
  function Pos(p: nat, cs: seq<seq<byte>>, i: nat): (r: nat)
    requires i <= |cs|
  {
    p + HDR + |Concat(cs[..i])|
  }

  lemma ChildAt(bs: seq<byte>, p: nat, cs: seq<seq<byte>>, i: nat)
    requires |Concat(cs)| < SIZE_MAX && At(bs, p, Pack(Concat(cs))) && AllNodes(cs) && i < |cs|
    ensures At(bs, Pos(p, cs, i), cs[i]) && NodeAt(bs, p) && NodeAt(bs, Pos(p, cs, i))
    ensures ChildIsValid(bs, p, Pos(p, cs, i)) && End(bs, Pos(p, cs, i)) == Pos(p, cs, i + 1)
  {
    hide LE, ToLE, Concat;
    PackIsNode(Concat(cs));
    AtNode(bs, p, Pack(Concat(cs)));
    ConcatSplit(cs, i);
    var h, a, z := ToLE(|Concat(cs)|, HDR), Concat(cs[..i]), Concat(cs[i + 1..]);
    assert Pack(Concat(cs)) == (h + a) + cs[i] + z;
    AtPart(bs, p, h + a, cs[i], z);
    AtNode(bs, Pos(p, cs, i), cs[i]);
    assert cs[..i + 1] == cs[..i] + [cs[i]];
    ConcatSnoc(cs[..i], cs[i]);
  }

  /** Child `i` is what follows child `i - 1`, and nothing follows the last one. */
  lemma NextIs(bs: seq<byte>, p: nat, cs: seq<seq<byte>>, i: nat)
    requires |Concat(cs)| < SIZE_MAX && At(bs, p, Pack(Concat(cs))) && AllNodes(cs) && i <= |cs|
    ensures NodeAt(bs, p) && (i > 0 ==> ChildIsValid(bs, p, Pos(p, cs, i - 1)))
    ensures var prev := if i == 0 then None else Some(Pos(p, cs, i - 1));
            NextChild(bs, p, prev) == if i < |cs| then Some(Pos(p, cs, i)) else None
    ensures i < |cs| ==> At(bs, Pos(p, cs, i), cs[i]) && NodeAt(bs, Pos(p, cs, i))
  {
    hide LE, Concat, IsNode;
    PackIsNode(Concat(cs));
    AtNode(bs, p, Pack(Concat(cs)));
    PosFirst(p, cs);
    if i > 0 {
      ChildAt(bs, p, cs, i - 1);
    }
    if i < |cs| {
      ChildAt(bs, p, cs, i);
    } else {
      assert cs[..i] == cs;
    }
  }

  lemma PosFirst(p: nat, cs: seq<seq<byte>>)
    ensures Pos(p, cs, 0) == p + HDR
  {
    assert cs[..0] == [];
  }

  /** Positions of the children from number `i` on. */
  function Positions(p: nat, cs: seq<seq<byte>>, i: nat): (r: seq<nat>)
    requires i <= |cs|
    ensures |r| == |cs| - i && forall j :: 0 <= j < |r| ==> r[j] == Pos(p, cs, i + j)
    decreases |cs| - i
  {
    if i == |cs| then [] else [Pos(p, cs, i)] + Positions(p, cs, i + 1)
  }

  /** Iterating over a node that was built finds its children, all of them and in order. */
  lemma {:induction false} BuiltChildren(bs: seq<byte>, p: nat, cs: seq<seq<byte>>, i: nat)
    requires |Concat(cs)| < SIZE_MAX && At(bs, p, Pack(Concat(cs))) && AllNodes(cs) && i <= |cs|
    ensures NodeAt(bs, p) && (i > 0 ==> ChildIsValid(bs, p, Pos(p, cs, i - 1)))
    ensures Children(bs, p, if i == 0 then None else Some(Pos(p, cs, i - 1))) == Positions(p, cs, i)
    ensures forall j :: i <= j < |cs| ==> At(bs, Pos(p, cs, j), cs[j])
    decreases |cs| - i
  {
    hide LE, Concat, IsNode, At, Pos, ChildIsValid, NextChild, NodeAt, Len, End, Rest;
    NextIs(bs, p, cs, i);
    if i < |cs| {
      BuiltChildren(bs, p, cs, i + 1);
    }
  }

  // ----- fields -----

  /** The next child, or the error readers report. */
  function Next(bs: seq<byte>, p: nat, prev: Option<nat>): (r: Result<nat>)
    requires NodeAt(bs, p) && (prev.Some? ==> ChildIsValid(bs, p, prev.value))
    ensures r.Ok? ==> ChildIsValid(bs, p, r.value) && NodeAt(bs, r.value)
  {
    match NextChild(bs, p, prev) case Some(c) => Ok(c) case None => Err(EINVAL)
  }

  /** `memcpy` of `n` bytes from a child's data: the child's own length is not looked at. */
  function Take(bs: seq<byte>, c: nat, n: nat): (r: Result<seq<byte>>)
    ensures r.Ok? ==> |r.value| == n
  {
    if c + HDR + n <= |bs| then Ok(bs[c + HDR..c + HDR + n]) else Err(OutOfBounds)
  }

  function TakeNum(bs: seq<byte>, c: nat, n: nat): (r: Result<nat>)
    ensures r.Ok? ==> r.value < Pow256(n)
  {
    var b :- Take(bs, c, n);
    Ok(LE(b))
  }

  lemma TakeAt(bs: seq<byte>, c: nat, data: seq<byte>)
    requires At(bs, c, Pack(data))
    ensures Take(bs, c, |data|) == Ok(data)
  {
    AtPart(bs, c, ToLE(|data|, HDR), data, []);
    assert ToLE(|data|, HDR) + data + [] == Pack(data);
  }

  lemma TakeNumAt(bs: seq<byte>, c: nat, x: nat, n: nat)
    requires At(bs, c, Pack(ToLE(x, n))) && x < Pow256(n)
    ensures TakeNum(bs, c, n) == Ok(x)
  {
    TakeAt(bs, c, ToLE(x, n));
    LEOfToLE(x, n);
  }
}
