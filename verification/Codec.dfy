/** Bytes of matchers, rules, sets, chains and codegens, and their readers. */
module Codec {
  import opened Bytes
  import opened Model
  import opened Marsh

  // ----- enumerations, in the order the source declares them -----

  const MATCHER_TYPES: seq<MatcherType> :=
    [ MetaIfindex, MetaL3Proto, MetaL4Proto, MetaSport, MetaDport, Ip4SrcAddr, Ip4DstAddr, Ip4Proto,
      Ip6Saddr, Ip6Daddr, TcpSport, TcpDport, TcpFlags, UdpSport, UdpDport, SetSrcIp6Port, SetSrcIp6 ]

  const MATCHER_OPS: seq<MatcherOp> := [Eq, Ne, Any, All, In, Range]
  const VERDICTS: seq<Verdict> := [Accept, Drop, Continue]
  const SET_TYPES: seq<SetType> := [SetIp4, SetIp6Port, SetIp6]

  const HOOKS: seq<Hook> :=
    [ Xdp, TcIngress, NfPreRouting, NfLocalIn, NfForward, CgroupIngress, CgroupEgress, NfLocalOut,
      NfPostRouting, TcEgress ]

  datatype Front = FrontIpt | FrontNft | FrontCli

  const FRONTS: seq<Front> := [FrontIpt, FrontNft, FrontCli]

  function IndexIn<T(==)>(x: T, xs: seq<T>): (i: nat)
    ensures x in xs ==> i < |xs| && xs[i] == x
    ensures i <= |xs|
  {
    if xs == [] || xs[0] == x then 0 else 1 + IndexIn(x, xs[1..])
  }

  /** An enumeration value takes 4 bytes. */
  function Enum<T(==)>(x: T, xs: seq<T>): (b: seq<byte>)
    ensures |b| == 4
  {
    ToLE(IndexIn(x, xs), 4)
  }

  /** Values outside the enumeration are not checked for by the source; they are errors here. */
  function TakeEnum<T>(bs: seq<byte>, c: nat, xs: seq<T>): (r: Result<T>)
  {
    var n :- TakeNum(bs, c, 4);
    if n < |xs| then Ok(xs[n]) else Err(OutOfBounds)
  }

  lemma TakeEnumAt<T>(bs: seq<byte>, c: nat, x: T, xs: seq<T>)
    requires At(bs, c, Pack(Enum(x, xs))) && x in xs && |xs| < 0x100
    ensures TakeEnum(bs, c, xs) == Ok(x)
  {
    assert Pow256(4) == 0x1_0000_0000;
    TakeNumAt(bs, c, IndexIn(x, xs), 4);
  }

  lemma MatcherTypeListed(k: MatcherType)
    ensures k in MATCHER_TYPES
  {
    var xs := MATCHER_TYPES;
    assert xs[0] == MetaIfindex && xs[1] == MetaL3Proto && xs[2] == MetaL4Proto && xs[3] == MetaSport && xs[4] == MetaDport;
    assert xs[5] == Ip4SrcAddr && xs[6] == Ip4DstAddr && xs[7] == Ip4Proto && xs[8] == Ip6Saddr && xs[9] == Ip6Daddr;
    assert xs[10] == TcpSport && xs[11] == TcpDport && xs[12] == TcpFlags && xs[13] == UdpSport && xs[14] == UdpDport;
    assert xs[15] == SetSrcIp6Port && xs[16] == SetSrcIp6;
  }

  lemma HookListed(h: Hook)
    ensures h in HOOKS
  {
    var xs := HOOKS;
    assert xs[0] == Xdp && xs[1] == TcIngress && xs[2] == NfPreRouting && xs[3] == NfLocalIn && xs[4] == NfForward;
    assert xs[5] == CgroupIngress && xs[6] == CgroupEgress && xs[7] == NfLocalOut && xs[8] == NfPostRouting && xs[9] == TcEgress;
  }

  lemma SmallEnumsListed(op: MatcherOp, v: Verdict, t: SetType, f: Front)
    ensures op in MATCHER_OPS && v in VERDICTS && t in SET_TYPES && f in FRONTS
  {
  }

  // ----- matchers -----

  const MATCHER_SIZE: nat := 16

  function MatcherFields(m: Matcher): (cs: seq<seq<byte>>)
    ensures |cs| == 4
  {
    [ Pack(Enum(m.kind, MATCHER_TYPES)), Pack(Enum(m.op, MATCHER_OPS)), Pack(ToLE(MATCHER_SIZE + |m.payload|, 8)), Pack(m.payload) ]
  }

  function EncMatcher(m: Matcher): (b: seq<byte>)
  {
    Pack(Concat(MatcherFields(m)))
  }

  /** `bf_matcher_new` on a payload that is never null: it must not be empty. */
  function NewMatcher(kind: MatcherType, op: MatcherOp, payload: seq<byte>): (r: Result<Matcher>)
  {
    if payload == [] then Err(AssertFailed) else Ok(Matcher(kind, op, payload))
  }

  function ReadMatcher(bs: seq<byte>, p: nat): (r: Result<Matcher>)
    requires NodeAt(bs, p)
  {
    var c0 :- Next(bs, p, None);
    var kind :- TakeEnum(bs, c0, MATCHER_TYPES);
    var c1 :- Next(bs, p, Some(c0));
    var op :- TakeEnum(bs, c1, MATCHER_OPS);
    var c2 :- Next(bs, p, Some(c1));
    var len :- TakeNum(bs, c2, 8);
    var c3 :- Next(bs, p, Some(c2));
    var payload :- Take(bs, c3, (len - MATCHER_SIZE) % SIZE_MAX);
    NewMatcher(kind, op, payload)
  }

  /** A matcher comes back unless its payload is empty. */
  function MatcherBack(m: Matcher): (r: Result<Matcher>)
  {
    if m.payload == [] then Err(AssertFailed) else Ok(m)
  }

  lemma MatcherRoundTrip(bs: seq<byte>, p: nat, m: Matcher)
    requires At(bs, p, EncMatcher(m)) && |EncMatcher(m)| < SIZE_MAX
    ensures NodeAt(bs, p) && ReadMatcher(bs, p) == MatcherBack(m)
  {
    hide LE, ToLE, Concat, IndexIn, TakeNum, Take, Enum, TakeEnum, IsNode, NextChild, NodeAt, At, Pos, ChildIsValid;
    var cs := MatcherFields(m);
    MatcherFieldsAreNodes(m);
    NextIs(bs, p, cs, 0);
    NextIs(bs, p, cs, 1);
    NextIs(bs, p, cs, 2);
    NextIs(bs, p, cs, 3);
    MatcherTypeListed(m.kind);
    SmallEnumsListed(m.op, Accept, SetIp4, FrontCli);
    TakeEnumAt(bs, Pos(p, cs, 0), m.kind, MATCHER_TYPES);
    TakeEnumAt(bs, Pos(p, cs, 1), m.op, MATCHER_OPS);
    assert Pow256(8) == SIZE_MAX;
    TakeNumAt(bs, Pos(p, cs, 2), MATCHER_SIZE + |m.payload|, 8);
    TakeAt(bs, Pos(p, cs, 3), m.payload);
  }

  lemma MatcherFieldsAreNodes(m: Matcher)
    requires |EncMatcher(m)| < SIZE_MAX
    ensures AllNodes(MatcherFields(m)) && |m.payload| + 48 < SIZE_MAX
  {
    hide LE, ToLE, IsNode, Enum;
    var cs := MatcherFields(m);
    ConcatSplit(cs, 3);
    assert |Concat(cs[..3])| == 40 by {
      assert cs[..3] == [cs[0], cs[1], cs[2]];
      Concat3(cs[0], cs[1], cs[2]);
    }
    PackIsNode(Enum(m.kind, MATCHER_TYPES));
    PackIsNode(Enum(m.op, MATCHER_OPS));
    PackIsNode(ToLE(MATCHER_SIZE + |m.payload|, 8));
    PackIsNode(m.payload);
  }

  lemma Concat3(a: seq<byte>, b: seq<byte>, c: seq<byte>)
    ensures Concat([a, b, c]) == a + b + c
  {
    assert [a, b, c][1..] == [b, c] && [b, c][1..] == [c] && [c][1..] == [];
    assert Concat([c]) == c + [];
    assert Concat([b, c]) == b + Concat([c]);
  }

  // ----- lists -----

  function MapAll<T, U>(xs: seq<T>, f: T -> U): (ys: seq<U>)
    ensures |ys| == |xs|
    ensures forall i :: 0 <= i < |xs| ==> ys[i] == f(xs[i])
  {
    if xs == [] then [] else [f(xs[0])] + MapAll(xs[1..], f)
  }

  /** `bf_list_marsh`: a node with one child per element. */
  function EncList<T>(xs: seq<T>, enc: T -> seq<byte>): (b: seq<byte>)
  {
    Pack(Concat(MapAll(xs, enc)))
  }

  /** The values of a list of results, or its first error. */
  function Gather<T>(rs: seq<Result<T>>): (r: Result<seq<T>>)
  {
    if rs == [] then Ok([])
    else
      var x :- rs[0];
      var xs :- Gather(rs[1..]);
      Ok([x] + xs)
  }

  /** Every child after `prev`, read in order. */
  function ReadAll<T>(bs: seq<byte>, p: nat, prev: Option<nat>, read: nat -> Result<T>): (r: Result<seq<T>>)
    requires NodeAt(bs, p) && (prev.Some? ==> ChildIsValid(bs, p, prev.value))
    decreases Rest(bs, p, prev)
  {
    match NextChild(bs, p, prev)
    case None => Ok([])
    case Some(c) =>
      var x :- read(c);
      var xs :- ReadAll(bs, p, Some(c), read);
      Ok([x] + xs)
  }

  function Before(p: nat, cs: seq<seq<byte>>, i: nat): (r: Option<nat>)
    requires i <= |cs|
  {
    if i == 0 then None else Some(Pos(p, cs, i - 1))
  }

  /** What is read from a list whose children read as `rs`. */
  lemma {:induction false} ReadAllAt<T>(bs: seq<byte>, p: nat, cs: seq<seq<byte>>, i: nat, read: nat -> Result<T>, rs: seq<Result<T>>)
    requires |Concat(cs)| < SIZE_MAX && At(bs, p, Pack(Concat(cs))) && AllNodes(cs) && i <= |cs| == |rs|
    requires forall j :: 0 <= j < |cs| ==> read(Pos(p, cs, j)) == rs[j]
    ensures NodeAt(bs, p) && (i > 0 ==> ChildIsValid(bs, p, Pos(p, cs, i - 1)))
    ensures ReadAll(bs, p, Before(p, cs, i), read) == Gather(rs[i..])
    decreases |cs| - i
  {
    hide Concat, LE, IsNode, At, Pos, ChildIsValid, NextChild, NodeAt, Len, End, Rest;
    NextIs(bs, p, cs, i);
    if i < |cs| {
      ReadAllAt(bs, p, cs, i + 1, read, rs);
      assert rs[i..][0] == rs[i] && rs[i..][1..] == rs[i + 1..];
    }
  }

  /** An element comes back exactly when it is `good`. */
  function Back<T>(x: T, good: bool): (r: Result<T>)
  {
    if good then Ok(x) else Err(AssertFailed)
  }

  lemma {:induction false} GatherBack<T>(xs: seq<T>, good: T -> bool, rs: seq<Result<T>>)
    requires |rs| == |xs| && forall i :: 0 <= i < |xs| ==> rs[i] == Back(xs[i], good(xs[i]))
    ensures Gather(rs) == Back(xs, forall x :: x in xs ==> good(x))
  {
    if xs != [] {
      GatherBack(xs[1..], good, rs[1..]);
      assert xs == [xs[0]] + xs[1..];
      assert forall x :: x in xs ==> x == xs[0] || x in xs[1..];
      assert good(xs[0]) == (rs[0].Ok?);
      assert (forall x :: x in xs ==> good(x)) <==> good(xs[0]) && forall x :: x in xs[1..] ==> good(x);
    }
  }

  lemma {:induction false} ConcatLen(cs: seq<seq<byte>>, i: nat)
    requires i < |cs|
    ensures |cs[i]| <= |Concat(cs)|
  {
    if i > 0 {
      ConcatLen(cs[1..], i - 1);
    }
  }

  /** Lists round trip as their elements do. */
  lemma ListRoundTrip<T>(bs: seq<byte>, p: nat, xs: seq<T>, enc: T -> seq<byte>, good: T -> bool, read: nat -> Result<T>)
    requires At(bs, p, EncList(xs, enc)) && |EncList(xs, enc)| < SIZE_MAX
    requires forall x :: x in xs && |enc(x)| < SIZE_MAX ==> IsNode(enc(x))
    requires forall x, c :: x in xs && |enc(x)| < SIZE_MAX && At(bs, c, enc(x)) ==> read(c) == Back(x, good(x))
    ensures NodeAt(bs, p) && ReadAll(bs, p, None, read) == Back(xs, forall x :: x in xs ==> good(x))
  {
    hide Concat, LE, IsNode, At, Pos, ChildIsValid, NextChild, NodeAt, Len, End, Rest, Gather, ReadAll, MapAll, Back;
    var cs := MapAll(xs, enc);
    forall i | 0 <= i < |cs| ensures IsNode(cs[i]) {
      ConcatLen(cs, i);
      assert xs[i] in xs;
    }
    var rs := seq(|xs|, i requires 0 <= i < |xs| => Back(xs[i], good(xs[i])));
    forall j | 0 <= j < |cs| ensures read(Pos(p, cs, j)) == rs[j] {
      ConcatLen(cs, j);
      NextIs(bs, p, cs, j);
      assert xs[j] in xs && cs[j] == enc(xs[j]);
    }
    ReadAllAt(bs, p, cs, 0, read, rs);
    GatherBack(xs, good, rs);
    assert rs[0..] == rs;
  }

  // ----- rules -----

  predicate MatcherSound(m: Matcher)
  {
    m.payload != []
  }

  predicate RuleSound(r: Rule)
  {
    forall m :: m in r.matchers ==> MatcherSound(m)
  }

  function Bool(b: bool): (r: seq<byte>)
    ensures |r| == 1
  {
    [if b then 1 else 0]
  }

  function RuleFields(r: Rule): (cs: seq<seq<byte>>)
    ensures |cs| == 4
  {
    [Pack(ToLE(r.index, 4)), EncList(r.matchers, EncMatcher), Pack(Bool(r.counters)), Pack(Enum(r.verdict, VERDICTS))]
  }

  function EncRule(r: Rule): (b: seq<byte>)
  {
    Pack(Concat(RuleFields(r)))
  }

  function MatcherReader(bs: seq<byte>): nat -> Result<Matcher>
  {
    (c: nat) => if NodeAt(bs, c) then ReadMatcher(bs, c) else Err(OutOfBounds)
  }

  function TakeU32(bs: seq<byte>, c: nat): (r: Result<u32>)
  {
    var n :- TakeNum(bs, c, 4);
    assert Pow256(4) == 0x1_0000_0000;
    Ok(n)
  }

  function TakeBool(bs: seq<byte>, c: nat): (r: Result<bool>)
  {
    var b :- Take(bs, c, 1);
    Ok(b[0] != 0)
  }

  function ReadRule(bs: seq<byte>, p: nat): (r: Result<Rule>)
    requires NodeAt(bs, p)
  {
    var c0 :- Next(bs, p, None);
    var index :- TakeU32(bs, c0);
    var c1 :- Next(bs, p, Some(c0));
    var matchers :- ReadAll(bs, c1, None, MatcherReader(bs));
    var c2 :- Next(bs, p, Some(c1));
    var counters :- TakeBool(bs, c2);
    var c3 :- Next(bs, p, Some(c2));
    var verdict :- TakeEnum(bs, c3, VERDICTS);
    Ok(Rule(index, matchers, counters, verdict))
  }

  lemma MatchersRoundTrip(bs: seq<byte>, p: nat, ms: seq<Matcher>)
    requires At(bs, p, EncList(ms, EncMatcher)) && |EncList(ms, EncMatcher)| < SIZE_MAX
    ensures NodeAt(bs, p) && ReadAll(bs, p, None, MatcherReader(bs)) == Back(ms, forall m :: m in ms ==> MatcherSound(m))
  {
    hide ReadAll, ReadMatcher, EncList, IsNode, At, NodeAt, MatcherFields, Concat;
    forall m: Matcher | |EncMatcher(m)| < SIZE_MAX ensures IsNode(EncMatcher(m)) {
      PackIsNode(Concat(MatcherFields(m)));
    }
    forall m: Matcher, c: nat | m in ms && |EncMatcher(m)| < SIZE_MAX && At(bs, c, EncMatcher(m))
      ensures MatcherReader(bs)(c) == Back(m, MatcherSound(m))
    {
      MatcherRoundTrip(bs, c, m);
    }
    ListRoundTrip(bs, p, ms, EncMatcher, MatcherSound, MatcherReader(bs));
  }

  lemma RuleFieldsAreNodes(r: Rule)
    requires |EncRule(r)| < SIZE_MAX
    ensures AllNodes(RuleFields(r)) && |EncList(r.matchers, EncMatcher)| < SIZE_MAX
  {
    hide LE, ToLE, IsNode, Enum, Concat, MapAll;
    var cs := RuleFields(r);
    ConcatLen(cs, 1);
    PackIsNode(ToLE(r.index, 4));
    PackIsNode(Concat(MapAll(r.matchers, EncMatcher)));
    PackIsNode(Bool(r.counters));
    PackIsNode(Enum(r.verdict, VERDICTS));
  }

  lemma RuleRoundTrip(bs: seq<byte>, p: nat, r: Rule)
    requires At(bs, p, EncRule(r)) && |EncRule(r)| < SIZE_MAX
    ensures NodeAt(bs, p) && ReadRule(bs, p) == Back(r, RuleSound(r))
  {
    hide LE, ToLE, Concat, IndexIn, TakeNum, Take, Enum, TakeEnum, IsNode, NextChild, NodeAt, At, Pos, ChildIsValid, ReadAll, EncList, MatcherReader, MatcherSound;
    var cs := RuleFields(r);
    RuleFieldsAreNodes(r);
    NextIs(bs, p, cs, 0);
    NextIs(bs, p, cs, 1);
    NextIs(bs, p, cs, 2);
    NextIs(bs, p, cs, 3);
    SmallEnumsListed(Eq, r.verdict, SetIp4, FrontCli);
    assert Pow256(4) == 0x1_0000_0000;
    TakeNumAt(bs, Pos(p, cs, 0), r.index, 4);
    MatchersRoundTrip(bs, Pos(p, cs, 1), r.matchers);
    TakeAt(bs, Pos(p, cs, 2), Bool(r.counters));
    TakeEnumAt(bs, Pos(p, cs, 3), r.verdict, VERDICTS);
  }

  // ----- sets -----

  predicate SetOk(s: Set)
  {
    forall e :: e in s.elems ==> |e| == ElemSize(s.kind)
  }

  function SetFields(s: Set): (cs: seq<seq<byte>>)
    ensures |cs| == 2
  {
    [Pack(Enum(s.kind, SET_TYPES)), Pack(Concat(s.elems))]
  }

  function EncSet(s: Set): (b: seq<byte>)
  {
    Pack(Concat(SetFields(s)))
  }

  /** As many elements of `n` bytes as `data` holds. */
  function Chunks(data: seq<byte>, n: nat): (es: seq<seq<byte>>)
    requires n > 0
  {
    if |data| < n then [] else [data[..n]] + Chunks(data[n..], n)
  }

  lemma {:induction false} ChunksOfConcat(es: seq<seq<byte>>, n: nat)
    requires n > 0 && forall e :: e in es ==> |e| == n
    ensures Chunks(Concat(es), n) == es
  {
    if es != [] {
      var rest := Concat(es[1..]);
      ChunksOfConcat(es[1..], n);
      assert es[0] in es;
      assert (es[0] + rest)[..n] == es[0] && (es[0] + rest)[n..] == rest;
    }
  }

  function ReadSet(bs: seq<byte>, p: nat): (r: Result<Set>)
    requires NodeAt(bs, p)
  {
    var c0 :- Next(bs, p, None);
    var kind :- TakeEnum(bs, c0, SET_TYPES);
    var c1 :- Next(bs, p, Some(c0));
    Ok(Set(kind, Chunks(bs[c1 + HDR..End(bs, c1)], ElemSize(kind))))
  }

  lemma SetRoundTrip(bs: seq<byte>, p: nat, s: Set)
    requires At(bs, p, EncSet(s)) && |EncSet(s)| < SIZE_MAX && SetOk(s)
    ensures NodeAt(bs, p) && ReadSet(bs, p) == Ok(s)
  {
    hide LE, ToLE, Concat, IndexIn, TakeNum, Take, Enum, TakeEnum, IsNode, NextChild, At, Pos, ChildIsValid, Chunks, ElemSize, Len;
    var cs := SetFields(s);
    ConcatLen(cs, 1);
    PackIsNode(Enum(s.kind, SET_TYPES));
    PackIsNode(Concat(s.elems));
    NextIs(bs, p, cs, 0);
    NextIs(bs, p, cs, 1);
    SmallEnumsListed(Eq, Accept, s.kind, FrontCli);
    TakeEnumAt(bs, Pos(p, cs, 0), s.kind, SET_TYPES);
    DataAt(bs, Pos(p, cs, 1), Concat(s.elems));
    ChunksOfConcat(s.elems, ElemSize(s.kind));
  }

  lemma DataAt(bs: seq<byte>, c: nat, data: seq<byte>)
    requires At(bs, c, Pack(data)) && |data| < SIZE_MAX
    ensures NodeAt(bs, c) && bs[c + HDR..End(bs, c)] == data
  {
    PackIsNode(data);
    AtNode(bs, c, Pack(data));
    TakeAt(bs, c, data);
  }
}
