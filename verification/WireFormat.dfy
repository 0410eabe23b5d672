/** The bytes clients and daemon exchange: numbers of the enumerations, widths of set elements. */
module WireFormat {
  import opened Bytes
  import opened Model
  import opened Marsh
  import opened Codec
  import opened ChainCodec

  function TypeNumber(k: MatcherType): (n: byte)
  {
    match k
    case MetaIfindex => 0 case MetaL3Proto => 1 case MetaL4Proto => 2 case MetaSport => 3 case MetaDport => 4
    case Ip4SrcAddr => 5 case Ip4DstAddr => 6 case Ip4Proto => 7 case Ip6Saddr => 8 case Ip6Daddr => 9
    case TcpSport => 10 case TcpDport => 11 case TcpFlags => 12 case UdpSport => 13 case UdpDport => 14
    case SetSrcIp6Port => 15 case SetSrcIp6 => 16
  }

  function OpNumber(op: MatcherOp): (n: byte)
  {
    match op case Eq => 0 case Ne => 1 case Any => 2 case All => 3 case In => 4 case Range => 5
  }

  function VerdictNumber(v: Verdict): (n: byte)
  {
    match v case Accept => 0 case Drop => 1 case Continue => 2
  }

  function SetNumber(t: SetType): (n: byte)
  {
    match t case SetIp4 => 0 case SetIp6Port => 1 case SetIp6 => 2
  }

  function FrontNumber(f: Front): (n: byte)
  {
    match f case FrontIpt => 0 case FrontNft => 1 case FrontCli => 2
  }

  function HookNumber(h: Hook): (n: byte)
  {
    match h
    case Xdp => 0 case TcIngress => 1 case NfPreRouting => 2 case NfLocalIn => 3 case NfForward => 4
    case CgroupIngress => 5 case CgroupEgress => 6 case NfLocalOut => 7 case NfPostRouting => 8 case TcEgress => 9
  }

  /** A number below 256 on 4 and on 8 bytes. */
  function Word4(n: byte): (r: seq<byte>) { [n, 0, 0, 0] }
  function Word8(n: byte): (r: seq<byte>) { [n, 0, 0, 0, 0, 0, 0, 0] }

  lemma {:induction false} ZeroLE(k: nat)
    ensures forall i :: 0 <= i < k ==> ToLE(0, k)[i] == 0
  {
    if k > 0 {
      ZeroLE(k - 1);
    }
  }

  lemma SmallLE(n: byte)
    ensures ToLE(n, 4) == Word4(n) && ToLE(n, 8) == Word8(n)
  {
    ZeroLE(3);
    ZeroLE(7);
  }

  /** In a list without repetitions, an element's index is where it is. */
  lemma {:induction false} IndexAt<T>(xs: seq<T>, i: nat)
    requires i < |xs| && forall j, k :: 0 <= j < k < |xs| ==> xs[j] != xs[k]
    ensures IndexIn(xs[i], xs) == i
  {
    if i > 0 {
      assert xs[0] != xs[i] && xs[1..][i - 1] == xs[i];
      IndexAt(xs[1..], i - 1);
    }
  }

  lemma TypeBytes(k: MatcherType)
    ensures Enum(k, MATCHER_TYPES) == Word4(TypeNumber(k))
  {
    hide ToLE, IndexIn;
    var xs := MATCHER_TYPES;
    assert xs[TypeNumber(k)] == k;
    forall i | 0 <= i < |xs| ensures TypeNumber(xs[i]) == i {
    }
    IndexAt(xs, TypeNumber(k));
    SmallLE(TypeNumber(k));
  }

  lemma HookBytes(h: Hook)
    ensures Enum(h, HOOKS) == Word4(HookNumber(h))
  {
    hide ToLE, IndexIn;
    var xs := HOOKS;
    assert xs[HookNumber(h)] == h;
    forall i | 0 <= i < |xs| ensures HookNumber(xs[i]) == i {
    }
    IndexAt(xs, HookNumber(h));
    SmallLE(HookNumber(h));
  }

  lemma SmallEnumBytes(op: MatcherOp, v: Verdict, t: SetType, f: Front)
    ensures Enum(op, MATCHER_OPS) == Word4(OpNumber(op))
    ensures Enum(v, VERDICTS) == Word4(VerdictNumber(v))
    ensures Enum(t, SET_TYPES) == Word4(SetNumber(t))
    ensures Enum(f, FRONTS) == Word4(FrontNumber(f))
  {
    hide ToLE, IndexIn;
    assert MATCHER_OPS[OpNumber(op)] == op && VERDICTS[VerdictNumber(v)] == v && SET_TYPES[SetNumber(t)] == t;
    IndexAt(MATCHER_OPS, OpNumber(op));
    IndexAt(VERDICTS, VerdictNumber(v));
    IndexAt(SET_TYPES, SetNumber(t));
    assert FRONTS[FrontNumber(f)] == f;
    IndexAt(FRONTS, FrontNumber(f));
    SmallLE(FrontNumber(f));
    SmallLE(OpNumber(op));
    SmallLE(VerdictNumber(v));
    SmallLE(SetNumber(t));
  }

  lemma Concat4(a: seq<byte>, b: seq<byte>, c: seq<byte>, d: seq<byte>)
    ensures Concat([a, b, c, d]) == a + b + c + d
  {
    assert [a, b, c, d][1..] == [b, c, d];
    Concat3(b, c, d);
    assert a + (b + c + d) == a + b + c + d;
  }

  /** A matcher on the wire: type, operator, size of the structure with its payload, payload. */
  lemma MatcherBytes(m: Matcher)
    ensures var n := |m.payload|;
            EncMatcher(m) == ToLE(48 + n, 8)
                             + (Word8(4) + Word4(TypeNumber(m.kind))) + (Word8(4) + Word4(OpNumber(m.op)))
                             + (Word8(8) + ToLE(16 + n, 8)) + (ToLE(n, 8) + m.payload)
  {
    hide ToLE, Enum, Concat, Word4, Word8, TypeNumber, OpNumber;
    TypeBytes(m.kind);
    SmallEnumBytes(m.op, Accept, SetIp4, FrontCli);
    SmallLE(4);
    SmallLE(8);
    var cs := MatcherFields(m);
    Concat4(cs[0], cs[1], cs[2], cs[3]);
    assert cs == [cs[0], cs[1], cs[2], cs[3]];
    Regroup(ToLE(48 + |m.payload|, 8), cs[0], cs[1], cs[2], cs[3]);
  }

  lemma Regroup(h: seq<byte>, a: seq<byte>, b: seq<byte>, c: seq<byte>, d: seq<byte>)
    ensures h + (a + b + c + d) == h + a + b + c + d
  {
  }

  /** A length on 8 bytes, low byte first, and the data. */
  function Sized(data: seq<byte>): (b: seq<byte>)
  {
    ToLE(|data|, 8) + data
  }

  lemma Concat5(a: seq<byte>, b: seq<byte>, c: seq<byte>, d: seq<byte>, e: seq<byte>)
    ensures Concat([a, b, c, d, e]) == a + b + c + d + e
  {
    assert [a, b, c, d, e][1..] == [b, c, d, e];
    Concat4(b, c, d, e);
    assert a + (b + c + d + e) == a + b + c + d + e;
  }

  /** A rule: index, matchers, whether it counts, verdict. */
  lemma RuleBytes(r: Rule)
    ensures EncRule(r) ==
            Sized(Sized(ToLE(r.index, 4)) + Sized(Concat(MapAll(r.matchers, EncMatcher)))
                  + Sized([if r.counters then 1 else 0]) + Sized(Word4(VerdictNumber(r.verdict))))
  {
    hide ToLE, Enum, Concat, Word4, VerdictNumber, MapAll;
    SmallEnumBytes(Eq, r.verdict, SetIp4, FrontCli);
    var cs := RuleFields(r);
    Concat4(cs[0], cs[1], cs[2], cs[3]);
    assert cs == [cs[0], cs[1], cs[2], cs[3]];
  }

  /** A set: its kind, and the elements one after the other. */
  lemma SetBytes(s: Set)
    ensures EncSet(s) == Sized(Sized(Word4(SetNumber(s.kind))) + Sized(Concat(s.elems)))
  {
    hide ToLE, Enum, Word4, SetNumber;
    SmallEnumBytes(Eq, Accept, s.kind, FrontCli);
    var a, b := Sized(Word4(SetNumber(s.kind))), Sized(Concat(s.elems));
    assert [a, b][1..] == [b];
    assert Concat([b]) == b + Concat([]);
  }

  /** A string and its NUL, or nothing. */
  function Text(s: Option<seq<byte>>): (b: seq<byte>)
  {
    match s case Some(x) => x + [0] case None => []
  }

  /** Hook options: which are used, interface, cgroup, name, attach. */
  lemma OptsBytes(o: HookOpts)
    ensures EncOpts(o) ==
            Sized(Sized(ToLE(o.usedOpts, 4)) + Sized(ToLE(o.ifindex, 4)) + Sized(Text(o.cgroup)) + Sized(Text(o.name))
                  + Sized([if o.attach then 1 else 0]))
  {
    hide ToLE, Concat;
    var cs := OptsFields(o);
    Concat5(cs[0], cs[1], cs[2], cs[3], cs[4]);
    assert cs == [cs[0], cs[1], cs[2], cs[3], cs[4]];
  }

  /** A chain: hook, policy, hook options, sets, rules. */
  lemma ChainBytes(c: Chain)
    ensures EncChain(c) ==
            Sized(Sized(Word4(HookNumber(c.hook))) + Sized(Word4(VerdictNumber(c.policy))) + EncOpts(c.opts)
                  + Sized(Concat(MapAll(c.sets, EncSet))) + Sized(Concat(MapAll(c.rules, EncRule))))
  {
    hide ToLE, Enum, Concat, Word4, VerdictNumber, HookNumber, MapAll, EncOpts;
    HookBytes(c.hook);
    SmallEnumBytes(Eq, c.policy, SetIp4, FrontCli);
    var cs := ChainFields(c);
    Concat5(cs[0], cs[1], cs[2], cs[3], cs[4]);
    assert cs == [cs[0], cs[1], cs[2], cs[3], cs[4]];
  }

  /** Elements of 4, 16 and 16 + 2 bytes: IPv4 addresses, IPv6 addresses, IPv6 addresses with a port. */
  predicate ElemsOk(s: Set)
  {
    match s.kind
    case SetIp4 => forall e :: e in s.elems ==> |e| == 4
    case SetIp6 => forall e :: e in s.elems ==> |e| == 16
    case SetIp6Port => forall e :: e in s.elems ==> |e| == 16 + 2
  }

  /** A set of such elements comes back, whatever they are. */
  lemma ElemsRoundTrip(s: Set)
    requires ElemsOk(s) && |EncSet(s)| < SIZE_MAX
    ensures NodeAt(EncSet(s), 0) && ReadSet(EncSet(s), 0) == Ok(s)
  {
    hide EncSet, ReadSet;
    AtWhole(EncSet(s));
    SetRoundTrip(EncSet(s), 0, s);
  }
}
