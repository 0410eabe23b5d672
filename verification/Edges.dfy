/** Concrete chains and packets for which the generated program departs from the documentation. */
module Edges {
  import opened Bytes
  import opened Bpf
  import opened Model
  import opened Machine
  import opened Codegen
  import opened Spec
  import opened SwitchProofs
  import opened Vm
  import opened Compiler
  import opened Premises
  import opened Documented
  import opened Promises

  // ----- programs of one rule -----

  const NO_OPTS := HookOpts(0, 0, None, None, false)

  /** Drop what matcher `m` matches, accept the rest, at the local-input hook. */
  function DropRule(m: Matcher, sets: seq<Set>): (c: Chain)
  {
    OneRule(NfLocalIn, NO_OPTS, Accept, sets, m, Drop)
  }

  /** The map of a set, with its descriptor. */
  function MapOf(s: Set, fd: i32): (r: SetMap)
  {
    SetMap(fd, ElemSize(s.kind), set e | e in s.elems)
  }

  /** One map for each set, each with a descriptor of its own. */
  function MapsOf(sets: seq<Set>): (r: seq<SetMap>)
    requires |sets| < 0x7fff_ffff
    ensures MapsOk(r) && |r| == |sets| && forall i :: 0 <= i < |r| ==> r[i] == MapOf(sets[i], i + 1)
  {
    if sets == [] then [] else
      var n := |sets| - 1;
      MapsOf(sets[..n]) + [MapOf(sets[n], n + 1)]
  }

  /** The kernel gives each map a descriptor of its own. */
  predicate DistinctFds(env: Env)
  {
    && (forall i, j :: 0 <= i < j < |env.sets| ==> env.sets[i].fd != env.sets[j].fd)
    && forall i :: 0 <= i < |env.sets| ==> env.sets[i].fd != env.cmapFd
  }

  /** The program of the chain ends with verdict `v` on the packet, whatever the counters are. */
  ghost predicate Gives(chain: Chain, env: Env, v: Verdict)
    requires Compiles(chain, env.btf) && Terminal(v)
  {
    forall counters: seq<Counter> :: EndsWith(chain, env, counters, v)
  }

  ghost predicate EndsWith(chain: Chain, env: Env, counters: seq<Counter>, v: Verdict)
    requires Compiles(chain, env.btf) && Terminal(v)
  {
    exists final :: Reaches(ChainImage(chain, env), env, Start(counters), Halted(Sext64(VerdictCode(chain.hook, v)), final))
  }

  /** The documentation says `doc` for the packet, the program that is generated says `code`. */
  ghost predicate Departs(chain: Chain, env: Env, doc: Verdict, code: Verdict)
  {
    && Compiles(chain, env.btf) && Loaded(chain, env) && DistinctFds(env) && Terminal(code)
    && DocEval(chain, env).verdict == doc != code && Gives(chain, env, code)
  }

  function Verdicts(b: bool): (v: Verdict)
    ensures Terminal(v)
  {
    if b then Drop else Accept
  }

  lemma LoadedRule(m: Matcher, sets: seq<Set>, env: Env)
    requires |sets| < 0x7fff_ffff && EnvOk(env) && env.hook == NfLocalIn && env.sets == MapsOf(sets)
    ensures DistinctFds(env)
    ensures Loaded(DropRule(m, sets), env)
  {
    hide MapsOf;
    FdsOk(env);
  }

  lemma FdsOk(env: Env)
    requires EnvOk(env)
    ensures EnvOk(env) && forall i :: 0 <= i < |env.sets| ==> env.sets[i].fd != env.cmapFd
  {
    forall i | 0 <= i < |env.sets| ensures env.sets[i].fd != env.cmapFd {
      assert env.sets[i] in env.sets;
    }
  }

  lemma RuleEval(m: Matcher, sets: seq<Set>, env: Env)
    requires PayloadOk(m) && EnvOk(env) && Parse(env).Some? && Loaded(DropRule(m, sets), env)
    ensures RulesOk(DropRule(m, sets).rules)
    ensures Eval(DropRule(m, sets), env).verdict == Verdicts(Accepts(m, ZeroKeys(sets), Parse(env).value))
    ensures DocEval(DropRule(m, sets), env).verdict == Verdicts(Matches(m, sets, Parse(env).value))
  {
    hide Parse, EnvOk, Accepts, Matches, Loaded, PayloadOk, ZeroKeys, SetKeys, EvalRules, DocRules;
    var c := DropRule(m, sets);
    LoadedKeys(c, env);
    RuleOutcomes(m, sets, ZeroKeys(sets), Parse(env).value, c.rules, Outcome(Accept, [1]));
  }

  lemma RuleOutcomes(m: Matcher, sets: seq<Set>, keys: set<seq<byte>>, v: View, rules: seq<Rule>, policy: Outcome)
    requires PayloadOk(m) && ViewOk(v) && rules == [Rule(0, [m], true, Drop)] && policy.verdict == Accept
    ensures RulesOk(rules)
    ensures EvalRules(rules, keys, v, policy).verdict == Verdicts(Accepts(m, keys, v))
    ensures DocRules(rules, sets, v, policy).verdict == Verdicts(Matches(m, sets, v))
  {
    hide Accepts, Matches, PayloadOk;
    assert rules[1..] == [] && rules[0].matchers == [m];
    assert AcceptsAll([m], keys, v) <==> Accepts(m, keys, v);
    assert MatchesAll([m], sets, v) <==> Matches(m, sets, v);
  }

  /** Where the two meanings of a matcher differ on a packet, a chain with that matcher gives the other verdict. */
  lemma Departure(m: Matcher, sets: seq<Set>, env: Env)
    requires PayloadOk(m) && MatcherCode(m, sets).Ok? && SetsFit(DropRule(m, sets))
    requires |sets| < 0x7fff_ffff && EnvOk(env) && env.hook == NfLocalIn && env.sets == MapsOf(sets) && Parse(env).Some?
    requires !Agrees(m, sets, Parse(env).value)
    ensures var doc := Matches(m, sets, Parse(env).value); Departs(DropRule(m, sets), env, Verdicts(doc), Verdicts(!doc))
  {
    hide Parse, EnvOk, Accepts, Matches, Loaded, PayloadOk, ZeroKeys, MatcherCode, Compiles, ChainImage, Reaches, Start, SetsFit, Eval, DocEval, Count;
    var c := DropRule(m, sets);
    LoadedRule(m, sets, env);
    OneRuleCompiles(NfLocalIn, NO_OPTS, Accept, sets, m, Drop, env.btf);
    RuleEval(m, sets, env);
    var v := Verdicts(Accepts(m, ZeroKeys(sets), Parse(env).value));
    forall counters: seq<Counter> ensures EndsWith(c, env, counters, v) {
      CompilerCorrect(c, env, counters);
    }
  }

  lemma NoLookup(m: Matcher, sets: seq<Set>)
    requires KeyLen(m) == 0
    ensures SetsFit(DropRule(m, sets))
  {
  }

  // ----- the edges -----

  lemma PairAt(p: seq<byte>, i: nat)
    requires i + 2 <= |p|
    ensures U16At(p, i) == p[i] + 0x100 * (p[i + 1] as int)
  {
    LE2(p[i..i + 2]);
  }

  /** Drop TCP ports 80 to 443: port 300 is accepted, port 65376 is dropped. */
  lemma RangeEdge()
    ensures var c := DropRule(Matcher(TcpDport, Range, [80, 0, 187, 1]), []);
            Departs(c, LocalIn(AF_INET, PortPacket(IPPROTO_TCP, 2, 300), 1, []), Drop, Accept)
            && Departs(c, LocalIn(AF_INET, PortPacket(IPPROTO_TCP, 2, 65376), 1, []), Accept, Drop)
  {
    hide Departs, Parse, EnvOk, PortPacket;
    var m := Matcher(TcpDport, Range, [80, 0, 187, 1]);
    PairAt(m.payload, 0);
    PairAt(m.payload, 2);
    PortDeparture(m, 300);
    PortDeparture(m, 65376);
  }

  /** A TCP port on which the comparison departs. */
  lemma PortDeparture(m: Matcher, p: u16)
    requires PayloadOk(m) && m.kind == TcpDport && m.op == Range && PortCmp(Range, m.payload, p) != PortMatches(Range, m.payload, p)
    ensures var doc := PortMatches(Range, m.payload, p);
            Departs(DropRule(m, []), LocalIn(AF_INET, PortPacket(IPPROTO_TCP, 2, p), 1, []), Verdicts(doc), Verdicts(!doc))
  {
    hide Departs, Parse, EnvOk, PortPacket, PortCmp, PortMatches, U16At;
    SeenPort(IPPROTO_TCP, 2, p, []);
    assert MapsOf([]) == [];
    NoLookup(m, []);
    Departure(m, [], LocalIn(AF_INET, PortPacket(IPPROTO_TCP, 2, p), 1, []));
  }

  /** Drop port 0, which stands for "no port" in the generated code: it is accepted. */
  lemma PortZeroEdge()
    ensures Departs(DropRule(Matcher(MetaDport, Eq, [0, 0]), []),
                    LocalIn(AF_INET, PortPacket(IPPROTO_TCP, 2, 0), 1, []), Drop, Accept)
  {
    hide Departs, Parse, EnvOk, PortPacket;
    var m := Matcher(MetaDport, Eq, [0, 0]);
    PairAt(m.payload, 0);
    SeenPort(IPPROTO_TCP, 2, 0, []);
    assert MapsOf([]) == [];
    NoLookup(m, []);
    Departure(m, [], LocalIn(AF_INET, PortPacket(IPPROTO_TCP, 2, 0), 1, []));
  }

  /** Drop what comes from interface 1: packets of interface 65537 are dropped too. */
  lemma IfindexEdge()
    ensures Departs(DropRule(Matcher(MetaIfindex, Eq, [1, 0, 0, 0]), []), LocalIn(0, [], 0x1_0001, []), Accept, Drop)
  {
    hide Departs, Parse, EnvOk;
    var m := Matcher(MetaIfindex, Eq, [1, 0, 0, 0]);
    OneIndex(m.payload);
    SeenOther(0x1_0001, []);
    assert MapsOf([]) == [];
    NoLookup(m, []);
    Departure(m, [], LocalIn(0, [], 0x1_0001, []));
  }

  lemma OneIndex(p: seq<byte>)
    requires p == [1, 0, 0, 0]
    ensures U32At(p, 0) == 1
  {
    assert p[0..4] == p == ToLE(1, 4) by {
      assert ToLE(0, 3) == [0] + ToLE(0, 2) && ToLE(0, 2) == [0] + ToLE(0, 1) && ToLE(0, 1) == [0] + ToLE(0, 0);
    }
    assert Pow256(4) == 0x1_0000_0000;
    LEOfToLE(1, 4);
  }

  /** Mask with a hole in its first byte: source 100:: is in the network of :: but is accepted. */
  lemma MaskEdge(src: seq<byte>, m: Matcher)
    requires |src| == 16 && src[0] == 1 && (forall i :: 0 < i < 16 ==> src[i] == 0)
    requires m.kind == Ip6Saddr && m.op == Eq && |m.payload| == 32
    requires forall i :: 0 <= i < 17 ==> m.payload[i] == 0
    requires forall i :: 17 <= i < 32 ==> m.payload[i] == 0xff
    ensures Departs(DropRule(m, []), LocalIn(AF_INET6, HdrWith(40, 8, src), 1, []), Drop, Accept)
  {
    hide Departs, Parse, EnvOk, HdrWith, Ip6Code, InNetwork, Ip6Eq;
    MaskHole(src, m.payload[0..16], m.payload[16..32]);
    SeenIp6Addr(8, src, []);
    assert MapsOf([]) == [];
    NoLookup(m, []);
    Departure(m, [], LocalIn(AF_INET6, HdrWith(40, 8, src), 1, []));
  }

  lemma MaskHole(x: seq<byte>, addr: seq<byte>, mask: seq<byte>)
    requires |x| == |addr| == |mask| == 16
    requires x[0] == 1 && addr[0] == 0 && mask[0] == 0 && forall i :: 0 < i < 16 ==> x[i] == addr[i] == 0 && mask[i] == 0xff
    ensures InNetwork(x, addr, mask) && !Ip6Eq(x, addr, mask)
  {
    forall k | 0 <= k < 8 ensures !Bit(0, k) {
      ZeroBit(k);
    }
    assert AndBytes(addr, mask)[0] == 0;
  }

  /** Drop the sources of a set: a UDP source that is in it is accepted, the generated switch lists TCP twice. */
  lemma UdpSetEdge(e: seq<byte>)
    requires |e| == 18
    ensures var sets := [Set(SetIp6Port, [e])];
            Departs(DropRule(Matcher(SetSrcIp6Port, In, [0, 0, 0, 0]), sets),
                    LocalIn(AF_INET6, KeyPacket(IPPROTO_UDP, e), 1, MapsOf(sets)), Drop, Accept)
  {
    hide Departs, Parse, EnvOk, KeyPacket, MapsOf, SetCode;
    var m, sets := Matcher(SetSrcIp6Port, In, [0, 0, 0, 0]), [Set(SetIp6Port, [e])];
    SeenKey(IPPROTO_UDP, e, MapsOf(sets));
    UdpDiffers(m, sets, e, Parse(LocalIn(AF_INET6, KeyPacket(IPPROTO_UDP, e), 1, MapsOf(sets))).value);
    KeyRuleFits(m, sets);
    Departure(m, sets, LocalIn(AF_INET6, KeyPacket(IPPROTO_UDP, e), 1, MapsOf(sets)));
  }

  lemma UdpDiffers(m: Matcher, sets: seq<Set>, e: seq<byte>, v: View)
    requires m == Matcher(SetSrcIp6Port, In, [0, 0, 0, 0]) && sets == [Set(SetIp6Port, [e])] && |e| == 18
    requires ViewOk(v) && v.l3.Ip6? && v.l4.L4Hdr? && v.l4.proto == IPPROTO_UDP && v.l3.hdr[8..24] + v.l4.hdr[0..2] == e
    ensures PayloadOk(m) && Matches(m, sets, v) && !Agrees(m, sets, v)
  {
    ZeroIndex(m.payload);
    assert e in sets[0].elems;
  }

  /** A matcher on the kind of set that set 0 is. */
  lemma KeyRuleFits(m: Matcher, sets: seq<Set>)
    requires sets != [] && ElemSize(sets[0].kind) <= KeyLen(m)
    ensures SetsFit(DropRule(m, sets))
  {
  }

  /** Drop the sources of set 1: one that is in set 1 and not in set 0 is accepted, and the other way round. */
  lemma SecondSetEdge(a: seq<byte>, b: seq<byte>)
    requires |a| == |b| == 16 && a != b
    ensures var sets := [Set(SetIp6, [a]), Set(SetIp6, [b])];
            var c := DropRule(Matcher(SetSrcIp6, In, [1, 0, 0, 0]), sets);
            Departs(c, LocalIn(AF_INET6, HdrWith(40, 8, b), 1, MapsOf(sets)), Drop, Accept)
            && Departs(c, LocalIn(AF_INET6, HdrWith(40, 8, a), 1, MapsOf(sets)), Accept, Drop)
  {
    hide Departs, Parse, EnvOk, HdrWith, MapsOf, SetCode;
    var m, sets := Matcher(SetSrcIp6, In, [1, 0, 0, 0]), [Set(SetIp6, [a]), Set(SetIp6, [b])];
    OneIndex(m.payload);
    SeenIp6Addr(8, a, MapsOf(sets));
    SeenIp6Addr(8, b, MapsOf(sets));
    assert a in sets[0].elems && b in sets[1].elems && ZeroKeys(sets) == {a};
    assert Hit({a}, a) && !Hit({a}, b);
    KeyRuleFits(m, sets);
    Departure(m, sets, LocalIn(AF_INET6, HdrWith(40, 8, b), 1, MapsOf(sets)));
    Departure(m, sets, LocalIn(AF_INET6, HdrWith(40, 8, a), 1, MapsOf(sets)));
  }

  /** A switch without default runs its first case for a value that is not listed. */
  lemma SwitchEdge(i: Insn)
    ensures var cases := [Case(6, [i])]; Chosen(cases, None, 17) == [i] && DocumentedCase(cases, None, 17) == []
  {
    var cases := [Case(6, [i])];
    assert cases[1..] == [];
  }
}
