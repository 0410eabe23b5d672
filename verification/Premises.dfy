/** The premises of the compiler theorem can be met: lengths of generated code, and chains that compile. */
module Premises {
  import opened Bytes
  import opened Bpf
  import opened Model
  import opened Machine
  import opened Fragment
  import opened Codegen
  import opened Spec
  import opened Shape
  import opened Compiler

  lemma SwitchLen(reg: Reg, cases: seq<Case>, default: Option<seq<Insn>>)
    requires |cases| <= 4 && (forall c :: c in cases ==> |c.body| <= 7) && (default.Some? ==> |default.value| <= 1)
    ensures |SwitchCode(reg, cases, default)| <= 40
  {
    BodiesShort(cases);
  }

  lemma StubLens(h: Hook, slot: int)
    ensures |L3Stub(h, slot)| <= 100 && |L4Stub(h, slot)| <= 100 && |L2Stub(h, slot)| <= 20 && |DynptrStub(h, slot)| <= 20
  {
    hide SwitchCode, SliceStub, ErrorExit;
    NextLen();
    SwitchLen(7, [Case(Swap16(ETH_P_IP), [Mov64Imm(4, 20)]), Case(Swap16(ETH_P_IPV6), [Mov64Imm(4, 40)])], Some([Mov64Imm(7, 0)]));
    SwitchLen(8, [Case(IPPROTO_TCP, [Mov64Imm(4, 20)]), Case(IPPROTO_UDP, [Mov64Imm(4, 8)]),
                  Case(IPPROTO_ICMP, [Mov64Imm(4, 8)]), Case(IPPROTO_ICMPV6, [Mov64Imm(4, 8)])], Some([Mov64Imm(8, 0)]));
  }

  lemma HookLen(h: Hook, btf: Btf)
    ensures |HookPrologue(h, btf)| <= 60
  {
    hide SwitchCode;
    var cases := [Case(AF_INET, [Mov64Imm(7, Swap16(ETH_P_IP))]), Case(AF_INET6, [Mov64Imm(7, Swap16(ETH_P_IPV6))])];
    SwitchLen(2, cases, Some([Mov64Imm(7, 0)]));
    SwitchLen(3, cases, Some([Mov64Imm(7, 0)]));
  }

  lemma PrologueLen(h: Hook, btf: Btf, slot: int)
    ensures |StartCode() + Prologue(h, btf, slot)| <= 400
  {
    hide HookPrologue, L3Stub, L4Stub, L2Stub, DynptrStub;
    HookLen(h, btf);
    StubLens(h, slot);
  }

  lemma MetaLen(m: Matcher)
    requires PayloadOk(m) && m.kind in {MetaIfindex, MetaL3Proto, MetaL4Proto, MetaSport, MetaDport} && MetaCode(m).Ok?
    ensures |MetaCode(m).value| <= 60
  {
    hide SwitchCode, U16At, U32At, ToI32;
    var off := PortOff(m.kind);
    SwitchLen(8, [Case(IPPROTO_TCP, [Ldx(H, 1, 6, off)]), Case(IPPROTO_UDP, [Ldx(H, 1, 6, off)])], Some([Mov64Imm(1, 0)]));
  }

  lemma SetLen(m: Matcher)
    requires PayloadOk(m) && m.kind in {SetSrcIp6Port, SetSrcIp6}
    ensures |SetCode(m)| <= 60
  {
    hide SwitchCode, U32At;
    SwitchLen(8, [Case(IPPROTO_TCP, [Ldx(H, 3, 6, 0)]), Case(IPPROTO_TCP, [Ldx(H, 3, 6, 0)])], Some([Mov64Imm(3, 0)]));
  }

  lemma Ip6Len(m: Matcher)
    requires PayloadOk(m) && m.kind in {Ip6Saddr, Ip6Daddr}
    ensures |Ip6Code(m)| <= 60
  {
    hide LoadImm64, AndBytes;
  }

  lemma MatcherLen(m: Matcher, sets: seq<Set>)
    requires PayloadOk(m) && MatcherCode(m, sets).Ok?
    ensures |MatcherCode(m, sets).value| <= 60
  {
    hide MetaCode, Ip6Code, SetCode, U32At, U16At, ToI32, PayloadOk;
    match m.kind
    case MetaIfindex | MetaL3Proto | MetaL4Proto | MetaSport | MetaDport => MetaLen(m);
    case Ip4SrcAddr | Ip4DstAddr | Ip4Proto => Ip4Len(m, sets);
    case Ip6Saddr | Ip6Daddr => Ip6Len(m);
    case TcpSport | TcpDport | TcpFlags | UdpSport | UdpDport => L4MatcherLen(m);
    case SetSrcIp6Port | SetSrcIp6 => SetLen(m);
  }

  lemma Ip4Len(m: Matcher, sets: seq<Set>)
    requires PayloadOk(m) && m.kind in {Ip4SrcAddr, Ip4DstAddr, Ip4Proto} && Ip4Code(m, sets).Ok?
    ensures |Ip4Code(m, sets).value| <= 60
  {
    hide U32At, ToI32;
  }

  lemma L4MatcherLen(m: Matcher)
    requires PayloadOk(m) && m.kind in {TcpSport, TcpDport, TcpFlags, UdpSport, UdpDport} && L4Code(m).Ok?
    ensures |L4Code(m).value| <= 60
  {
    hide U16At;
  }

  /** A chain of one rule with one matcher. */
  function OneRule(h: Hook, opts: HookOpts, policy: Verdict, sets: seq<Set>, m: Matcher, v: Verdict): (c: Chain)
  {
    Chain(h, opts, policy, sets, [Rule(0, [m], true, v)])
  }

  lemma {:induction false} OneMatcherCode(m: Matcher, sets: seq<Set>)
    requires PayloadOk(m) && MatcherCode(m, sets).Ok?
    ensures PayloadsOk([m]) && MatchersCode([m], sets) == MatcherCode(m, sets)
  {
    hide MatcherCode, PayloadOk;
    assert [m][1..] == [];
    var a := MatcherCode(m, sets).value;
    assert a + [] == a;
  }

  lemma OneRuleCode(h: Hook, r: Rule, sets: seq<Set>)
    requires PayloadsOk(r.matchers) && RuleCode(h, r, sets).Ok?
    ensures RulesOk([r]) && RulesCode(h, [r], sets) == Ok(LinkNext(RuleCode(h, r, sets).value))
  {
    hide RuleCode, PayloadsOk, LinkNext;
    assert [r][1..] == [];
    var a := LinkNext(RuleCode(h, r, sets).value);
    assert a + [] == a;
  }

  /**
   * The premises can be met: at every hook, with every policy, every matcher the generator accepts
   * makes a chain that compiles.
   */
  lemma OneRuleCompiles(h: Hook, opts: HookOpts, policy: Verdict, sets: seq<Set>, m: Matcher, v: Verdict, btf: Btf)
    requires Terminal(policy) && PayloadOk(m) && MatcherCode(m, sets).Ok?
    ensures Compiles(OneRule(h, opts, policy, sets, m, v), btf)
  {
    hide StartCode, Prologue, MatcherCode, PayloadOk, CountCode, ReturnCode, SubCode, LinkNext, MatchersCode, RulesCode, ShortJumps;
    var r := Rule(0, [m], true, v);
    MatcherLen(m, sets);
    OneMatcherCode(m, sets);
    OneRuleCode(h, r, sets);
    PrologueLen(h, btf, 2);
    TailLen(h, policy);
    if Terminal(v) {
      TailLen(h, v);
    }
    SmallIsShort(RuleCode(h, r, sets).value);
  }

  lemma SmallIsShort(code: Code)
    requires |code| <= 0x8000
    ensures ShortJumps(code)
  {
  }

  // ----- long chains -----

  /** Every matcher of the list is accepted by the generator. */
  predicate AllAccepted(ms: seq<Matcher>, sets: seq<Set>)
  {
    forall m :: m in ms ==> PayloadOk(m) && MatcherCode(m, sets).Ok?
  }

  lemma {:induction false} MatchersLen(ms: seq<Matcher>, sets: seq<Set>)
    requires AllAccepted(ms, sets)
    ensures PayloadsOk(ms) && MatchersCode(ms, sets).Ok? && |MatchersCode(ms, sets).value| <= 60 * |ms|
  {
    hide MatcherCode, PayloadOk;
    if ms != [] {
      MatcherLen(ms[0], sets);
      MatchersLen(ms[1..], sets);
    }
  }

  predicate RuleAccepted(r: Rule, sets: seq<Set>)
  {
    AllAccepted(r.matchers, sets) && |r.matchers| <= 500
  }

  lemma RuleLen(h: Hook, r: Rule, sets: seq<Set>)
    requires RuleAccepted(r, sets)
    ensures PayloadsOk(r.matchers) && RuleCode(h, r, sets).Ok? && |RuleCode(h, r, sets).value| <= 30005
  {
    hide MatchersCode, CountCode, ReturnCode, AllAccepted;
    MatchersLen(r.matchers, sets);
    if Terminal(r.verdict) {
      TailLen(h, r.verdict);
    }
  }

  lemma {:induction false} RulesLen(h: Hook, rules: seq<Rule>, sets: seq<Set>)
    requires forall r :: r in rules ==> RuleAccepted(r, sets)
    ensures RulesOk(rules) && RulesCode(h, rules, sets).Ok? && |RulesCode(h, rules, sets).value| <= 30005 * |rules|
    ensures RulesShort(h, rules, sets)
  {
    hide RuleCode, PayloadsOk, RuleAccepted, LinkNext, ShortJumps;
    forall r | r in rules ensures PayloadsOk(r.matchers) && RuleCode(h, r, sets).Ok? && ShortJumps(RuleCode(h, r, sets).value) {
      RuleLen(h, r, sets);
      SmallIsShort(RuleCode(h, r, sets).value);
    }
    if rules != [] {
      RuleLen(h, rules[0], sets);
      RulesLen(h, rules[1..], sets);
    }
  }

  /** Every chain of up to 65536 rules, each of up to 500 accepted matchers, compiles at every hook. */
  lemma LongChainCompiles(chain: Chain, btf: Btf)
    requires Terminal(chain.policy) && |chain.rules| <= 0x1_0000
    requires forall r :: r in chain.rules ==> RuleAccepted(r, chain.sets)
    ensures Compiles(chain, btf)
  {
    hide StartCode, Prologue, CountCode, ReturnCode, SubCode, RulesCode, RuleAccepted, RulesOk, RulesShort;
    RulesLen(chain.hook, chain.rules, chain.sets);
    PrologueLen(chain.hook, btf, |chain.rules| + 1);
    TailLen(chain.hook, chain.policy);
  }

  /** And so for a rule that looks up a set. */
  lemma SetRuleLoads(h: Hook, opts: HookOpts, policy: Verdict, s: Set, m: Matcher, v: Verdict, env: Env)
    requires Terminal(policy) && s.kind == SetIp4 && m == Matcher(Ip4SrcAddr, In, [0, 0, 0, 0])
    requires EnvOk(env) && env.hook == h && |env.sets| == 1
    requires env.sets[0].keySize == 4 && env.sets[0].keys == set k | k in s.elems
    ensures var c := OneRule(h, opts, policy, [s], m, v); Compiles(c, env.btf) && SetsFit(c) && Loaded(c, env)
  {
    hide Compiles, ToI32, SetTail;
    assert U32At(m.payload, 0) == 0 by {
      ZeroIndex(m.payload);
    }
    OneRuleCompiles(h, opts, policy, [s], m, v, env.btf);
  }

  lemma ZeroIndex(p: seq<byte>)
    requires p == [0, 0, 0, 0]
    ensures U32At(p, 0) == 0
  {
    assert p[0..4] == p == ToLE(0, 4) by {
      assert ToLE(0, 3) == [0] + ToLE(0, 2) && ToLE(0, 2) == [0] + ToLE(0, 1) && ToLE(0, 1) == [0] + ToLE(0, 0);
    }
    assert Pow256(4) == 0x1_0000_0000;
    LEOfToLE(0, 4);
  }

  lemma TailLen(h: Hook, v: Verdict)
    requires Terminal(v)
    ensures |ReturnCode(h, v)| == 2
  {
  }
}
