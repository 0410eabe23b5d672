/** Which chains become programs, and what the others are refused with. */
module Acceptance {
  import opened Model
  import opened Machine
  import opened Codegen
  import opened Spec
  import opened Loading
  import opened Compiler
  import opened Delivery
  import opened Context

  /** The operators each matcher has; a set that is looked up by IPv4 address must exist and be one of IPv4 addresses. */
  predicate Supported(m: Matcher, sets: seq<Set>)
    requires Enough(m)
  {
    match m.kind
    case MetaSport | MetaDport | TcpSport | TcpDport | UdpSport | UdpDport => m.op in {Eq, Ne, Range}
    case TcpFlags => m.op in {Eq, Ne, Any, All}
    case Ip4SrcAddr | Ip4DstAddr =>
      m.op == Eq || m.op == Ne ||
      (m.op == In && var k := 0x1_0000 * Word(m.payload, 2) + Word(m.payload, 0); k < |sets| && sets[k].kind == SetIp4)
    case MetaIfindex | MetaL3Proto | MetaL4Proto | Ip4Proto | Ip6Saddr | Ip6Daddr | SetSrcIp6Port | SetSrcIp6 => true
  }

  lemma SupportedIff(m: Matcher, sets: seq<Set>)
    requires Enough(m) && PayloadOk(m)
    ensures MatcherCode(m, sets).Ok? <==> Supported(m, sets)
    ensures MatcherCode(m, sets).Err? ==> MatcherCode(m, sets) == Err(EINVAL)
  {
    hide U32At, Word, Ip6Code, SetCode, PortSwitch, Ip4AddrCode, U16At, GuardL3, GuardL4;
    if m.kind in {Ip4SrcAddr, Ip4DstAddr} && m.op == In {
      IndexIs(m.payload);
    }
  }

  predicate AllSupported(ms: seq<Matcher>, sets: seq<Set>)
    requires forall m :: m in ms ==> Enough(m)
  {
    forall m :: m in ms ==> Supported(m, sets)
  }

  lemma {:induction false} MatchersIff(ms: seq<Matcher>, sets: seq<Set>)
    requires PayloadsOk(ms) && forall m :: m in ms ==> Enough(m)
    ensures MatchersCode(ms, sets).Ok? <==> AllSupported(ms, sets)
    ensures MatchersCode(ms, sets).Err? ==> MatchersCode(ms, sets) == Err(EINVAL)
  {
    hide MatcherCode, Supported, PayloadOk, Enough;
    if ms != [] {
      SupportedIff(ms[0], sets);
      MatchersIff(ms[1..], sets);
      assert forall m :: m in ms ==> m == ms[0] || m in ms[1..];
    }
  }

  /** Every matcher of every rule. */
  predicate ChainSupported(rules: seq<Rule>, sets: seq<Set>)
    requires AllEnough(rules)
  {
    forall r, m :: r in rules && m in r.matchers ==> Supported(m, sets)
  }

  lemma {:induction false} RulesIff(h: Hook, rules: seq<Rule>, sets: seq<Set>)
    requires RulesOk(rules) && AllEnough(rules)
    ensures RulesCode(h, rules, sets).Ok? <==> ChainSupported(rules, sets)
    ensures RulesCode(h, rules, sets).Err? ==> RulesCode(h, rules, sets) == Err(EINVAL)
    decreases |rules|
  {
    hide MatchersCode, Supported, PayloadsOk, Enough, LinkNext, ActionCode;
    if rules != [] {
      assert rules[0] in rules;
      MatchersIff(rules[0].matchers, sets);
      RulesIff(h, rules[1..], sets);
      assert forall r :: r in rules ==> r == rules[0] || r in rules[1..];
    }
  }

  /** A matcher that looks up a set. */
  predicate UsesSet(m: Matcher)
  {
    m.kind == SetSrcIp6 || m.kind == SetSrcIp6Port || (m.op == In && (m.kind == Ip4SrcAddr || m.kind == Ip4DstAddr))
  }

  lemma UsesSetIs(rules: seq<Rule>)
    ensures AnyLooksUp(rules) <==> exists r, m :: r in rules && m in r.matchers && UsesSet(m)
  {
    if AnyLooksUp(rules) {
      var r :| r in rules && LooksUp(r.matchers);
      var m :| m in r.matchers && KeyLen(m) > 0;
      assert UsesSet(m);
    }
  }

  /**
   * A chain becomes a program exactly if every matcher is supported, a set exists where one is looked
   * up, and the kernel takes the program; the failures are EINVAL, ENOENT and the kernel's own.
   */
  lemma ProgramIff(c: Chain, btf: Btf, k: Kernel)
    requires RulesOk(c.rules) && Terminal(c.policy)
    ensures AllEnough(c.rules)
    ensures var r := ProgramOf(c, btf, k);
            if !ChainSupported(c.rules, c.sets) then r == Err(EINVAL)
            else if c.sets == [] && exists x, m :: x in c.rules && m in x.matchers && UsesSet(m) then r == Err(ENOENT)
            else if k.load.Err? then r == Err(k.load.errno)
            else r.Ok?
  {
    hide RulesOk, AllEnough, ChainSupported, RulesCode, AnyLooksUp, Prologue, SubCode, CountCode, ReturnCode, StartCode, UsesSet;
    AllEnoughIs(c.rules);
    RulesIff(c.hook, c.rules, c.sets);
    UsesSetIs(c.rules);
  }

  /** Bytes of the key a matcher looks up: an IPv4 address, an IPv6 address, or one with a port. */
  function Looked(m: Matcher): (n: nat)
    requires UsesSet(m)
  {
    if m.kind == SetSrcIp6Port then 16 + 2 else if m.kind == SetSrcIp6 then 16 else 4
  }

  /** The premise of the compiler theorem about sets, in widths. */
  lemma SetsFitIff(c: Chain)
    ensures SetsFit(c) <==>
            forall r, m :: r in c.rules && m in r.matchers && UsesSet(m) ==> c.sets != [] && Width(c.sets[0].kind) <= Looked(m)
  {
    forall m: Matcher ensures KeyLen(m) == if UsesSet(m) then Looked(m) else 0 {
    }
  }
}
