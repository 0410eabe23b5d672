/** Loading: map descriptors are filled in, and the finished image is the compiler's. */
module Loading {
  import opened Bytes
  import opened Bpf
  import opened Model
  import opened Machine
  import opened Fragment
  import opened Codegen
  import opened Spec
  import opened Shape
  import opened Linker
  import opened Compiler
  import opened Emitter
  import opened Generate

  /** The maps of the environment are the ones the program was loaded with. */
  predicate HasMaps(env: Env, cmapFd: i32, setFds: seq<i32>)
  {
    env.cmapFd == cmapFd && |env.sets| == |setFds| && forall i :: 0 <= i < |setFds| ==> env.sets[i].fd == setFds[i]
  }

  /** Resolving calls, set maps and counters map one after the other gives the linked image. */
  lemma LinkAll(c0: Code, fn: nat, env: Env, setFds: seq<i32>, y1: Symbols, y2: Symbols, y3: Symbols)
    requires AllUnpatched(c0) && Linked(c0) && HasMaps(env, y3.cmapFd, setFds)
    requires y1.fnLoc == fn && y2.setFds == setFds
    requires setFds == [] ==> !UsesSets(c0)
    ensures var c := Link(Link(Link(c0, FuncCall, y1), SetMapFd, y2), CountersMapFd, y3);
            forall i :: 0 <= i < |c0| ==> c[i] == T(Patched(c0[i], i, fn, env))
  {
    hide ToI32;
    var c := Link(Link(Link(c0, FuncCall, y1), SetMapFd, y2), CountersMapFd, y3);
    forall i | 0 <= i < |c0| ensures c[i] == T(Patched(c0[i], i, fn, env)) {
      assert c0[i] in c0;
    }
  }

  /** Create the maps and fill in their descriptors. */
  method LoadMaps(p: Program, setFds: seq<i32>, cmapFd: i32, ghost c0: Code, ghost y1: Symbols, ghost env: Env) returns (r: Result<()>)
    requires p.Valid() && AllUnpatched(c0) && Linked(c0) && p.code == Link(c0, FuncCall, y1) && HasMaps(env, cmapFd, setFds)
    modifies p, p.img
    ensures p.Valid() && p.img == old(p.img)
    ensures r.Err? <==> setFds == [] && UsesSets(c0)
    ensures r.Ok? ==> p.fixups == [] && p.Insns() == Image(c0, y1.fnLoc, env)
  {
    hide Program.Valid, AllUnpatched, Link, Linked, HasMaps, Image, Pending, UsesSets;
    p.SetMaps(cmapFd, setFds);
    SetTagsKept(c0, y1);
    ghost var y2 := p.Syms();
    r := p.ResolveFixups(SetMapFd);
    if r.Err? {
      return;
    }
    ghost var y3 := p.Syms();
    r := p.ResolveFixups(CountersMapFd);
    LinkAll(c0, y1.fnLoc, env, setFds, y1, y2, y3);
    LoadedImage(p, c0, y1.fnLoc, env);
  }

  lemma SetTagsKept(c0: Code, y: Symbols)
    ensures UsesSets(c0) <==> exists t :: t in Link(c0, FuncCall, y) && HasType(t.tag, SetMapFd)
  {
    var c := Link(c0, FuncCall, y);
    if t :| t in c0 && t.tag.SetFd? {
      var i :| 0 <= i < |c0| && c0[i] == t;
      assert c[i] == t && c[i] in c;
    }
    if t :| t in c && HasType(t.tag, SetMapFd) {
      var i :| 0 <= i < |c| && c[i] == t;
      assert c0[i] in c0 && c0[i].tag.SetFd?;
    }
  }

  lemma LoadedImage(p: Program, c0: Code, fn: nat, env: Env)
    requires p.Valid() && |p.code| == |c0| && forall i :: 0 <= i < |c0| ==> p.code[i] == T(Patched(c0[i], i, fn, env))
    ensures p.fixups == [] && p.Insns() == Image(c0, fn, env)
  {
    hide Patched;
    PendingNone(p.code);
  }

  /** The code looks up a set. */
  predicate UsesSets(code: Code)
  {
    exists t :: t in code && t.tag.SetFd?
  }

  lemma UsesAppend(a: Code, b: Code)
    ensures UsesSets(a + b) <==> UsesSets(a) || UsesSets(b)
  {
    if t :| t in a && t.tag.SetFd? {
      assert t in a + b;
    }
    if t :| t in b && t.tag.SetFd? {
      assert t in a + b;
    }
  }

  lemma UsesLinked(code: Code)
    ensures UsesSets(LinkNext(code)) <==> UsesSets(code)
  {
    var c := LinkNext(code);
    if t :| t in code && t.tag.SetFd? {
      var i :| 0 <= i < |code| && code[i] == t;
      assert c[i] == t && c[i] in c;
    }
    if t :| t in c && t.tag.SetFd? {
      var i :| 0 <= i < |c| && c[i] == t;
      assert code[i] in code && code[i].tag.SetFd?;
    }
  }

  lemma UsesNone(code: Code)
    requires Local(code)
    ensures !UsesSets(code)
  {
  }

  lemma UsesSetTail(k: nat)
    ensures UsesSets(SetTail(k))
  {
    assert SetTail(k)[0] in SetTail(k);
  }

  lemma UsesIp4(m: Matcher, sets: seq<Set>)
    requires PayloadOk(m) && m.kind in {Ip4SrcAddr, Ip4DstAddr, Ip4Proto} && Ip4Code(m, sets).Ok?
    ensures UsesSets(Ip4Code(m, sets).value) <==> KeyLen(m) > 0
  {
    hide U32At, ToI32, SetTail;
    if KeyLen(m) > 0 {
      var k := U32At(m.payload, 0);
      UsesSetTail(k);
      var a := [T(Ldx(W, 2, 6, AddrOff(m.kind))), T(Stx(W, 10, 2, SCRATCH))];
      UsesAppend(a, SetTail(k));
      UsesAppend(GuardL3(ETH_P_IP), a + SetTail(k));
    }
  }

  lemma UsesIp6(m: Matcher)
    requires PayloadOk(m) && m.kind in {Ip6Saddr, Ip6Daddr}
    ensures !UsesSets(Ip6Code(m))
  {
    hide AndBytes, Ip6MaskCode, Ip6Test;
    var off := AddrOff(m.kind);
    var addr, mask := m.payload[0..16], m.payload[16..32];
    UsesIp6Parts(m.op, mask, AndBytes(addr, mask));
    var a := GuardL3(ETH_P_IPV6) + [T(Ldx(DW, 1, 6, off)), T(Ldx(DW, 2, 6, off + 8))];
    UsesAppend(a, Ip6MaskCode(mask));
    UsesAppend(a + Ip6MaskCode(mask), Ip6Test(m.op, AndBytes(addr, mask)));
  }

  lemma UsesIp6Parts(op: MatcherOp, mask: seq<byte>, want: seq<byte>)
    requires |mask| == |want| == 16
    ensures !UsesSets(Ip6MaskCode(mask)) && !UsesSets(Ip6Test(op, want))
  {
    hide ToI32, LE;
  }

  lemma UsesMeta(m: Matcher)
    requires PayloadOk(m) && m.kind in {MetaIfindex, MetaL3Proto, MetaL4Proto, MetaSport, MetaDport} && MetaCode(m).Ok?
    ensures !UsesSets(MetaCode(m).value)
  {
    hide U32At, U16At, ToI32, SwitchCode;
    var off := PortOff(m.kind);
    SwitchLocal(8, [Case(IPPROTO_TCP, [Ldx(H, 1, 6, off)]), Case(IPPROTO_UDP, [Ldx(H, 1, 6, off)])], Some([Mov64Imm(1, 0)]));
  }

  lemma UsesMatcher(m: Matcher, sets: seq<Set>)
    requires PayloadOk(m) && MatcherCode(m, sets).Ok?
    ensures UsesSets(MatcherCode(m, sets).value) <==> KeyLen(m) > 0
  {
    hide U32At, MetaCode, Ip4Code, Ip6Code, SetTail, SwitchCode, PayloadOk, UsesSets;
    match m.kind
    case MetaIfindex | MetaL3Proto | MetaL4Proto | MetaSport | MetaDport => UsesMeta(m);
    case Ip4SrcAddr | Ip4DstAddr | Ip4Proto => UsesIp4(m, sets);
    case Ip6Saddr | Ip6Daddr => UsesIp6(m);
    case TcpSport | TcpDport | TcpFlags | UdpSport | UdpDport => UsesL4(m);
    case SetSrcIp6Port | SetSrcIp6 => UsesSet(m);
  }

  lemma UsesL4(m: Matcher)
    requires PayloadOk(m) && m.kind in {TcpSport, TcpDport, TcpFlags, UdpSport, UdpDport} && L4Code(m).Ok?
    ensures !UsesSets(L4Code(m).value)
  {
    hide U16At;
  }

  lemma UsesSet(m: Matcher)
    requires PayloadOk(m) && m.kind in {SetSrcIp6Port, SetSrcIp6}
    ensures UsesSets(SetCode(m))
  {
    hide U32At, SetTail, SwitchCode, UsesSets;
    var c, k := SetCode(m), U32At(m.payload, 0);
    UsesSetTail(k);
    UsesAppend(c[..|c| - |SetTail(k)|], SetTail(k));
    assert c == c[..|c| - |SetTail(k)|] + SetTail(k);
  }

  predicate LooksUp(ms: seq<Matcher>)
  {
    exists m :: m in ms && KeyLen(m) > 0
  }

  lemma {:induction false} UsesMatchers(ms: seq<Matcher>, sets: seq<Set>)
    requires PayloadsOk(ms) && MatchersCode(ms, sets).Ok?
    ensures UsesSets(MatchersCode(ms, sets).value) <==> LooksUp(ms)
  {
    hide MatcherCode, PayloadOk, KeyLen, UsesSets;
    if ms == [] {
      UsesNone([]);
    } else {
      var a, b := MatcherCode(ms[0], sets).value, MatchersCode(ms[1..], sets).value;
      UsesMatcher(ms[0], sets);
      UsesMatchers(ms[1..], sets);
      UsesAppend(a, b);
      assert ms == [ms[0]] + ms[1..];
    }
  }

  /** Some rule looks up a set. */
  predicate AnyLooksUp(rules: seq<Rule>)
  {
    exists r :: r in rules && LooksUp(r.matchers)
  }

  lemma UsesRule(h: Hook, r: Rule, sets: seq<Set>)
    requires PayloadsOk(r.matchers) && RuleCode(h, r, sets).Ok?
    ensures UsesSets(LinkNext(RuleCode(h, r, sets).value)) <==> LooksUp(r.matchers)
  {
    hide MatchersCode, UsesSets, LooksUp, ActionCode, LinkNext;
    var a, b := MatchersCode(r.matchers, sets).value, ActionCode(h, r);
    UsesMatchers(r.matchers, sets);
    ActionLocal(h, r);
    UsesNone(b);
    UsesAppend(a, b);
    UsesLinked(a + b);
  }

  lemma ActionLocal(h: Hook, r: Rule)
    ensures Local(ActionCode(h, r))
  {
    hide ToI32;
  }

  lemma {:induction false} UsesRules(h: Hook, rules: seq<Rule>, sets: seq<Set>)
    requires RulesOk(rules) && RulesCode(h, rules, sets).Ok?
    ensures UsesSets(RulesCode(h, rules, sets).value) <==> AnyLooksUp(rules)
  {
    hide RuleCode, UsesSets, LooksUp, LinkNext, PayloadsOk;
    if rules == [] {
      UsesNone([]);
    } else {
      var a, b := LinkNext(RuleCode(h, rules[0], sets).value), RulesCode(h, rules[1..], sets).value;
      UsesRule(h, rules[0], sets);
      UsesRules(h, rules[1..], sets);
      UsesAppend(a, b);
      assert rules == [rules[0]] + rules[1..];
    }
  }

  /** The program looks up a set exactly when some rule does. */
  lemma UsesBody(chain: Chain, btf: Btf)
    requires RulesOk(chain.rules) && Terminal(chain.policy) && BodyCode(chain, btf).Ok?
    ensures UsesSets(BodyCode(chain, btf).value + SubCode()) <==> AnyLooksUp(chain.rules)
  {
    hide Prologue, StartCode, RulesCode, CountCode, ReturnCode, UsesSets, AnyLooksUp, SubCode;
    var h, n := chain.hook, |chain.rules|;
    var p, r, c, t := StartCode() + Prologue(h, btf, n + 1), RulesCode(h, chain.rules, chain.sets).value, CountCode(n), ReturnCode(h, chain.policy);
    PrologueLocal(h, btf, n + 1);
    UsesNone(p);
    UsesRules(h, chain.rules, chain.sets);
    TailFlat(h, n, chain.policy);
    UsesNone(c);
    UsesNone(t);
    SubNoSets();
    UsesAppend(p, r);
    UsesAppend(p + r, c);
    UsesAppend(p + r + c, t);
    UsesAppend(p + r + c + t, SubCode());
  }

  lemma SubNoSets()
    ensures !UsesSets(SubCode())
  {
  }

  /**
   * From a chain to the instructions handed to the kernel. Generation fails exactly when a rule
   * cannot be generated; loading fails exactly when a rule looks up a set and there is no set.
   */
  method Build(chain: Chain, setFds: seq<i32>, cmapFd: i32, ghost env: Env, btf: Btf) returns (r: Result<seq<Insn>>)
    requires RulesOk(chain.rules) && Terminal(chain.policy)
    requires |setFds| == |chain.sets| && HasMaps(env, cmapFd, setFds)
    ensures match BodyCode(chain, btf)
            case Err(e) => r == Err(e)
            case Ok(body) =>
              if chain.sets == [] && AnyLooksUp(chain.rules) then r == Err(ENOENT)
              else r == Ok(Image(body + SubCode(), |body|, env))
    ensures Compiles(chain, btf) && SetsFit(chain) && btf == env.btf ==> r == Ok(ChainImage(chain, env))
  {
    hide Program.Valid, BodyCode, RulesOk, SubCode, AllUnpatched, Link, Linked, HasMaps, Image, UsesSets, AnyLooksUp, SetsFit;
    var p := new Program(chain, btf);
    var g := GenerateProgram(p);
    if g.Err? {
      return Err(g.errno);
    }
    ghost var body := BodyCode(chain, btf).value;
    UsesBody(chain, btf);
    if SetsFit(chain) {
      FitLooksUp(chain);
    }
    ghost var y := Symbols(|body + SubCode()|, |body|, p.cmapFd, p.setFds);
    g := LoadMaps(p, setFds, cmapFd, body + SubCode(), y, env);
    if g.Err? {
      return Err(ENOENT);
    }
    r := Ok(p.Insns());
  }

  lemma FitLooksUp(chain: Chain)
    requires SetsFit(chain)
    ensures chain.sets == [] ==> !AnyLooksUp(chain.rules)
  {
  }
}
