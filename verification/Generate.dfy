/** Generation of a whole program: rules, functions, and the fixups they need. */
module Generate {
  import opened Bpf
  import opened Model
  import opened Machine
  import opened Fragment
  import opened Codegen
  import opened Shape
  import opened Linker
  import opened Emitter
  import opened Matchers
  import opened Stubs

  /** With nothing pending before a rule, resolving its jumps is linking the rule's own code. */
  lemma LinkRule(pre: Code, rule: Code, y: Symbols)
    requires Linked(pre) && y.size == |pre| + |rule|
    ensures Link(pre + rule, JmpNextRule, y) == pre + LinkNext(rule)
    ensures Linked(pre + LinkNext(rule))
  {
    var c := pre + rule;
    forall i | 0 <= i < |c| ensures Link(c, JmpNextRule, y)[i] == (pre + LinkNext(rule))[i] {
      if i >= |pre| {
        assert c[i] == rule[i - |pre|];
      }
    }
  }

  method GenerateMatchers(p: Program, ms: seq<Matcher>) returns (r: Result<()>)
    requires p.Valid() && PayloadsOk(ms)
    modifies p, p.img
    ensures Generated(p, r, MatchersCode(ms, p.chain.sets))
  {
    hide Program.Valid, MatcherCode, PayloadOk;
    ghost var done: Code := [];
    var i := 0;
    MatchersStart(ms, p.chain.sets);
    while i < |ms|
      invariant 0 <= i <= |ms| && p.Emitted(done)
      invariant MatchersCode(ms, p.chain.sets) == Append(done, MatchersCode(ms[i..], p.chain.sets))
    {
      MatchersNext(ms, i, done, p.chain.sets);
      r := GenerateMatcher(p, ms[i]);
      if r.Err? {
        return;
      }
      done := done + MatcherCode(ms[i], p.chain.sets).value;
      i := i + 1;
    }
    r := Ok(());
  }

  lemma MatchersStart(ms: seq<Matcher>, sets: seq<Set>)
    requires PayloadsOk(ms)
    ensures ms[0..] == ms && MatchersCode(ms, sets) == Append([], MatchersCode(ms, sets))
  {
    hide MatchersCode;
    match MatchersCode(ms, sets)
    case Ok(c) => assert [] + c == c;
    case Err(_) =>
  }

  lemma MatchersNext(ms: seq<Matcher>, i: nat, done: Code, sets: seq<Set>)
    requires PayloadsOk(ms) && i < |ms|
    ensures PayloadOk(ms[i])
    ensures match MatcherCode(ms[i], sets)
            case Err(e) => Append(done, MatchersCode(ms[i..], sets)) == Err(e)
            case Ok(c) => Append(done, MatchersCode(ms[i..], sets)) == Append(done + c, MatchersCode(ms[i + 1..], sets))
  {
    hide MatcherCode;
    assert ms[i] in ms;
    assert ms[i..][0] == ms[i] && ms[i..][1..] == ms[i + 1..];
    if MatcherCode(ms[i], sets).Ok? && MatchersCode(ms[i + 1..], sets).Ok? {
      Assoc(done, MatcherCode(ms[i], sets).value, MatchersCode(ms[i + 1..], sets).value);
    }
  }

  method EmitAction(p: Program, rule: Rule)
    requires p.Valid()
    modifies p, p.img
    ensures p.Emitted(ActionCode(p.chain.hook, rule))
  {
    hide Program.Valid, CountCode, ReturnCode;
    if rule.counters {
      EmitCount(p, rule.index);
    }
    if Terminal(rule.verdict) {
      EmitReturn(p, rule.verdict);
    }
  }

  function LinkedRule(r: Result<Code>): (c: Result<Code>)
  {
    match r case Ok(code) => Ok(LinkNext(code)) case Err(e) => Err(e)
  }

  /** A rule: afterwards no jump to the next rule is pending. */
  method GenerateRule(p: Program, rule: Rule) returns (r: Result<()>)
    requires p.Valid() && Linked(p.code) && PayloadsOk(rule.matchers)
    modifies p, p.img
    ensures Generated(p, r, LinkedRule(RuleCode(p.chain.hook, rule, p.chain.sets)))
    ensures r.Ok? ==> Linked(p.code)
  {
    hide Program.Valid, MatchersCode, ActionCode, Link, LinkNext, Linked;
    ghost var pre := p.code;
    r := GenerateMatchers(p, rule.matchers);
    if r.Err? {
      return;
    }
    EmitAction(p, rule);
    p.SizeIs();
    ghost var c := RuleCode(p.chain.hook, rule, p.chain.sets).value;
    LinkRule(pre, c, p.Syms());
    r := p.ResolveFixups(JmpNextRule);
  }

  method GenerateRules(p: Program, rules: seq<Rule>) returns (r: Result<()>)
    requires p.Valid() && Linked(p.code) && RulesOk(rules)
    modifies p, p.img
    ensures Generated(p, r, RulesCode(p.chain.hook, rules, p.chain.sets))
    ensures r.Ok? ==> Linked(p.code)
  {
    hide Program.Valid, RuleCode, PayloadsOk, Linked, LinkNext;
    ghost var done: Code := [];
    var i := 0;
    RulesStart(p.chain.hook, rules, p.chain.sets);
    while i < |rules|
      invariant 0 <= i <= |rules| && p.Emitted(done) && Linked(p.code)
      invariant RulesCode(p.chain.hook, rules, p.chain.sets) == Append(done, RulesCode(p.chain.hook, rules[i..], p.chain.sets))
    {
      RulesNext(p.chain.hook, rules, i, done, p.chain.sets);
      r := GenerateRule(p, rules[i]);
      if r.Err? {
        return;
      }
      done := done + LinkNext(RuleCode(p.chain.hook, rules[i], p.chain.sets).value);
      i := i + 1;
    }
    r := Ok(());
  }

  lemma RulesStart(h: Hook, rules: seq<Rule>, sets: seq<Set>)
    requires RulesOk(rules)
    ensures rules[0..] == rules && RulesCode(h, rules, sets) == Append([], RulesCode(h, rules, sets))
  {
    hide RulesCode;
    match RulesCode(h, rules, sets)
    case Ok(c) => assert [] + c == c;
    case Err(_) =>
  }

  lemma RulesNext(h: Hook, rules: seq<Rule>, i: nat, done: Code, sets: seq<Set>)
    requires RulesOk(rules) && i < |rules|
    ensures PayloadsOk(rules[i].matchers)
    ensures match RuleCode(h, rules[i], sets)
            case Err(e) => Append(done, RulesCode(h, rules[i..], sets)) == Err(e)
            case Ok(c) => Append(done, RulesCode(h, rules[i..], sets)) == Append(done + LinkNext(c), RulesCode(h, rules[i + 1..], sets))
  {
    hide RuleCode, PayloadsOk, LinkNext;
    assert rules[i] in rules;
    assert rules[i..][0] == rules[i] && rules[i..][1..] == rules[i + 1..];
    if RuleCode(h, rules[i], sets).Ok? && RulesCode(h, rules[i + 1..], sets).Ok? {
      Assoc(done, LinkNext(RuleCode(h, rules[i], sets).value), RulesCode(h, rules[i + 1..], sets).value);
    }
  }

  // ----- functions -----

  method EmitSubArgs(p: Program)
    requires p.Valid()
    modifies p, p.img
    ensures p.Emitted(SubArgsCode())
  {
    hide Program.Valid, Untagged;
    p.EmitRun([Stx(W, 10, 1, SCRATCH), Stx(DW, 10, 2, SCRATCH + 8)]);
    p.EmitFixup(LdMapFd(1, 0), CountersFd);
    p.EmitRun([LdHi, Mov64Reg(2, 10), Alu64Imm(Add, 2, SCRATCH)]);
  }

  method EmitSubAdd(p: Program)
    requires p.Valid()
    modifies p, p.img
    ensures p.Emitted(SubAddCode())
  {
    hide Program.Valid, Untagged;
    p.EmitRun([ Ldx(DW, 1, 0, 0), Alu64Imm(Add, 1, 1), Stx(DW, 0, 1, 0),
                Ldx(DW, 1, 0, 8), Ldx(DW, 2, 10, SCRATCH + 8), Alu64Reg(Add, 1, 2), Stx(DW, 0, 1, 8),
                Mov32Imm(0, 0), Exit ]);
  }

  method EmitSubCheck(p: Program)
    requires p.Valid()
    modifies p, p.img
    ensures p.Emitted([T(CallHelper(MapLookupElem)), T(JmpImm(Jne, 0, 0, 2)), T(Mov32Imm(0, 1)), T(Exit)])
  {
    hide Program.Valid, Untagged;
    p.Emit(CallHelper(MapLookupElem));
    ghost var pre := p.code;
    p.SizeIs();
    var j := p.size;
    p.Emit(JmpImm(Jne, 0, 0, 0));
    p.EmitRun([Mov32Imm(0, 1), Exit]);
    p.SizeIs();
    ScopePatched(pre, T(JmpImm(Jne, 0, 0, 0)), [T(Mov32Imm(0, 1)), T(Exit)], T(JmpImm(Jne, 0, 0, 2)));
    p.JmpctxCleanup(j);
  }

  method GenerateUpdateCounters(p: Program)
    requires p.Valid()
    modifies p, p.img
    ensures p.Emitted(SubCode())
  {
    hide Program.Valid, SubArgsCode, SubAddCode;
    EmitSubArgs(p);
    EmitSubCheck(p);
    EmitSubAdd(p);
  }

  predicate NoCall(code: Code)
  {
    forall i :: 0 <= i < |code| ==> code[i].tag != UpdateCounters
  }

  /** A fixup is a pending call exactly when its instruction is. */
  lemma CallPending(code: Code)
    ensures NoCall(code) <==> forall k :: 0 <= k < |Pending(code)| ==> Pending(code)[k].tag != UpdateCounters
  {
    hide Pending;
    PendingBounds(code);
    if !NoCall(code) {
      var i :| 0 <= i < |code| && code[i].tag == UpdateCounters;
      PendingHas(code, i);
    } else {
      forall k | 0 <= k < |Pending(code)| ensures Pending(code)[k].tag != UpdateCounters {
        assert code[Pending(code)[k].insn].tag != UpdateCounters;
      }
    }
  }

  /**
   * Append the functions that are called. The list of fixups grows while it is walked: the node
   * after the current one is read before the function is generated. One copy is emitted at most.
   */
  method GenerateFunctions(p: Program)
    requires p.Valid() && p.fnLoc == 0 && p.code != []
    modifies p, p.img
    ensures p.Valid() && p.numCounters == old(p.numCounters) && p.cmapFd == old(p.cmapFd) && p.setFds == old(p.setFds)
    ensures p.img == old(p.img) || (p.img != null && fresh(p.img))
    ensures if NoCall(old(p.code)) then p.fnLoc == 0 && p.code == old(p.code)
            else p.fnLoc == |old(p.code)| && p.code == old(p.code) + SubCode()
  {
    hide Program.Valid, SubCode, Pending, NoCall;
    ghost var c0 := p.code;
    p.ShapeFacts();
    ghost var f0 := p.fixups;
    CallPending(c0);
    var node := 0;
    var more := |p.fixups| > 0;
    while more
      invariant p.Valid() && p.numCounters == old(p.numCounters) && p.cmapFd == old(p.cmapFd) && p.setFds == old(p.setFds)
      invariant p.img == old(p.img) || (p.img != null && fresh(p.img))
      invariant 0 <= node && (more ==> node < |p.fixups|)
      invariant p.fnLoc == 0 ==> p.code == c0 && p.fixups == f0 && (!more ==> node >= |f0|)
                                 && forall k :: 0 <= k < node && k < |f0| ==> f0[k].tag != UpdateCounters
      invariant p.fnLoc != 0 ==> p.fnLoc == |c0| && p.code == c0 + SubCode() && !NoCall(c0)
      decreases |c0 + SubCode()| - |p.code|, |p.fixups| - node, more
    {
      var fixup := p.fixups[node];
      var next := node + 1 < |p.fixups|;
      if fixup.tag == UpdateCounters && p.fnLoc == 0 {
        p.SizeIs();
        var off := p.size;
        GenerateUpdateCounters(p);
        p.ShapeFacts();
        p.SetFunctionLocation(off);
        PendingMore(c0, SubCode());
      }
      node, more := node + 1, next;
    }
  }

  lemma PendingMore(a: Code, b: Code)
    ensures |Pending(a + b)| >= |Pending(a)|
  {
    PendingAppend(a, b);
  }

  // ----- whole programs -----

  /** The policy: count, then return the policy's code. */
  method EmitPolicy(p: Program)
    requires p.Valid() && Terminal(p.chain.policy)
    modifies p, p.img
    ensures p.Emitted(CountCode(|p.chain.rules|) + ReturnCode(p.chain.hook, p.chain.policy))
  {
    hide Program.Valid, CountCode, ReturnCode;
    EmitCount(p, |p.chain.rules|);
    EmitReturn(p, p.chain.policy);
  }

  method EmitStart(p: Program)
    requires p.Valid() && p.code == []
    modifies p, p.img
    ensures p.Valid() && p.Framed() && p.code == StartCode() + Prologue(p.chain.hook, p.btf, p.numCounters - 1)
  {
    hide Program.Valid, Prologue, Untagged;
    p.EmitRun([Stx(DW, 10, 1, ARG), Mov64Imm(7, 0), Mov64Imm(8, 0)]);
    EmitPrologue(p);
  }

  /** Everything but the functions. */
  method GenerateBody(p: Program) returns (r: Result<()>)
    requires p.Valid() && p.code == []
    requires RulesOk(p.chain.rules) && Terminal(p.chain.policy) && p.numCounters == |p.chain.rules| + 2
    modifies p, p.img
    ensures Generated(p, r, BodyCode(p.chain, p.btf))
    ensures r.Ok? ==> Linked(p.code)
  {
    hide Program.Valid, RulesCode, Prologue, StartCode, CountCode, ReturnCode, RulesOk, Linked, Local;
    EmitStart(p);
    PrologueLocal(p.chain.hook, p.btf, p.numCounters - 1);
    LocalLinked(p.code);
    r := GenerateRules(p, p.chain.rules);
    if r.Err? {
      return;
    }
    PolicyLinked(p.code, p.chain);
    EmitPolicy(p);
    assert old(p.code) + BodyCode(p.chain, p.btf).value == BodyCode(p.chain, p.btf).value;
  }

  lemma PolicyLinked(pre: Code, chain: Chain)
    requires Linked(pre) && Terminal(chain.policy)
    ensures Linked(pre + (CountCode(|chain.rules|) + ReturnCode(chain.hook, chain.policy)))
  {
    hide ToI32, VerdictCode;
  }

  lemma LinkedSub(body: Code)
    requires Linked(body)
    ensures Linked(body + SubCode())
  {
    SubShape();
  }

  /** Code generation: the body, one copy of the subroutine after it, and every call pointing to it. */
  method GenerateProgram(p: Program) returns (r: Result<()>)
    requires p.Valid() && p.code == [] && p.fnLoc == 0
    requires RulesOk(p.chain.rules) && Terminal(p.chain.policy)
    modifies p, p.img
    ensures p.Valid() && p.numCounters == |p.chain.rules| + 2
    ensures p.img == old(p.img) || (p.img != null && fresh(p.img))
    ensures match BodyCode(p.chain, p.btf)
            case Err(e) => r == Err(e)
            case Ok(body) => r.Ok? && p.fnLoc == |body| && AllUnpatched(body + SubCode()) && Linked(body + SubCode())
                             && p.code == Link(body + SubCode(), FuncCall, Symbols(|body + SubCode()|, |body|, p.cmapFd, p.setFds))
  {
    hide Program.Valid, RulesCode, Prologue, StartCode, CountCode, ReturnCode, RulesOk, SubCode, BodyCode, AllUnpatched, Link, Linked, NoCall;
    p.SetNumCounters(|p.chain.rules| + 2);
    r := GenerateBody(p);
    if r.Err? {
      return;
    }
    ghost var body := BodyCode(p.chain, p.btf).value;
    assert p.code == body;
    BodyCalls(p.chain, p.btf);
    LinkedSub(body);
    GenerateFunctions(p);
    p.ShapeFacts();
    r := p.ResolveFixups(FuncCall);
  }

  lemma BodyCalls(chain: Chain, btf: Btf)
    requires RulesOk(chain.rules) && Terminal(chain.policy) && BodyCode(chain, btf).Ok?
    ensures BodyCode(chain, btf).value != [] && !NoCall(BodyCode(chain, btf).value)
  {
    hide RulesCode, Prologue, StartCode, RulesOk, ToI32;
    var c := BodyCode(chain, btf).value;
    assert c[|c| - 3] == Tagged(CallRel(0), UpdateCounters);
  }
}
