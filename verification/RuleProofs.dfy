/** Rules: matchers in sequence, counters and verdicts, and the back-patched jumps to the next rule. */
module RuleProofs {
  import opened Bytes
  import opened Bpf
  import opened Model
  import opened Machine
  import opened Fragment
  import opened Codegen
  import opened Spec
  import opened Simulation
  import opened MatcherProofs
  import opened SetProofs
  import opened Shape

  predicate KeysFit(ms: seq<Matcher>, env: Env)
  {
    forall m :: m in ms ==> KeyFits(m, env)
  }

  lemma {:induction false} MatchersExec(ms: seq<Matcher>, sets: seq<Set>, env: Env, v: View, st: State)
    requires PayloadsOk(ms) && Holds(env, v, st) && EnvOk(env) && KeysFit(ms, env) && MatchersCode(ms, sets).Ok?
    ensures Decided(st, Exec(MatchersCode(ms, sets).value, 0, env, st), AcceptsAll(ms, SetKeys(env), v))
  {
    hide Exec, Holds, Accepts, MatcherCode, KeyFits, Kernel, EnvOk;
    if ms == [] {
      End([], env, st);
    } else {
      var m, rest := ms[0], ms[1..];
      var a, z := MatcherCode(m, sets).value, MatchersCode(rest, sets).value;
      MatcherExec(m, sets, env, v, st);
      ViewOfHolds(env, v, st);
      assert AcceptsAll(ms, SetKeys(env), v) == (Accepts(m, SetKeys(env), v) && AcceptsAll(rest, SetKeys(env), v)) by {
        assert ms == [m] + rest;
      }
      match Exec(a, 0, env, st)
      case Off(_, s) =>
        Seq(a, z, env, st, s);
        HoldsKept(env, v, st, s);
        MatchersExec(rest, sets, env, v, s);
      case Next(_) =>
        SeqOut(a, z, env, st);
    }
  }

  lemma ViewOfHolds(env: Env, v: View, st: State)
    requires Holds(env, v, st)
    ensures ViewOk(v)
  {
  }

  // ----- counters and verdicts -----

  /** What a rule leaves for the next one: everything but the counters, the scratch area and r0-r6. */
  predicate Passed(s: State, t: State, counters: seq<Counter>)
  {
    Kept(s.(counters := counters), t)
  }

  lemma CountExec(index: u32, env: Env, st: State, size: u64) returns (s: State)
    requires st.depth == 0 && st.regs[10] == Ptr(Stack(0), 0) && Load(st.frame, PKT_SIZE, 8) == Num(size)
    ensures Exec(CountCode(index), 0, env, st) == Off(0, s)
    ensures Passed(st, s, Bump(st.counters, index, size)) && s.frame == st.frame
  {
    hide Exec, Load, ToI32, Zext32, Do, LoadMem;
    var a, b, c := [T(Mov32Imm(1, ToI32(index)))], [T(Ldx(DW, 2, 10, PKT_SIZE))], [Tagged(CallRel(0), UpdateCounters)];
    assert CountCode(index) == a + (b + c);
    Mov32Exec(1, index, env, st);
    var s1 := With(st, 1, Num(index));
    Seq(a, b + c, env, st, s1);
    var s2 := With(s1, 2, Num(size));
    LoadSizeExec(env, s1, size);
    Seq(b, c, env, s1, s2);
    s := CallUpdate(s2).value;
    ExecOne(c[0], env, s2);
  }

  lemma LoadSizeExec(env: Env, st: State, size: u64)
    requires st.depth == 0 && st.regs[10] == Ptr(Stack(0), 0) && Load(st.frame, PKT_SIZE, 8) == Num(size)
    ensures Exec([T(Ldx(DW, 2, 10, PKT_SIZE))], 0, env, st) == Off(0, With(st, 2, Num(size)))
  {
    hide Exec, Load;
    var c := [T(Ldx(DW, 2, 10, PKT_SIZE))];
    Plain(c, 0, env, st, With(st, 2, Num(size)));
    End(c, env, With(st, 2, Num(size)));
  }

  lemma ReturnExec(h: Hook, v: Verdict, env: Env, st: State)
    requires Terminal(v)
    ensures Exec(ReturnCode(h, v), 0, env, st) ==
            Return(Sext64(VerdictCode(h, v)), With(st, 0, Num(Sext64(VerdictCode(h, v)))))
  {
    hide Exec, Sext64;
    var a, b := [T(Mov64Imm(0, VerdictCode(h, v)))], [T(Exit)];
    var s := With(st, 0, Num(Sext64(VerdictCode(h, v))));
    assert ReturnCode(h, v) == a + b;
    Plain(a, 0, env, st, s);
    End(a, env, s);
    Seq(a, b, env, st, s);
    ExecOne(T(Exit), env, s);
  }

  /** How a list of rules, or the whole program, ends for outcome `e`: it falls through if no verdict was reached. */
  predicate Ends(h: Hook, st: State, o: Out, e: Outcome, size: u64)
  {
    match o
    case Off(k, s) => k == 0 && e.verdict == Continue && Passed(st, s, Count(st.counters, e.hits, size))
    case Return(r, s) =>
      Terminal(e.verdict) && r == Sext64(VerdictCode(h, e.verdict)) && s.counters == Count(st.counters, e.hits, size)
    case _ => false
  }

  function RuleOutcome(r: Rule, keys: set<seq<byte>>, v: View): (o: Outcome)
    requires PayloadsOk(r.matchers) && ViewOk(v)
  {
    if !AcceptsAll(r.matchers, keys, v) then Outcome(Continue, [])
    else Outcome(r.verdict, if r.counters then [r.index] else [])
  }

  lemma Count1(counters: seq<Counter>, i: nat, size: u64)
    ensures Count(counters, [i], size) == Bump(counters, i, size)
    ensures Count(counters, [], size) == counters
  {
    assert [i][1..] == [];
  }

  lemma ActionExec(h: Hook, r: Rule, env: Env, v: View, st: State)
    requires Holds(env, v, st)
    ensures Ends(h, st, Exec(ActionCode(h, r), 0, env, st), Outcome(r.verdict, if r.counters then [r.index] else []), v.size)
  {
    hide Exec, HdrAt, Load, CountCode, ReturnCode, Bump, Kernel;
    var a := if r.counters then CountCode(r.index) else [];
    var z := if Terminal(r.verdict) then ReturnCode(h, r.verdict) else [];
    assert ActionCode(h, r) == a + z;
    Count1(st.counters, r.index, v.size);
    var s := st;
    if r.counters {
      s := CountExec(r.index, env, st, v.size);
    } else {
      End([], env, st);
    }
    Seq(a, z, env, st, s);
    if Terminal(r.verdict) {
      ReturnExec(h, r.verdict, env, s);
    } else {
      End([], env, s);
    }
  }

  // ----- jumps to the next rule -----

  /** Only jumps wait for the next rule. */
  predicate Linkable(code: Code)
  {
    forall i :: 0 <= i < |code| && code[i].tag == NextRule ==> IsJump(code[i].insn)
  }

  function Resolved(o: Out): (r: Out)
  {
    match o case Next(s) => Off(0, s) case _ => o
  }

  /** After patching, leaving for the next rule is running off the end of the rule. */
  lemma {:induction false} LinkNextExec(code: Code, i: nat, env: Env, st: State)
    requires Linkable(code) && ShortJumps(code)
    ensures Exec(LinkNext(code), i, env, st) == Resolved(Exec(code, i, env, st))
    decreases |code| - i
  {
    hide Do;
    var c := LinkNext(code);
    if i < |code| {
      if code[i].tag == NextRule {
        assert Taken(c[i].insn, st) == Taken(code[i].insn, st);
        if Taken(code[i].insn, st) == Some(true) {
          End(c, env, st);
        } else if Taken(code[i].insn, st) == Some(false) {
          LinkNextExec(code, i + 1, env, st);
        }
      } else {
        var m := First(code[i], env, st);
        if m.Go? {
          LinkNextExec(code, i + 1 + m.skip, env, m.to);
        }
      }
    }
  }

  /** Linked jumps go to the slot after the code exactly if they are short: a longer one wraps around. */
  lemma ShortJumpsIff(code: Code)
    requires Linkable(code)
    ensures ShortJumps(code) <==> forall i :: 0 <= i < |code| && code[i].tag == NextRule ==>
              IsJump(LinkNext(code)[i].insn) && LinkNext(code)[i].insn.off == |code| - i - 1
  {
    forall i | 0 <= i < |code| && code[i].tag == NextRule
      ensures IsJump(LinkNext(code)[i].insn) && (LinkNext(code)[i].insn.off == |code| - i - 1 <==> |code| - i - 1 < 0x8000)
    {
      assert code[i] in code;
    }
  }

  lemma LinkableRule(h: Hook, r: Rule, sets: seq<Set>)
    requires PayloadsOk(r.matchers) && RuleCode(h, r, sets).Ok?
    ensures Linkable(RuleCode(h, r, sets).value)
  {
    hide RuleCode;
    RuleClosed(h, r, sets);
    var c := RuleCode(h, r, sets).value;
    forall i | 0 <= i < |c| && c[i].tag == NextRule ensures IsJump(c[i].insn) {
      assert SlotOk(c, i, 0);
    }
  }

  // ----- rules -----

  /**
   * A rule reaches its counter and verdict exactly if all its matchers pass, and otherwise the
   * first instruction after it, with everything later rules rely on unchanged.
   */
  lemma RuleExec(h: Hook, r: Rule, sets: seq<Set>, env: Env, v: View, st: State)
    requires PayloadsOk(r.matchers) && Holds(env, v, st) && EnvOk(env) && KeysFit(r.matchers, env)
    requires RuleCode(h, r, sets).Ok? && ShortJumps(RuleCode(h, r, sets).value)
    ensures Ends(h, st, Exec(LinkNext(RuleCode(h, r, sets).value), 0, env, st), RuleOutcome(r, SetKeys(env), v), v.size)
  {
    hide Exec, Holds, MatchersCode, ActionCode, AcceptsAll, LinkNext, EnvOk, KeyFits, Bump, ShortJumps;
    var a, z := MatchersCode(r.matchers, sets).value, ActionCode(h, r);
    var c := a + z;
    ViewOfHolds(env, v, st);
    LinkableRule(h, r, sets);
    LinkNextExec(c, 0, env, st);
    MatchersExec(r.matchers, sets, env, v, st);
    match Exec(a, 0, env, st)
    case Next(_) =>
      SeqOut(a, z, env, st);
      Count1(st.counters, 0, v.size);
    case Off(_, s) =>
      Seq(a, z, env, st, s);
      HoldsKept(env, v, st, s);
      ActionExec(h, r, env, v, s);
  }

  predicate RulesFit(rules: seq<Rule>, env: Env)
  {
    forall r :: r in rules ==> KeysFit(r.matchers, env)
  }

  lemma {:induction false} CountAppend(counters: seq<Counter>, a: seq<nat>, b: seq<nat>, size: u64)
    ensures Count(counters, a + b, size) == Count(Count(counters, a, size), b, size)
    decreases |a|
  {
    hide Bump;
    if a == [] {
      assert a + b == b;
    } else {
      assert (a + b)[1..] == a[1..] + b;
      CountAppend(Bump(counters, a[0], size), a[1..], b, size);
    }
  }

  const NO_POLICY := Outcome(Continue, [])

  /** All rules in order. */
  lemma CountNone(counters: seq<Counter>, size: u64)
    ensures Count(counters, [], size) == counters
  {
  }

  lemma {:induction false} RulesExec(h: Hook, rules: seq<Rule>, sets: seq<Set>, env: Env, v: View, st: State)
    requires RulesOk(rules) && Holds(env, v, st) && EnvOk(env) && RulesFit(rules, env)
    requires RulesCode(h, rules, sets).Ok? && RulesShort(h, rules, sets)
    ensures ViewOk(v)
    ensures Ends(h, st, Exec(RulesCode(h, rules, sets).value, 0, env, st),
                 EvalRules(rules, SetKeys(env), v, NO_POLICY), v.size)
  {
    hide Exec, Holds, RuleCode, AcceptsAll, LinkNext, EnvOk, KeysFit, PayloadsOk, Kernel, SetKeys, Count, Sext64, VerdictCode, ShortJumps;
    ViewOfHolds(env, v, st);
    if rules == [] {
      End([], env, st);
      CountNone(st.counters, v.size);
    } else {
      var r, rest := rules[0], rules[1..];
      var a, z := LinkNext(RuleCode(h, r, sets).value), RulesCode(h, rest, sets).value;
      RuleExec(h, r, sets, env, v, st);
      var e := RuleOutcome(r, SetKeys(env), v);
      match Exec(a, 0, env, st)
      case Return(_, _) =>
        SeqOut(a, z, env, st);
      case Off(_, s) =>
        Seq(a, z, env, st, s);
        HoldsKept(env, v, st, s);
        RulesExec(h, rest, sets, env, v, s);
        var e' := EvalRules(rest, SetKeys(env), v, NO_POLICY);
        CountAppend(st.counters, e.hits, e'.hits, v.size);
        assert [] + e'.hits == e'.hits;
    }
  }

  lemma {:induction false} EvalPolicy(rules: seq<Rule>, keys: set<seq<byte>>, v: View, policy: Outcome)
    requires RulesOk(rules) && ViewOk(v) && Terminal(policy.verdict)
    ensures var e := EvalRules(rules, keys, v, NO_POLICY);
            EvalRules(rules, keys, v, policy) ==
            if e.verdict == Continue then Outcome(policy.verdict, e.hits + policy.hits) else e
    decreases |rules|
  {
    hide AcceptsAll, PayloadsOk;
    if rules == [] {
      assert [] + policy.hits == policy.hits;
    } else {
      EvalPolicy(rules[1..], keys, v, policy);
      var r := rules[0];
      var e := EvalRules(rules[1..], keys, v, NO_POLICY);
      assert (if r.counters then [r.index] else []) + (e.hits + policy.hits)
          == ((if r.counters then [r.index] else []) + e.hits) + policy.hits;
    }
  }
}
