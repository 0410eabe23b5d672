/** Compiler correctness: running the image of a chain is evaluating the chain. */
module Compiler {
  import opened Bytes
  import opened Bpf
  import opened Model
  import opened Machine
  import opened Fragment
  import opened Codegen
  import opened Spec
  import opened Simulation
  import opened RuleProofs
  import opened HeaderProofs
  import opened Shape
  import opened Vm
  import opened Linker

  /** Matchers that look up a set need set 0 to hold keys no longer than the one they build. */
  predicate SetsFit(chain: Chain)
  {
    forall r, m :: r in chain.rules && m in r.matchers && KeyLen(m) > 0 ==>
      chain.sets != [] && ElemSize(chain.sets[0].kind) <= KeyLen(m)
  }

  /** The environment the program of `chain` is loaded into: same hook, and one map per set. */
  predicate Loaded(chain: Chain, env: Env)
  {
    && EnvOk(env) && env.hook == chain.hook && |env.sets| == |chain.sets|
    && forall i :: 0 <= i < |env.sets| ==>
         env.sets[i].keySize == ElemSize(chain.sets[i].kind) && env.sets[i].keys == (set k | k in chain.sets[i].elems)
  }

  /** A chain the generator accepts: each jump out of a rule fits its 16-bit offset, calls their 32-bit one. */
  predicate Compiles(chain: Chain, btf: Btf)
  {
    && RulesOk(chain.rules) && Terminal(chain.policy) && RulesShort(chain.hook, chain.rules, chain.sets)
    && BodyCode(chain, btf).Ok? && |BodyCode(chain, btf).value| + |SubCode()| < 0x8000_0000
  }

  lemma FitsLoaded(chain: Chain, env: Env)
    requires Loaded(chain, env) && SetsFit(chain)
    ensures RulesFit(chain.rules, env)
  {
    forall r | r in chain.rules ensures KeysFit(r.matchers, env) {
      forall m | m in r.matchers ensures KeyFits(m, env) {
      }
    }
  }

  /** The image of a chain; the subroutine follows the body. */
  function ChainImage(chain: Chain, env: Env): (img: seq<Insn>)
    requires Compiles(chain, env.btf)
  {
    var body := BodyCode(chain, env.btf).value;
    Image(body + SubCode(), |body|, env)
  }

  lemma TailExec(h: Hook, n: u32, v: Verdict, env: Env, st: State, size: u64)
    requires Terminal(v) && st.depth == 0 && st.regs[10] == Ptr(Stack(0), 0) && Load(st.frame, PKT_SIZE, 8) == Num(size)
    ensures var o := Exec(CountCode(n) + ReturnCode(h, v), 0, env, st);
            o.Return? && o.r0 == Sext64(VerdictCode(h, v)) && o.st.counters == Bump(st.counters, n, size)
  {
    hide Exec, Load, CountCode, ReturnCode, Bump;
    var s := CountExec(n, env, st, size);
    Seq(CountCode(n), ReturnCode(h, v), env, st, s);
    ReturnExec(h, v, env, s);
  }

  /** The rules, then the policy. */
  lemma RulesAndPolicyExec(chain: Chain, env: Env, v: View, st: State)
    requires RulesOk(chain.rules) && Terminal(chain.policy) && SetsFit(chain) && RulesCode(chain.hook, chain.rules, chain.sets).Ok?
    requires RulesShort(chain.hook, chain.rules, chain.sets) && Loaded(chain, env) && Holds(env, v, st) && |chain.rules| < 0x1_0000_0000
    ensures var c := RulesCode(chain.hook, chain.rules, chain.sets).value + (CountCode(|chain.rules|) + ReturnCode(chain.hook, chain.policy));
            ViewOk(v) && Ends(chain.hook, st, Exec(c, 0, env, st),
                              EvalRules(chain.rules, SetKeys(env), v, Outcome(chain.policy, [|chain.rules|])), v.size)
  {
    hide Exec, Holds, RulesCode, CountCode, ReturnCode, EvalRules, Loaded, Prologue, StartCode, SubCode, Bump, RulesShort;
    var h, n := chain.hook, |chain.rules|;
    var a, z := RulesCode(h, chain.rules, chain.sets).value, CountCode(n) + ReturnCode(h, chain.policy);
    FitsLoaded(chain, env);
    LoadedEnv(chain, env);
    RulesExec(h, chain.rules, chain.sets, env, v, st);
    EvalPolicy(chain.rules, SetKeys(env), v, Outcome(chain.policy, [n]));
    var e := EvalRules(chain.rules, SetKeys(env), v, NO_POLICY);
    match Exec(a, 0, env, st)
    case Return(_, _) =>
      SeqOut(a, z, env, st);
    case Off(_, s) =>
      Seq(a, z, env, st, s);
      HoldsKept(env, v, st, s);
      HoldsSize(env, v, s);
      TailExec(h, n, chain.policy, env, s, v.size);
      CountAppend(st.counters, e.hits, [n], v.size);
      Count1(Count(st.counters, e.hits, v.size), n, v.size);
  }

  lemma LoadedEnv(chain: Chain, env: Env)
    requires Loaded(chain, env)
    ensures EnvOk(env) && env.hook == chain.hook
  {
  }

  lemma HoldsSize(env: Env, v: View, st: State)
    requires Holds(env, v, st)
    ensures st.depth == 0 && st.regs[10] == Ptr(Stack(0), 0) && Load(st.frame, PKT_SIZE, 8) == Num(v.size)
  {
  }

  /** The body of the program, for every packet. */
  lemma BodyExec(chain: Chain, env: Env, st: State)
    requires Compiles(chain, env.btf) && SetsFit(chain) && Loaded(chain, env) && |chain.rules| + 1 < 0x1_0000_0000
    requires st.depth == 0 && st.regs[10] == Ptr(Stack(0), 0) && st.regs[1] == Ptr(Ctx, 0)
    ensures var o := Exec(BodyCode(chain, env.btf).value, 0, env, st);
            var e := Eval(chain, env);
            PacketSize(env) < TWO64 && Terminal(e.verdict) && Ends(chain.hook, st, o, e, PacketSize(env))
  {
    hide Exec, Holds, RulesCode, CountCode, ReturnCode, EvalRules, Loaded, Prologue, StartCode, SubCode, Bump, Parse, EnvOk, RulesShort;
    var h, n := chain.hook, |chain.rules|;
    LoadedEnv(chain, env);
    var p := StartCode() + Prologue(h, env.btf, n + 1);
    var r, c, t := RulesCode(h, chain.rules, chain.sets).value, CountCode(n), ReturnCode(h, chain.policy);
    Assoc(p + r, c, t);
    Assoc(p, r, c + t);
    PrologueExec(env, n + 1, st);
    match Parse(env)
    case None =>
      SeqOut(p, r + (c + t), env, st);
      Count1(st.counters, n + 1, PacketSize(env));
    case Some(v) =>
      var s := Exec(p, 0, env, st).st;
      Seq(p, r + (c + t), env, st, s);
      RulesAndPolicyExec(chain, env, v, s);
      EvalTerminal(chain.rules, SetKeys(env), v, Outcome(chain.policy, [n]));
      ParsedSize(env);
  }

  lemma ParsedSize(env: Env)
    requires EnvOk(env) && Parse(env).Some?
    ensures Parse(env).value.size == PacketSize(env)
  {
  }

  lemma {:induction false} EvalTerminal(rules: seq<Rule>, keys: set<seq<byte>>, v: View, policy: Outcome)
    requires RulesOk(rules) && ViewOk(v) && Terminal(policy.verdict)
    ensures Terminal(EvalRules(rules, keys, v, policy).verdict)
    decreases |rules|
  {
    hide AcceptsAll, PayloadsOk;
    if rules != [] {
      EvalTerminal(rules[1..], keys, v, policy);
    }
  }

  /**
   * Compiler correctness. For every chain the generator accepts whose lookups do not read past the
   * keys they build, every hook and every packet, the image runs to its end: it returns the hook's
   * code for the verdict the chain gives the packet, and updates exactly the counters the packet
   * goes through.
   */
  lemma CompilerCorrect(chain: Chain, env: Env, counters: seq<Counter>)
    requires Compiles(chain, env.btf) && SetsFit(chain) && Loaded(chain, env) && |chain.rules| + 1 < 0x1_0000_0000
    ensures var e := Eval(chain, env);
            PacketSize(env) < TWO64 && Terminal(e.verdict) &&
            Reaches(ChainImage(chain, env), env, Start(counters),
                    Halted(Sext64(VerdictCode(chain.hook, e.verdict)), Count(counters, e.hits, PacketSize(env))))
  {
    hide Exec, BodyCode, Eval, Reaches, SubCode, Closed, Linked, Placed, Loaded, RulesOk, FreshFrame, Count, Patched, RulesShort;
    var body := BodyCode(chain, env.btf).value;
    var img := ChainImage(chain, env);
    var st := Start(counters).st;
    BodyExec(chain, env, st);
    BodyClosed(chain, env.btf);
    ImagePlaced(body, env);
    ReachBody(img, env, body, |body|, 0, st);
  }

  lemma ImagePlaced(body: Code, env: Env)
    ensures var img := Image(body + SubCode(), |body|, env);
            Placed(img, body, 0, |body|, env) && Placed(img, SubCode(), |body|, |body|, env)
  {
    hide SubCode, Patched;
    var code := body + SubCode();
    var img := Image(code, |body|, env);
    assert forall i :: 0 <= i < |body| ==> code[0 + i] == body[i];
    forall i | 0 <= i < |SubCode()| ensures img[|body| + i] == Patched(SubCode()[i], |body| + i, |body|, env) {
      assert code[|body| + i] == SubCode()[i];
    }
  }
}
