/** Chains whose matchers are all exact do what the documentation says. */
module Promises {
  import opened Bpf
  import opened Model
  import opened Machine
  import opened Codegen
  import opened Spec
  import opened Vm
  import opened Compiler
  import opened Documented

  predicate MatchesAll(ms: seq<Matcher>, sets: seq<Set>, v: View)
    requires PayloadsOk(ms) && ViewOk(v)
  {
    forall m :: m in ms ==> Matches(m, sets, v)
  }

  /** First match in the documented sense; `CONTINUE` only counts. */
  function DocRules(rules: seq<Rule>, sets: seq<Set>, v: View, policy: Outcome): (o: Outcome)
    requires RulesOk(rules) && ViewOk(v)
  {
    if rules == [] then policy
    else
      var r := rules[0];
      if !MatchesAll(r.matchers, sets, v) then DocRules(rules[1..], sets, v, policy)
      else
        var hit: seq<nat> := if r.counters then [r.index] else [];
        if Terminal(r.verdict) then Outcome(r.verdict, hit)
        else
          var rest := DocRules(rules[1..], sets, v, policy);
          Outcome(rest.verdict, hit + rest.hits)
  }

  function DocEval(chain: Chain, env: Env): (o: Outcome)
    requires RulesOk(chain.rules) && EnvOk(env)
  {
    match Parse(env)
    case None => Outcome(Accept, [|chain.rules| + 1])
    case Some(v) => DocRules(chain.rules, chain.sets, v, Outcome(chain.policy, [|chain.rules|]))
  }

  /** Documented and exact matchers only, interface indices being compared on 16 bits. */
  ghost predicate AllExact(chain: Chain, env: Env)
    requires RulesOk(chain.rules)
  {
    forall r, m :: r in chain.rules && m in r.matchers ==>
      IsDocumented(m) && if m.kind == MetaIfindex then PacketIfindex(env) < 0x1_0000 else Exact(m, chain.sets)
  }

  lemma Agreement(chain: Chain, env: Env, r: Rule, m: Matcher)
    requires RulesOk(chain.rules) && AllExact(chain, env) && EnvOk(env) && Parse(env).Some?
    requires r in chain.rules && m in r.matchers
    ensures PayloadOk(m) && Agrees(m, chain.sets, Parse(env).value)
  {
    hide Exact, Parse, EnvOk, Agrees;
    if m.kind == MetaIfindex {
      ParsedIfindex(env);
      IfindexAgrees(m, chain.sets, Parse(env).value);
    } else {
      ExactIff(m, chain.sets);
    }
  }

  lemma {:induction false} SameOutcome(chain: Chain, env: Env, rules: seq<Rule>, policy: Outcome)
    requires RulesOk(chain.rules) && AllExact(chain, env) && EnvOk(env) && Parse(env).Some?
    requires RulesOk(rules) && forall r :: r in rules ==> r in chain.rules
    ensures EvalRules(rules, ZeroKeys(chain.sets), Parse(env).value, policy) == DocRules(rules, chain.sets, Parse(env).value, policy)
    decreases |rules|
  {
    hide Exact, Accepts, Matches, AllExact, ZeroKeys, Parse, EnvOk;
    if rules != [] {
      var r := rules[0];
      forall m | m in r.matchers ensures Agrees(m, chain.sets, Parse(env).value) {
        Agreement(chain, env, r, m);
      }
      SameOutcome(chain, env, rules[1..], policy);
    }
  }

  lemma LoadedKeys(chain: Chain, env: Env)
    requires Loaded(chain, env)
    ensures SetKeys(env) == ZeroKeys(chain.sets)
  {
  }

  lemma ParsedIfindex(env: Env)
    requires EnvOk(env) && Parse(env).Some?
    ensures Parse(env).value.ifindex == PacketIfindex(env)
  {
  }

  /** For such chains the image computes the documented verdict and counts as documented. */
  lemma DocumentedProgram(chain: Chain, env: Env, counters: seq<Counter>)
    requires Compiles(chain, env.btf) && SetsFit(chain) && Loaded(chain, env) && |chain.rules| + 1 < 0x1_0000_0000 && AllExact(chain, env)
    ensures var e := DocEval(chain, env);
            PacketSize(env) < TWO64 && Terminal(e.verdict) &&
            Reaches(ChainImage(chain, env), env, Start(counters),
                    Halted(Sext64(VerdictCode(chain.hook, e.verdict)), Count(counters, e.hits, PacketSize(env))))
  {
    hide BodyCode, Loaded, AllExact, Parse, Reaches, ChainImage, Start, Count, EvalRules, DocRules, ZeroKeys, EnvOk;
    CompilerCorrect(chain, env, counters);
    LoadedEnv(chain, env);
    LoadedKeys(chain, env);
    if Parse(env).Some? {
      SameOutcome(chain, env, chain.rules, Outcome(chain.policy, [|chain.rules|]));
    }
  }
}
