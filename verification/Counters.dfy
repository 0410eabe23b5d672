/** Counters over whole runs: what each slot has counted after any sequence of packets. */
module Counters {
  import opened Bytes
  import opened Bpf
  import opened Model
  import opened Machine
  import opened Fragment
  import opened Codegen
  import opened Spec
  import opened Vm
  import opened Compiler

  // ----- one packet -----

  /** Rules carry their position, as inserting them into a chain does. */
  predicate Indexed(rules: seq<Rule>, base: nat)
  {
    forall i :: 0 <= i < |rules| ==> rules[i].index == base + i
  }

  /** The rule matches and decides. */
  predicate Stops(r: Rule, keys: set<seq<byte>>, v: View)
    requires PayloadsOk(r.matchers) && ViewOk(v)
  {
    Terminal(r.verdict) && AcceptsAll(r.matchers, keys, v)
  }

  /** No rule before `i` has decided. */
  predicate Reached(rules: seq<Rule>, keys: set<seq<byte>>, v: View, i: nat)
    requires RulesOk(rules) && ViewOk(v) && i <= |rules|
  {
    forall j :: 0 <= j < i ==> !Stops(rules[j], keys, v)
  }

  predicate Counted(rules: seq<Rule>, keys: set<seq<byte>>, v: View, i: nat)
    requires RulesOk(rules) && ViewOk(v) && i < |rules|
  {
    rules[i].counters && Reached(rules, keys, v, i) && AcceptsAll(rules[i].matchers, keys, v)
  }

  predicate Increasing(hits: seq<nat>, lo: nat, hi: nat)
  {
    && (forall i :: 0 <= i < |hits| ==> lo <= hits[i] < hi)
    && forall i, j :: 0 <= i < j < |hits| ==> hits[i] < hits[j]
  }

  /** Outcome of rules whose first one has index `base`, with the policy in the slot after them. */
  function Outcomes(rules: seq<Rule>, keys: set<seq<byte>>, v: View, base: nat, policy: Verdict): (e: Outcome)
    requires RulesOk(rules) && ViewOk(v)
  {
    EvalRules(rules, keys, v, Outcome(policy, [base + |rules|]))
  }

  lemma OutcomesStep(rules: seq<Rule>, keys: set<seq<byte>>, v: View, base: nat, policy: Verdict)
    requires RulesOk(rules) && ViewOk(v) && rules != [] && Indexed(rules, base)
    ensures var r := rules[0];
            var e := Outcomes(rules[1..], keys, v, base + 1, policy).hits;
            var hit := r.counters && AcceptsAll(r.matchers, keys, v);
            Outcomes(rules, keys, v, base, policy).hits ==
            (if hit then [base as nat] else []) + (if Stops(r, keys, v) then [] else e)
  {
    hide AcceptsAll, PayloadsOk;
    assert base + 1 + |rules[1..]| == base + |rules|;
  }

  lemma {:induction false} HitsIncrease(rules: seq<Rule>, keys: set<seq<byte>>, v: View, base: nat, policy: Verdict)
    requires RulesOk(rules) && ViewOk(v) && Indexed(rules, base)
    ensures Increasing(Outcomes(rules, keys, v, base, policy).hits, base, base + |rules| + 1)
    decreases |rules|
  {
    if rules != [] {
      hide AcceptsAll, PayloadsOk, Outcomes;
      OutcomesStep(rules, keys, v, base, policy);
      HitsIncrease(rules[1..], keys, v, base + 1, policy);
    }
  }

  lemma ReachedStep(rules: seq<Rule>, keys: set<seq<byte>>, v: View, i: nat)
    requires RulesOk(rules) && ViewOk(v) && i < |rules|
    ensures Reached(rules, keys, v, i + 1) <==> !Stops(rules[0], keys, v) && Reached(rules[1..], keys, v, i)
  {
    hide Stops, PayloadsOk;
    var rest := rules[1..];
    assert forall j :: 0 <= j < i ==> rest[j] == rules[j + 1];
    if Reached(rest, keys, v, i) && !Stops(rules[0], keys, v) {
      forall j | 0 <= j < i + 1 ensures !Stops(rules[j], keys, v) {
        if j > 0 {
          assert rest[j - 1] == rules[j];
        }
      }
    }
    if Reached(rules, keys, v, i + 1) {
      assert !Stops(rules[0], keys, v);
    }
  }

  /** A packet is counted in slot `base + i` exactly if rule `i` counts, is reached and matches. */
  lemma {:induction false} HitsExact(rules: seq<Rule>, keys: set<seq<byte>>, v: View, base: nat, policy: Verdict, i: nat)
    requires RulesOk(rules) && ViewOk(v) && Indexed(rules, base) && i <= |rules|
    ensures base + i in Outcomes(rules, keys, v, base, policy).hits <==>
            if i < |rules| then Counted(rules, keys, v, i) else Reached(rules, keys, v, i)
    decreases |rules|
  {
    if rules == [] {
      assert Reached(rules, keys, v, 0);
    } else {
      hide AcceptsAll, PayloadsOk, Outcomes, Stops;
      var rest := rules[1..];
      OutcomesStep(rules, keys, v, base, policy);
      HitsIncrease(rest, keys, v, base + 1, policy);
      if i > 0 {
        HitsExact(rest, keys, v, base + 1, policy, i - 1);
        ReachedStep(rules, keys, v, i - 1);
        if i < |rules| {
          assert rest[i - 1] == rules[i];
        }
      } else {
        assert base !in Outcomes(rest, keys, v, base + 1, policy).hits;
        assert Reached(rules, keys, v, 0);
      }
    }
  }

  /** How a packet leaves the chain: through exactly one of these. */
  datatype Ending = ByRule(i: nat) | ByPolicy | ByError

  ghost predicate EndsBy(chain: Chain, env: Env, how: Ending)
    requires RulesOk(chain.rules) && EnvOk(env)
  {
    match Parse(env)
    case None => how == ByError
    case Some(v) =>
      match how
      case ByError => false
      case ByPolicy => Reached(chain.rules, SetKeys(env), v, |chain.rules|)
      case ByRule(i) => i < |chain.rules| && Reached(chain.rules, SetKeys(env), v, i) && Stops(chain.rules[i], SetKeys(env), v)
  }

  lemma EndingUnique(chain: Chain, env: Env, a: Ending, b: Ending)
    requires RulesOk(chain.rules) && EnvOk(env) && EndsBy(chain, env, a) && EndsBy(chain, env, b)
    ensures a == b
  {
    hide Stops, Parse, PayloadsOk;
  }

  lemma EndingExists(chain: Chain, env: Env) returns (how: Ending)
    requires RulesOk(chain.rules) && EnvOk(env)
    ensures EndsBy(chain, env, how)
  {
    hide Stops, Parse, PayloadsOk;
    match Parse(env)
    case None => how := ByError;
    case Some(v) =>
      var i := 0;
      while i < |chain.rules| && !Stops(chain.rules[i], SetKeys(env), v)
        invariant i <= |chain.rules| && Reached(chain.rules, SetKeys(env), v, i)
      {
        i := i + 1;
      }
      how := if i < |chain.rules| then ByRule(i) else ByPolicy;
  }

  /** What slot `i` of the counters map stands for. */
  ghost predicate CountsIn(chain: Chain, env: Env, i: nat)
    requires RulesOk(chain.rules) && EnvOk(env)
  {
    if i < |chain.rules| then Parse(env).Some? && Counted(chain.rules, SetKeys(env), Parse(env).value, i)
    else if i == |chain.rules| then EndsBy(chain, env, ByPolicy)
    else i == |chain.rules| + 1 && EndsBy(chain, env, ByError)
  }

  /** Every packet is counted at most once in a slot, and exactly in the slots that stand for what happened to it. */
  lemma PacketHits(chain: Chain, env: Env, i: nat)
    requires RulesOk(chain.rules) && EnvOk(env) && Indexed(chain.rules, 0)
    ensures var hits := Eval(chain, env).hits;
            Increasing(hits, 0, |chain.rules| + 2) && (i in hits <==> CountsIn(chain, env, i))
  {
    hide Parse, PayloadsOk, Stops, AcceptsAll;
    var n := |chain.rules|;
    match Parse(env)
    case None =>
    case Some(v) =>
      HitsIncrease(chain.rules, SetKeys(env), v, 0, chain.policy);
      assert Eval(chain, env) == Outcomes(chain.rules, SetKeys(env), v, 0, chain.policy);
      if i <= n {
        HitsExact(chain.rules, SetKeys(env), v, 0, chain.policy, i);
      }
  }

  // ----- runs -----

  predicate RunOk(chain: Chain, btf: Btf, envs: seq<Env>)
  {
    && Compiles(chain, btf) && SetsFit(chain) && |chain.rules| + 1 < 0x1_0000_0000
    && forall e :: e in envs ==> Loaded(chain, e) && e.btf == btf
  }

  /** The image, started with `counters`, ends with `next`. */
  ghost predicate OnePacket(chain: Chain, env: Env, counters: seq<Counter>, r0: u64, next: seq<Counter>)
    requires Compiles(chain, env.btf)
  {
    Reaches(ChainImage(chain, env), env, Start(counters), Halted(r0, next))
  }

  /** The machine processes the packets one after the other, keeping the counters. */
  ghost predicate Processes(chain: Chain, btf: Btf, envs: seq<Env>, counters: seq<Counter>, final: seq<Counter>)
    requires RunOk(chain, btf, envs)
    decreases |envs|
  {
    if envs == [] then final == counters
    else
      hide Compiles, SetsFit, Loaded;
      exists r0: u64, next: seq<Counter> ::
        OnePacket(chain, envs[0], counters, r0, next) && Processes(chain, btf, envs[1..], next, final)
  }

  /** Number of packets that count in slot `i`. */
  ghost function Packets(chain: Chain, envs: seq<Env>, i: nat): (n: nat)
    requires RulesOk(chain.rules) && forall e :: e in envs ==> EnvOk(e)
  {
    if envs == [] then 0 else (if CountsIn(chain, envs[0], i) then 1 else 0) + Packets(chain, envs[1..], i)
  }

  /** Bytes of the packets that count in slot `i`. */
  ghost function Volume(chain: Chain, envs: seq<Env>, i: nat): (n: nat)
    requires RulesOk(chain.rules) && forall e :: e in envs ==> EnvOk(e)
  {
    if envs == [] then 0 else (if CountsIn(chain, envs[0], i) then PacketSize(envs[0]) else 0) + Volume(chain, envs[1..], i)
  }

  /** One increasing list of hits adds one packet to the slots in it and leaves the others alone. */
  lemma {:induction false} CountSlot(counters: seq<Counter>, hits: seq<nat>, size: u64, lo: nat, hi: nat, i: nat)
    requires Increasing(hits, lo, hi) && i < |counters|
    ensures Count(counters, hits, size)[i] == if i in hits then Updated(counters[i], size) else counters[i]
    decreases |hits|
  {
    if hits != [] {
      var next := Bump(counters, hits[0], size);
      CountSlot(next, hits[1..], size, lo, hi, i);
      assert i in hits <==> i == hits[0] || i in hits[1..];
    }
  }

  lemma AddMod(a: nat, b: nat, c: nat)
    ensures ((a + b) % TWO64 + c) % TWO64 == (a + (b + c)) % TWO64
  {
  }

  lemma Accumulate(c: Counter, d: Counter, size: u64, n: nat, m: nat)
    ensures d == Updated(c, size) ==>
              (d.packets + n) % TWO64 == (c.packets + (1 + n)) % TWO64 && (d.bytes + m) % TWO64 == (c.bytes + (size + m)) % TWO64
  {
    AddMod(c.packets, 1, n);
    AddMod(c.bytes, size, m);
  }

  /**
   * Counter exactness. After any sequence of packets, each counter has grown by one packet, and by
   * the packet's size, for exactly the packets that count in it (modulo 2^64).
   */
  lemma {:induction false} CounterExact(chain: Chain, btf: Btf, envs: seq<Env>, counters: seq<Counter>, final: seq<Counter>, i: nat)
    requires RunOk(chain, btf, envs) && Indexed(chain.rules, 0) && Processes(chain, btf, envs, counters, final)
    requires |counters| == |chain.rules| + 2 && i < |counters|
    ensures |final| == |counters|
    ensures forall e :: e in envs ==> EnvOk(e)
    ensures final[i].packets == (counters[i].packets + Packets(chain, envs, i)) % TWO64
    ensures final[i].bytes == (counters[i].bytes + Volume(chain, envs, i)) % TWO64
    decreases |envs|
  {
    hide OnePacket, Compiles, SetsFit, CountsIn, EnvOk, Loaded, Indexed;
    CompilesRules(chain, btf);
    forall e | e in envs ensures EnvOk(e) {
      LoadedEnv(chain, e);
    }
    if envs != [] {
      var env := envs[0];
      var r0: u64, next :| OnePacket(chain, env, counters, r0, next) && Processes(chain, btf, envs[1..], next, final);
      FirstPacket(chain, env, counters, r0, next, i);
      CounterExact(chain, btf, envs[1..], next, final, i);
      Accumulate(counters[i], next[i], PacketSize(env), Packets(chain, envs[1..], i), Volume(chain, envs[1..], i));
    }
  }

  lemma CompilesRules(chain: Chain, btf: Btf)
    requires Compiles(chain, btf)
    ensures RulesOk(chain.rules)
  {
  }

  lemma FirstPacket(chain: Chain, env: Env, counters: seq<Counter>, r0: u64, next: seq<Counter>, i: nat)
    requires Compiles(chain, env.btf) && SetsFit(chain) && Loaded(chain, env) && |chain.rules| + 1 < 0x1_0000_0000 && Indexed(chain.rules, 0)
    requires i < |counters| && EnvOk(env)
    requires OnePacket(chain, env, counters, r0, next)
    ensures PacketSize(env) < TWO64 && |next| == |counters|
    ensures next[i] == if CountsIn(chain, env, i) then Updated(counters[i], PacketSize(env)) else counters[i]
  {
    hide Reaches, ChainImage, BodyCode, CountsIn, Eval, Start, EnvOk, Loaded, Count;
    CompilerCorrect(chain, env, counters);
    var e := Eval(chain, env);
    ReachesUnique(ChainImage(chain, env), env, Start(counters), Halted(r0, next),
                  Halted(Sext64(VerdictCode(chain.hook, e.verdict)), Count(counters, e.hits, PacketSize(env))));
    PacketHits(chain, env, i);
    CountSlot(counters, e.hits, PacketSize(env), 0, |chain.rules| + 2, i);
  }

  // ----- conservation -----

  /** Packets counted in the slots below `m`. */
  ghost function Total(chain: Chain, envs: seq<Env>, m: nat): (n: nat)
    requires RulesOk(chain.rules) && forall e :: e in envs ==> EnvOk(e)
  {
    if m == 0 then 0 else Packets(chain, envs, m - 1) + Total(chain, envs, m - 1)
  }

  /** Slots below `m` that a packet counts in. */
  ghost function Slots(chain: Chain, env: Env, m: nat): (n: nat)
    requires RulesOk(chain.rules) && EnvOk(env)
  {
    if m == 0 then 0 else (if CountsIn(chain, env, m - 1) then 1 else 0) + Slots(chain, env, m - 1)
  }

  lemma {:induction false} TotalStep(chain: Chain, envs: seq<Env>, m: nat)
    requires RulesOk(chain.rules) && envs != [] && forall e :: e in envs ==> EnvOk(e)
    ensures Total(chain, envs, m) == Slots(chain, envs[0], m) + Total(chain, envs[1..], m)
  {
    hide CountsIn, EnvOk;
    if m > 0 {
      TotalStep(chain, envs, m - 1);
    }
  }

  lemma {:induction false} TotalEmpty(chain: Chain, m: nat)
    requires RulesOk(chain.rules)
    ensures Total(chain, [], m) == 0
  {
    if m > 0 {
      TotalEmpty(chain, m - 1);
    }
  }

  lemma {:induction false} OneSlot(chain: Chain, env: Env, k: nat, m: nat)
    requires RulesOk(chain.rules) && EnvOk(env) && forall i: nat :: CountsIn(chain, env, i) <==> i == k
    ensures Slots(chain, env, m) == if k < m then 1 else 0
  {
    hide CountsIn, EnvOk;
    if m > 0 {
      OneSlot(chain, env, k, m - 1);
    }
  }

  /** Every rule counts and decides. */
  predicate AllDecide(rules: seq<Rule>)
  {
    forall r :: r in rules ==> r.counters && Terminal(r.verdict)
  }

  lemma SlotOfEnding(chain: Chain, env: Env) returns (k: nat)
    requires RulesOk(chain.rules) && EnvOk(env) && AllDecide(chain.rules)
    ensures k < |chain.rules| + 2 && forall i: nat :: CountsIn(chain, env, i) <==> i == k
  {
    hide Parse, PayloadsOk, AcceptsAll;
    var how := EndingExists(chain, env);
    var n := |chain.rules|;
    k := match how case ByRule(i) => i case ByPolicy => n case ByError => n + 1;
    forall i: nat ensures CountsIn(chain, env, i) <==> i == k {
      var slot := if i < n then ByRule(i) else if i == n then ByPolicy else ByError;
      if i <= n + 1 {
        if i < n && Parse(env).Some? {
          assert chain.rules[i] in chain.rules;
        }
        assert CountsIn(chain, env, i) <==> EndsBy(chain, env, slot);
        if EndsBy(chain, env, slot) {
          EndingUnique(chain, env, how, slot);
        }
      }
    }
  }

  /** If every rule counts and decides, the counters add up to the number of packets. */
  lemma {:induction false} Conservation(chain: Chain, envs: seq<Env>)
    requires RulesOk(chain.rules) && AllDecide(chain.rules) && forall e :: e in envs ==> EnvOk(e)
    ensures Total(chain, envs, |chain.rules| + 2) == |envs|
    decreases |envs|
  {
    hide CountsIn, EnvOk, RulesOk, AllDecide;
    if envs == [] {
      TotalEmpty(chain, |chain.rules| + 2);
    } else {
      var k := SlotOfEnding(chain, envs[0]);
      OneSlot(chain, envs[0], k, |chain.rules| + 2);
      TotalStep(chain, envs, |chain.rules| + 2);
      Conservation(chain, envs[1..]);
    }
  }

  /** Packets in the first `m` counters. */
  function PacketSum(counters: seq<Counter>, m: nat): (n: nat)
    requires m <= |counters|
  {
    if m == 0 then 0 else counters[m - 1].packets + PacketSum(counters, m - 1)
  }

  lemma AddMods(a: nat, b: nat, c: nat, d: nat, x: nat, y: nat)
    requires x == (a + b) % TWO64 && y % TWO64 == (c + d) % TWO64
    ensures (x + y) % TWO64 == (a + c + (b + d)) % TWO64
  {
    AddMod(0, a + b, y);
    ModAdd(a + b, y);
    ModAdd(a + b, c + d);
  }

  lemma ModAdd(a: nat, b: nat)
    ensures (a + b) % TWO64 == (a + b % TWO64) % TWO64
  {
  }

  lemma {:induction false} SumExact(chain: Chain, btf: Btf, envs: seq<Env>, counters: seq<Counter>, final: seq<Counter>, m: nat)
    requires RunOk(chain, btf, envs) && Indexed(chain.rules, 0) && Processes(chain, btf, envs, counters, final)
    requires |counters| == |chain.rules| + 2 && m <= |counters|
    ensures |final| == |counters| && RulesOk(chain.rules) && forall e :: e in envs ==> EnvOk(e)
    ensures PacketSum(final, m) % TWO64 == (PacketSum(counters, m) + Total(chain, envs, m)) % TWO64
    decreases m
  {
    hide Processes, Compiles, SetsFit, EnvOk, Loaded, Indexed, Packets;
    CompilesRules(chain, btf);
    CounterExact(chain, btf, envs, counters, final, if m == 0 then 0 else m - 1);
    if m > 0 {
      SumExact(chain, btf, envs, counters, final, m - 1);
      AddMods(counters[m - 1].packets, Packets(chain, envs, m - 1), PacketSum(counters, m - 1), Total(chain, envs, m - 1),
              final[m - 1].packets, PacketSum(final, m - 1));
    }
  }

  /**
   * Conservation on the machine: when every rule counts and decides, the map's packet counters
   * together grow by the number of packets processed (modulo 2^64).
   */
  lemma MachineConservation(chain: Chain, btf: Btf, envs: seq<Env>, counters: seq<Counter>, final: seq<Counter>)
    requires RunOk(chain, btf, envs) && Indexed(chain.rules, 0) && AllDecide(chain.rules)
    requires |counters| == |chain.rules| + 2 && Processes(chain, btf, envs, counters, final)
    ensures |final| == |counters|
    ensures PacketSum(final, |final|) % TWO64 == (PacketSum(counters, |counters|) + |envs|) % TWO64
  {
    hide Processes, Compiles, SetsFit, EnvOk, Loaded, Indexed, RulesOk, AllDecide, Total, PacketSum;
    SumExact(chain, btf, envs, counters, final, |counters|);
    Conservation(chain, envs);
  }

  /** Every sequence of packets has a result. */
  lemma {:induction false} ProcessesAll(chain: Chain, btf: Btf, envs: seq<Env>, counters: seq<Counter>) returns (final: seq<Counter>)
    requires RunOk(chain, btf, envs)
    ensures Processes(chain, btf, envs, counters, final)
    decreases |envs|
  {
    hide OnePacket, Compiles, SetsFit, Loaded;
    if envs == [] {
      final := counters;
    } else {
      var r0, next := RunsOnce(chain, envs[0], counters);
      final := ProcessesAll(chain, btf, envs[1..], next);
    }
  }

  lemma RunsOnce(chain: Chain, env: Env, counters: seq<Counter>) returns (r0: u64, next: seq<Counter>)
    requires Compiles(chain, env.btf) && SetsFit(chain) && Loaded(chain, env) && |chain.rules| + 1 < 0x1_0000_0000
    ensures OnePacket(chain, env, counters, r0, next)
  {
    hide Reaches, ChainImage, BodyCode, Eval, Start, EnvOk, Loaded, Count;
    CompilerCorrect(chain, env, counters);
    LoadedEnv(chain, env);
    var e := Eval(chain, env);
    r0, next := Sext64(VerdictCode(chain.hook, e.verdict)), Count(counters, e.hits, PacketSize(env));
  }

  /** And only one. */
  lemma {:induction false} ProcessesUnique(chain: Chain, btf: Btf, envs: seq<Env>, counters: seq<Counter>, a: seq<Counter>, b: seq<Counter>)
    requires RunOk(chain, btf, envs) && Processes(chain, btf, envs, counters, a) && Processes(chain, btf, envs, counters, b)
    ensures a == b
    decreases |envs|
  {
    hide OnePacket, Compiles, SetsFit, Loaded;
    if envs != [] {
      var r: u64, c :| OnePacket(chain, envs[0], counters, r, c) && Processes(chain, btf, envs[1..], c, a);
      var s: u64, d :| OnePacket(chain, envs[0], counters, s, d) && Processes(chain, btf, envs[1..], d, b);
      SameResult(chain, envs[0], counters, r, c, s, d);
      ProcessesUnique(chain, btf, envs[1..], c, a, b);
    }
  }

  lemma SameResult(chain: Chain, env: Env, counters: seq<Counter>, r: u64, c: seq<Counter>, s: u64, d: seq<Counter>)
    requires Compiles(chain, env.btf) && OnePacket(chain, env, counters, r, c) && OnePacket(chain, env, counters, s, d)
    ensures c == d
  {
    hide Reaches, ChainImage, Start, Compiles;
    ReachesUnique(ChainImage(chain, env), env, Start(counters), Halted(r, c), Halted(s, d));
  }

  // ----- reading counters -----

  const COUNTER_POLICY := -1
  const COUNTER_ERRORS := -2

  /** Slot the reader uses for a counter: a rule's position, or one of the special values. */
  function ReaderSlot(chain: Chain, which: int): (r: Result<nat>)
  {
    var n := |chain.rules|;
    if which == COUNTER_POLICY then Ok(n)
    else if which == COUNTER_ERRORS then Ok(n + 1)
    else if which < 0 || which >= n then Err(EINVAL)
    else Ok(which)
  }

  /** Name a reader has for the slots that packets are counted in. */
  ghost predicate CountsAs(chain: Chain, env: Env, which: int)
    requires RulesOk(chain.rules) && EnvOk(env)
  {
    if which == -1 then EndsBy(chain, env, ByPolicy)
    else if which == -2 then EndsBy(chain, env, ByError)
    else 0 <= which < |chain.rules| && Parse(env).Some? && Counted(chain.rules, SetKeys(env), Parse(env).value, which)
  }

  /** The reader and the program agree on the slots, and all of them are inside the map. */
  lemma ReaderAgrees(chain: Chain, env: Env, which: int)
    requires RulesOk(chain.rules) && EnvOk(env) && Indexed(chain.rules, 0)
    ensures match ReaderSlot(chain, which)
            case Ok(slot) => slot < |chain.rules| + 2 && (slot in Eval(chain, env).hits <==> CountsAs(chain, env, which))
            case Err(_) => !CountsAs(chain, env, which)
  {
    hide Parse, Eval, Counted;
    var slot := ReaderSlot(chain, which);
    if slot.Ok? {
      PacketHits(chain, env, slot.value);
    }
  }
}
