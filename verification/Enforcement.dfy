/** What the registry installs decides packets as its chains say. */
module Enforcement {
  import opened Bpf
  import opened Model
  import opened Machine
  import opened Codegen
  import opened Spec
  import opened Vm
  import opened Compiler
  import opened Loading
  import opened Context

  /** Every entry is filed under its chain's key, with a program generated from that chain and loaded. */
  ghost predicate AllEnforced(m: map<Key, Entry>, btf: Btf)
  {
    forall k :: k in m ==> EntryOk(m[k], k, btf)
  }

  ghost predicate EntryOk(e: Entry, k: Key, btf: Btf)
  {
    ChainKey(e.chain) == k && RulesOk(e.chain.rules) && Terminal(e.chain.policy) && Enforces(e.program, e.chain, btf)
  }

  lemma ApplyEnforces(m: map<Key, Entry>, q: Request, btf: Btf)
    requires AllEnforced(m, btf) && ReqOk(q)
    ensures AllEnforced(Apply(m, q, btf), btf)
  {
    hide ProgramOf, ChainIn, RulesOk, ChainKey;
    if q.SetReq? && Answer(q, btf).Ok? {
      var (c, p) := Answer(q, btf).value;
      assert Enforces(p, c, btf);
    }
  }

  lemma {:induction false} RunEnforces(m: map<Key, Entry>, qs: seq<Request>, btf: Btf)
    requires AllEnforced(m, btf) && forall q :: q in qs ==> ReqOk(q)
    ensures AllEnforced(ApplyAll(m, qs, btf), btf)
    decreases |qs|
  {
    hide AllEnforced, Apply, ReqOk;
    if qs != [] {
      ApplyEnforces(m, qs[0], btf);
      RunEnforces(Apply(m, qs[0], btf), qs[1..], btf);
    }
  }

  /** The chain's premises of the compiler theorem. */
  predicate Sound(c: Chain, btf: Btf)
  {
    Compiles(c, btf) && SetsFit(c) && |c.rules| + 1 < 0x1_0000_0000
  }

  /** An environment of a packet at the chain's hook, with the maps the program was linked to. */
  predicate RunsIn(c: Chain, k: Kernel, btf: Btf, env: Env)
  {
    env.btf == btf && Loaded(c, env) && HasMaps(env, CountersFd(c, k), SetFds(c, k))
  }

  /** There is one for every packet, if the kernel gives the counters a descriptor of their own. */
  lemma EveryPacketRuns(c: Chain, k: Kernel, p: Env)
    requires EnvOk(p) && forall i :: 0 <= i < |c.sets| ==> k.mapFd(i) != CountersFd(c, k)
    ensures var m := MapsEnv(c, p.btf, k);
            RunsIn(c, k, p.btf, p.(hook := c.hook, cmapFd := m.cmapFd, sets := m.sets))
  {
    hide CountersFd, FirstFds;
    var m := MapsEnv(c, p.btf, k);
    forall s | s in m.sets ensures s.fd != m.cmapFd {
      var i :| 0 <= i < |m.sets| && m.sets[i] == s;
      assert s.fd == k.mapFd(i);
    }
  }

  /** The program ends on the packet with the chain's verdict, and counts as the chain says. */
  ghost predicate DecidesAs(program: seq<Insn>, c: Chain, env: Env, counters: seq<Counter>)
    requires RulesOk(c.rules)
  {
    EnvOk(env) &&
    var e := Eval(c, env);
    PacketSize(env) < TWO64 && Terminal(e.verdict) &&
    Reaches(program, env, Start(counters),
            Halted(Sext64(VerdictCode(c.hook, e.verdict)), Count(counters, e.hits, PacketSize(env))))
  }

  /** It decides so on every packet, whatever the counters are and whichever descriptors it was linked to. */
  ghost predicate AlwaysDecides(e: Entry, btf: Btf)
    requires RulesOk(e.chain.rules) && Terminal(e.chain.policy)
  {
    forall k: Kernel, env: Env, counters: seq<Counter> ::
      ProgramOf(e.chain, btf, k) == Ok(e.program) && RunsIn(e.chain, k, btf, env) ==>
        DecidesAs(e.program, e.chain, env, counters)
  }

  lemma ProgramDecides(c: Chain, k: Kernel, env: Env, counters: seq<Counter>)
    requires Sound(c, env.btf) && RunsIn(c, k, env.btf, env) && ProgramOf(c, env.btf, k).Ok?
    ensures DecidesAs(ProgramOf(c, env.btf, k).value, c, env, counters)
  {
    hide Compiles, SetsFit, ProgramOf, HasMaps, Eval, Reaches, Start, Count, ChainImage, Loaded;
    LoadedEnv(c, env);
    ProgramIsImage(c, k, env);
    CompilerCorrect(c, env, counters);
  }

  lemma EntryDecides(e: Entry, btf: Btf)
    requires RulesOk(e.chain.rules) && Terminal(e.chain.policy) && Sound(e.chain, btf)
    ensures AlwaysDecides(e, btf)
  {
    hide Sound, ProgramOf, Loaded, HasMaps, DecidesAs, RulesOk;
    forall k: Kernel, env: Env, counters: seq<Counter>
      | ProgramOf(e.chain, btf, k) == Ok(e.program) && RunsIn(e.chain, k, btf, env)
      ensures DecidesAs(e.program, e.chain, env, counters)
    {
      ProgramDecides(e.chain, k, env, counters);
    }
  }

  /**
   * After any run of requests, what is at a key is filed under its chain's key, was generated from
   * that chain and loaded, and decides every packet as that chain does.
   */
  lemma InstalledDecides(qs: seq<Request>, btf: Btf, key: Key)
    requires forall q :: q in qs ==> ReqOk(q)
    requires key in ApplyAll(map[], qs, btf)
    ensures var e := ApplyAll(map[], qs, btf)[key];
            EntryOk(e, key, btf) && (Sound(e.chain, btf) ==> AlwaysDecides(e, btf))
  {
    hide Sound, DecidesAs, ProgramOf, ApplyAll, ReqOk, RulesOk, ChainKey;
    RunEnforces(map[], qs, btf);
    var e := ApplyAll(map[], qs, btf)[key];
    assert EntryOk(e, key, btf);
    if Sound(e.chain, btf) {
      EntryDecides(e, btf);
    }
  }

  /** So do the programs of the registry itself. */
  method RunAndLook(qs: seq<Request>, btf: Btf) returns (ctx: Ctx)
    requires forall q :: q in qs ==> ReqOk(q)
    ensures fresh(ctx) && ctx.Valid() && ctx.Refines(ApplyAll(map[], qs, btf))
    ensures forall key :: ctx.At(key).Some? ==>
              EntryOk(ctx.At(key).value, key, btf) &&
              (Sound(ctx.At(key).value.chain, btf) ==> AlwaysDecides(ctx.At(key).value, btf))
  {
    hide Sound, ApplyAll, ReqOk, Ctx.Valid, Ctx.At, RulesOk, ChainKey, Enforces, AlwaysDecides;
    ctx := RunAll(qs, btf);
    forall key | ctx.At(key).Some?
      ensures EntryOk(ctx.At(key).value, key, btf) &&
              (Sound(ctx.At(key).value.chain, btf) ==> AlwaysDecides(ctx.At(key).value, btf))
    {
      InstalledDecides(qs, btf, key);
    }
  }
}
