/** The registry of codegens, and the requests that change it. */
module Context {
  import opened Bytes
  import opened Bpf
  import opened Model
  import opened Machine
  import opened Fragment
  import opened Codegen
  import opened Marsh
  import opened Codec
  import opened ChainCodec
  import opened Serializer
  import opened Linker
  import opened Compiler
  import opened Loading

  /** What a codegen is looked up by. */
  datatype Key = ByIfindex(hook: Hook, ifindex: u32) | ByCgroup(hook: Hook, cgroup: Option<seq<byte>>) | ByHook(hook: Hook)

  function KeyOf(h: Hook, o: HookOpts): (k: Key)
    ensures k.hook == h
  {
    if IsNf(h) then ByHook(h) else if IsCgroup(h) then ByCgroup(h, o.cgroup) else ByIfindex(h, o.ifindex)
  }

  function ChainKey(c: Chain): (k: Key)
    ensures k.hook == c.hook
  {
    KeyOf(c.hook, c.opts)
  }

  /** The options that tell the codegens of a hook apart, hook by hook. */
  predicate SamePlace(h: Hook, a: HookOpts, b: HookOpts)
  {
    match h
    case Xdp | TcIngress | TcEgress => a.ifindex == b.ifindex
    case CgroupIngress | CgroupEgress => a.cgroup == b.cgroup
    case NfPreRouting | NfLocalIn | NfForward | NfLocalOut | NfPostRouting => true
  }

  lemma SameKeyIff(h: Hook, a: HookOpts, j: Hook, b: HookOpts)
    ensures KeyOf(h, a) == KeyOf(j, b) <==> h == j && SamePlace(h, a, b)
  {
  }

  /** The kernel's part in a load: descriptors of the maps it creates, in order, and its answer. */
  datatype Kernel = Kernel(mapFd: nat -> i32, load: Result<()>)

  /** Maps of the sets are created first. */
  function SetFds(c: Chain, k: Kernel): (fds: seq<i32>)
    ensures |fds| == |c.sets| && forall i :: 0 <= i < |fds| ==> fds[i] == k.mapFd(i)
  {
    FirstFds(k, |c.sets|)
  }

  /** The first `n` descriptors. */
  function FirstFds(k: Kernel, n: nat): (fds: seq<i32>)
    ensures |fds| == n && forall i :: 0 <= i < n ==> fds[i] == k.mapFd(i)
  {
    if n == 0 then [] else FirstFds(k, n - 1) + [k.mapFd(n - 1)]
  }

  /** Then the map of the counters. */
  function CountersFd(c: Chain, k: Kernel): (fd: i32)
  {
    k.mapFd(|c.sets|)
  }

  /** An environment with those maps. */
  function MapsEnv(c: Chain, btf: Btf, k: Kernel): (env: Env)
    ensures HasMaps(env, CountersFd(c, k), SetFds(c, k))
  {
    var fds := SetFds(c, k);
    Env(c.hook, btf, [], 0, 0, 0, 0, true, {}, CountersFd(c, k),
        seq(|fds|, i requires 0 <= i < |fds| => SetMap(fds[i], ElemSize(c.sets[i].kind), set e | e in c.sets[i].elems)))
  }

  /** The program of a chain: generated, linked to its maps, and taken by the kernel. */
  function ProgramOf(c: Chain, btf: Btf, k: Kernel): (r: Result<seq<Insn>>)
    requires RulesOk(c.rules) && Terminal(c.policy)
  {
    match BodyCode(c, btf)
    case Err(e) => Err(e)
    case Ok(body) =>
      if c.sets == [] && AnyLooksUp(c.rules) then Err(ENOENT)
      else match k.load
        case Err(e) => Err(e)
        case Ok(_) => Ok(Image(body + SubCode(), |body|, MapsEnv(c, btf, k)))
  }

  /** `program` was generated from the chain and loaded. */
  ghost predicate Enforces(program: seq<Insn>, c: Chain, btf: Btf)
    requires RulesOk(c.rules) && Terminal(c.policy)
  {
    exists k :: ProgramOf(c, btf, k) == Ok(program)
  }

  lemma SameMaps(code: Code, fn: nat, a: Env, b: Env, cmapFd: i32, setFds: seq<i32>)
    requires HasMaps(a, cmapFd, setFds) && HasMaps(b, cmapFd, setFds)
    ensures Image(code, fn, a) == Image(code, fn, b)
  {
    forall i | 0 <= i < |code| ensures Patched(code[i], i, fn, a) == Patched(code[i], i, fn, b) {
    }
  }

  /** It is the image of the compiler theorem in every environment that has the maps it was linked to. */
  lemma ProgramIsImage(c: Chain, k: Kernel, env: Env)
    requires Compiles(c, env.btf) && ProgramOf(c, env.btf, k).Ok? && HasMaps(env, CountersFd(c, k), SetFds(c, k))
    ensures ProgramOf(c, env.btf, k).value == ChainImage(c, env)
  {
    hide BodyCode, SubCode, Image, HasMaps, AnyLooksUp;
    var body := BodyCode(c, env.btf).value;
    SameMaps(body + SubCode(), |body|, MapsEnv(c, env.btf, k), env, CountersFd(c, k), SetFds(c, k));
  }

  /** Generate and load a program. */
  method LoadProgram(c: Chain, btf: Btf, k: Kernel) returns (r: Result<seq<Insn>>)
    requires RulesOk(c.rules) && Terminal(c.policy)
    ensures r == ProgramOf(c, btf, k)
  {
    hide BodyCode, SubCode, Image, HasMaps, AnyLooksUp, RulesOk, SetsFit;
    var img :- Build(c, SetFds(c, k), CountersFd(c, k), MapsEnv(c, btf, k), btf);
    var _ :- k.load;
    r := Ok(img);
  }

  /** A chain with the program that enforces it. */
  datatype Entry = Entry(front: Front, chain: Chain, program: seq<Insn>)

  class Cgen {
    const front: Front
    var chain: Chain
    var program: Option<seq<Insn>>

    constructor (front: Front, chain: Chain)
      ensures this.front == front && this.chain == chain && program == None
    {
      this.front, this.chain, program := front, chain, None;
    }

    /** Generate and load the first program. */
    method Up(btf: Btf, k: Kernel) returns (r: Result<()>)
      requires RulesOk(chain.rules) && Terminal(chain.policy)
      modifies this
      ensures chain == old(chain)
      ensures match ProgramOf(chain, btf, k)
              case Ok(p) => r.Ok? && program == Some(p)
              case Err(e) => r == Err(e) && program == old(program)
    {
      hide ProgramOf, RulesOk;
      var prog :- LoadProgram(chain, btf, k);
      program := Some(prog);
      r := Ok(());
    }

    /** Replace chain and program together, or neither. */
    method Update(newChain: Chain, btf: Btf, k: Kernel) returns (r: Result<()>)
      requires RulesOk(newChain.rules) && Terminal(newChain.policy)
      modifies this
      ensures match ProgramOf(newChain, btf, k)
              case Ok(p) => r.Ok? && chain == newChain && program == Some(p)
              case Err(e) => r == Err(e) && chain == old(chain) && program == old(program)
    {
      hide ProgramOf, RulesOk;
      var prog :- LoadProgram(newChain, btf, k);
      program := Some(prog);
      chain := newChain;
      r := Ok(());
    }

    ghost function View(): (e: Entry)
      requires program.Some?
      reads this
    {
      Entry(front, chain, program.value)
    }
  }

  /** The codegens of one hook: filed under their hook, loaded, one per key. */
  ghost predicate ListOk(h: Hook, gs: seq<Cgen>, btf: Btf)
    reads gs
  {
    && (forall i :: 0 <= i < |gs| ==> CgenOk(h, gs[i], btf))
    && (forall i, j :: 0 <= i < j < |gs| ==> ChainKey(gs[i].chain) != ChainKey(gs[j].chain))
  }

  ghost predicate CgenOk(h: Hook, g: Cgen, btf: Btf)
    reads g
  {
    && g.chain.hook == h && RulesOk(g.chain.rules) && Terminal(g.chain.policy)
    && g.program.Some? && Enforces(g.program.value, g.chain, btf)
  }

  /** First codegen of a list with a key. */
  ghost function Find(gs: seq<Cgen>, k: Key): (r: Option<Cgen>)
    reads gs
    ensures r.Some? ==> r.value in gs && ChainKey(r.value.chain) == k
    ensures r == None ==> forall g :: g in gs ==> ChainKey(g.chain) != k
  {
    if gs == [] then None
    else if ChainKey(gs[0].chain) == k then Some(gs[0])
    else Find(gs[1..], k)
  }

  /** The key, chain and program of a found codegen. */
  ghost function Seen(r: Option<Cgen>): (e: Option<Entry>)
    reads match r case Some(g) => {g} case None => {}
  {
    match r
    case Some(g) => if g.program.Some? then Some(g.View()) else None
    case None => None
  }

  function HookIndex(h: Hook): (i: nat)
    ensures i < |HOOKS| && HOOKS[i] == h
  {
    match h
    case Xdp => 0 case TcIngress => 1 case NfPreRouting => 2 case NfLocalIn => 3 case NfForward => 4
    case CgroupIngress => 5 case CgroupEgress => 6 case NfLocalOut => 7 case NfPostRouting => 8 case TcEgress => 9
  }

  function NoCgens(): (r: seq<seq<Cgen>>)
    ensures |r| == |HOOKS| && forall i :: 0 <= i < |r| ==> r[i] == []
  {
    [[], [], [], [], [], [], [], [], [], []]
  }

  lemma NoneFiled(h: Hook, btf: Btf)
    ensures ListOk(h, [], btf) && forall k :: Seen(Find([], k)) == None
  {
  }

  // ----- requests -----

  /** A request, with the kernel's answer where it needs one. */
  datatype Request = SetReq(bs: seq<byte>, kernel: Kernel) | FlushReq(unload: nat -> Result<()>)

  /** The chain in a request's data. */
  function ChainIn(bs: seq<byte>): (r: Result<Chain>)
    ensures r.Ok? ==> Terminal(r.value.policy)
  {
    if |bs| < HDR then Err(EINVAL) else if !NodeAt(bs, 0) then Err(OutOfBounds) else ReadChain(bs, 0)
  }

  /** Matchers carry the bytes the generator reads. */
  predicate ReqOk(q: Request)
  {
    q.SetReq? && ChainIn(q.bs).Ok? ==> RulesOk(ChainIn(q.bs).value.rules)
  }

  /** What is at a key once `c` is set there. */
  function Installed(c: Chain, was: Option<Entry>, program: seq<Insn>): (e: Entry)
  {
    Entry(if was.Some? then was.value.front else FrontCli, c, program)
  }

  /** Chain and program of a request, if all goes well. */
  function Answer(q: Request, btf: Btf): (r: Result<(Chain, seq<Insn>)>)
    requires ReqOk(q) && q.SetReq?
    ensures r.Ok? ==> ChainIn(q.bs) == Ok(r.value.0)
  {
    var c :- ChainIn(q.bs);
    var p :- ProgramOf(c, btf, q.kernel);
    Ok((c, p))
  }

  /** The same requests on a plain map. */
  function Apply(m: map<Key, Entry>, q: Request, btf: Btf): (r: map<Key, Entry>)
    requires ReqOk(q)
  {
    match q
    case FlushReq(_) => map[]
    case SetReq(_, _) =>
      match Answer(q, btf)
      case Err(_) => m
      case Ok((c, p)) => m[ChainKey(c) := Installed(c, if ChainKey(c) in m then Some(m[ChainKey(c)]) else None, p)]
  }

  function ApplyAll(m: map<Key, Entry>, qs: seq<Request>, btf: Btf): (r: map<Key, Entry>)
    requires forall q :: q in qs ==> ReqOk(q)
    decreases |qs|
  {
    if qs == [] then m else ApplyAll(Apply(m, qs[0], btf), qs[1..], btf)
  }

  class Ctx {
    const btf: Btf
    var cgens: seq<seq<Cgen>>
    ghost var repr: set<Cgen>

    constructor (btf: Btf)
      ensures Valid() && this.btf == btf && repr == {} && forall k :: At(k) == None
    {
      this.btf := btf;
      cgens := NoCgens();
      repr := {};
      new;
      hide Find, Seen, HookIndex, ListOk;
      forall h ensures ListOk(h, [], btf) && forall k :: Seen(Find([], k)) == None {
        NoneFiled(h, btf);
      }
    }

    ghost predicate Valid()
      reads this, repr
    {
      && |cgens| == |HOOKS|
      && (forall i, g :: 0 <= i < |cgens| && g in cgens[i] ==> g in repr)
      && (forall i :: 0 <= i < |cgens| ==> ListOk(HOOKS[i], cgens[i], btf))
    }

    /** The map from keys to entries that the context stands for. */
    ghost function At(k: Key): (e: Option<Entry>)
      requires Valid()
      reads this, repr
    {
      Seen(Find(cgens[HookIndex(k.hook)], k))
    }

    /** Look a codegen up as the hook's getter does. */
    method GetCgen(h: Hook, o: HookOpts) returns (g: Cgen?)
      requires Valid()
      ensures Find(cgens[HookIndex(h)], KeyOf(h, o)) == if g == null then None else Some(g)
      ensures if g == null then forall x :: x in cgens[HookIndex(h)] ==> !SamePlace(h, x.chain.opts, o)
              else g in cgens[HookIndex(h)] && g.chain.hook == h && SamePlace(h, g.chain.opts, o)
    {
      hide ListOk, CgenOk, HookIndex, Find, KeyOf, SamePlace;
      var list := cgens[HookIndex(h)];
      ListOfHook(h);
      FoundPlace(h, list, o, btf);
      if IsNf(h) {
        NfFound(h, list, o, btf);
        return if list == [] then null else list[0];
      }
      var i := 0;
      FindFrom(list, KeyOf(h, o), 0);
      while i < |list|
        invariant 0 <= i <= |list|
        invariant Find(list, KeyOf(h, o)) == Find(list[i..], KeyOf(h, o))
      {
        var c := list[i].chain;
        FindFrom(list, KeyOf(h, o), i);
        KeyTest(h, list, i, o, btf);
        if if IsCgroup(h) then c.opts.cgroup == o.cgroup else c.opts.ifindex == o.ifindex {
          return list[i];
        }
        i := i + 1;
      }
      FindFrom(list, KeyOf(h, o), i);
      return null;
    }

    /** File a codegen that has been brought up. */
    method SetCgen(g: Cgen) returns (r: Result<()>)
      requires Valid() && CgenOk(g.chain.hook, g, btf) && g !in repr
      modifies this
      ensures Valid() && repr <= old(repr) + {g}
      ensures r == if old(At(ChainKey(g.chain))).Some? then Err(EEXIST) else Ok(())
      ensures forall k :: At(k) == if r.Ok? && k == ChainKey(g.chain) then Some(g.View()) else old(At(k))
    {
      hide ListOk, CgenOk, Find, HookIndex, Seen, ChainKey, KeyOf, SamePlace;
      var h := g.chain.hook;
      var i := HookIndex(h);
      SameHook();
      ghost var list := cgens[i];
      ListOfHook(h);
      FoundIsSeen(h, list, btf);
      KeyIs(g.chain);
      var other := GetCgen(h, g.chain.opts);
      if other != null {
        return Err(EEXIST);
      }
      ListMore(h, list, g, btf);
      CgenSeen(h, g, btf);
      forall k: Key ensures Seen(Find(list + [g], k)) == if k == ChainKey(g.chain) then Some(g.View()) else Seen(Find(list, k)) {
        SeenAppend(h, list, g, k, btf);
      }
      cgens := cgens[i := cgens[i] + [g]];
      repr := repr + {g};
      r := Ok(());
    }

    /** Replace chain and program of a filed codegen. */
    method UpdateCgen(g: Cgen, c: Chain, k: Kernel) returns (r: Result<()>)
      requires Valid() && RulesOk(c.rules) && Terminal(c.policy)
      requires Find(cgens[HookIndex(c.hook)], ChainKey(c)) == Some(g)
      modifies g
      ensures Valid()
      ensures match ProgramOf(c, btf, k)
              case Ok(p) => r.Ok? && forall key :: At(key) == if key == ChainKey(c) then Some(Entry(g.front, c, p)) else old(At(key))
              case Err(e) => r == Err(e) && forall key :: At(key) == old(At(key))
    {
      hide ListOk, ProgramOf, RulesOk, HookIndex;
      var h := c.hook;
      assert ListOk(h, cgens[HookIndex(h)], btf) by {
        ListOfHook(h);
      }
      FiledOk(h, cgens[HookIndex(h)], g, btf);
      r := g.Update(c, btf, k);
      KeysKept(g, c);
    }

    lemma ListOfHook(h: Hook)
      requires Valid()
      ensures ListOk(h, cgens[HookIndex(h)], btf)
    {
      hide ListOk;
    }

    /**
     * The set-rules request: create or update. Success puts the new chain and a program generated
     * from it at the chain's key and changes no other key; failure changes nothing.
     */
    method SetRules(bs: seq<byte>, k: Kernel) returns (r: Result<()>)
      requires Valid() && ReqOk(SetReq(bs, k))
      modifies this, repr
      ensures Valid() && fresh(repr - old(repr))
      ensures match Answer(SetReq(bs, k), btf)
              case Ok((c, p)) =>
                r.Ok? && forall key :: At(key) == if key == ChainKey(c) then Some(Installed(c, old(At(key)), p)) else old(At(key))
              case Err(e) => r == Err(e) && forall key :: At(key) == old(At(key))
    {
      hide Valid, At, ReadChain, ProgramOf, RulesOk, NodeAt, ChainKey, Installed;
      if |bs| < HDR {
        return Err(EINVAL);
      }
      if !NodeAt(bs, 0) {
        return Err(OutOfBounds);
      }
      var chain :- UnmarshChain(bs, 0);
      r := SetChain(chain, k);
    }

    /** Create the codegen of a chain's key, or update it. */
    method SetChain(chain: Chain, k: Kernel) returns (r: Result<()>)
      requires Valid() && RulesOk(chain.rules) && Terminal(chain.policy)
      modifies this, repr
      ensures Valid() && fresh(repr - old(repr))
      ensures match ProgramOf(chain, btf, k)
              case Ok(p) =>
                r.Ok? && forall key :: At(key) == if key == ChainKey(chain) then Some(Installed(chain, old(At(key)), p)) else old(At(key))
              case Err(e) => r == Err(e) && forall key :: At(key) == old(At(key))
    {
      hide ListOk, CgenOk, ProgramOf, Find, HookIndex, RulesOk;
      ListOfHook(chain.hook);
      FoundIsSeen(chain.hook, cgens[HookIndex(chain.hook)], btf);
      var cgen := GetCgen(chain.hook, chain.opts);
      if cgen == null {
        cgen := new Cgen(FrontCli, chain);
        var _ :- cgen.Up(btf, k);
        BroughtUp(cgen, btf, k);
        r := SetCgen(cgen);
      } else {
        r := UpdateCgen(cgen, chain, k);
      }
    }

    /** Unload every program and start over; the first error is reported. */
    method Flush(unload: nat -> Result<()>) returns (r: Result<()>)
      requires Valid()
      modifies this
      ensures Valid() && repr == {} && forall k :: At(k) == None
      ensures (forall n :: unload(n).Ok?) ==> r.Ok?
    {
      hide Find, Seen, HookIndex, ListOk;
      var i, n := 0, 0;
      r := Ok(());
      while i < |cgens|
        invariant (forall n :: unload(n).Ok?) ==> r.Ok?
        invariant n >= 0
      {
        var j := 0;
        while j < |cgens[i]|
          invariant (forall n :: unload(n).Ok?) ==> r.Ok?
          invariant n >= 0
        {
          if r.Ok? {
            r := unload(n);
          }
          n := n + 1;
          j := j + 1;
        }
        i := i + 1;
      }
      cgens := NoCgens();
      repr := {};
      forall h ensures ListOk(h, [], btf) && forall k :: Seen(Find([], k)) == None {
        NoneFiled(h, btf);
      }
    }

    ghost predicate Refines(m: map<Key, Entry>)
      requires Valid()
      reads this, repr
    {
      forall k: Key :: At(k) == if k in m then Some(m[k]) else None
    }

    /** Everything the update keeps, list by list. */
    twostate lemma KeysKept(g: Cgen, new c: Chain)
      requires old(Valid()) && cgens == old(cgens) && repr == old(repr)
      requires RulesOk(c.rules) && Terminal(c.policy) && old(CgenOk(c.hook, g, btf)) && CgenOk(c.hook, g, btf)
      requires old(Find(cgens[HookIndex(c.hook)], ChainKey(c))) == Some(g)
      requires g.chain == c || (g.chain == old(g.chain) && g.program == old(g.program))
      requires forall x :: x in repr && x != g ==> x.chain == old(x.chain) && x.program == old(x.program)
      ensures Valid()
      ensures forall k :: k != ChainKey(c) ==> At(k) == old(At(k))
      ensures At(ChainKey(c)) == Some(g.View())
    {
      hide Enforces, RulesOk;
      forall i | 0 <= i < |cgens| ensures ListOk(HOOKS[i], cgens[i], btf) {
        ListKept(HOOKS[i], cgens[i], btf, g);
      }
      forall k: Key ensures Find(cgens[HookIndex(k.hook)], k) == old(Find(cgens[HookIndex(k.hook)], k)) {
        FindKept(cgens[HookIndex(k.hook)], k);
      }
    }
  }

  lemma SameHook()
    ensures forall h, j :: HookIndex(h) == HookIndex(j) ==> h == j
  {
  }

  lemma FindFrom(gs: seq<Cgen>, k: Key, i: nat)
    requires i <= |gs|
    ensures Find(gs[i..], k) == if i == |gs| then None else if ChainKey(gs[i].chain) == k then Some(gs[i]) else Find(gs[i + 1..], k)
    ensures gs[0..] == gs
  {
    if i < |gs| {
      assert gs[i..][0] == gs[i] && gs[i..][1..] == gs[i + 1..];
    }
  }

  /** What is found by key is in the same place, and nothing is if no codegen is. */
  lemma FoundPlace(h: Hook, gs: seq<Cgen>, o: HookOpts, btf: Btf)
    requires ListOk(h, gs, btf)
    ensures match Find(gs, KeyOf(h, o))
            case None => forall x :: x in gs ==> !SamePlace(h, x.chain.opts, o)
            case Some(g) => g in gs && g.chain.hook == h && SamePlace(h, g.chain.opts, o)
  {
    hide CgenOk, Find, KeyOf, SamePlace, ListOk;
    forall x | x in gs ensures x.chain.hook == h && (ChainKey(x.chain) == KeyOf(h, o) <==> SamePlace(h, x.chain.opts, o)) {
      FiledOk(h, gs, x, btf);
      CgenHook(h, x, btf);
      SameKeyIff(h, x.chain.opts, h, o);
    }
  }

  lemma CgenHook(h: Hook, g: Cgen, btf: Btf)
    requires CgenOk(h, g, btf)
    ensures g.chain.hook == h
  {
  }

  /** At a Netfilter hook the first codegen is the one of any options. */
  lemma NfFound(h: Hook, gs: seq<Cgen>, o: HookOpts, btf: Btf)
    requires ListOk(h, gs, btf) && IsNf(h)
    ensures Find(gs, KeyOf(h, o)) == if gs == [] then None else Some(gs[0])
  {
    hide Enforces, RulesOk;
    if gs != [] {
      assert CgenOk(h, gs[0], btf);
    }
  }

  /** The getter's test is on the key. */
  lemma KeyTest(h: Hook, gs: seq<Cgen>, i: nat, o: HookOpts, btf: Btf)
    requires ListOk(h, gs, btf) && !IsNf(h) && i < |gs|
    ensures var c := gs[i].chain;
            ChainKey(c) == KeyOf(h, o) <==> if IsCgroup(h) then c.opts.cgroup == o.cgroup else c.opts.ifindex == o.ifindex
  {
    hide Enforces, RulesOk;
    assert CgenOk(h, gs[i], btf);
  }

  lemma FindAppend(gs: seq<Cgen>, g: Cgen, k: Key)
    ensures Find(gs + [g], k) == if Find(gs, k).Some? then Find(gs, k) else if ChainKey(g.chain) == k then Some(g) else None
    decreases |gs|
  {
    if gs == [] {
      assert gs + [g] == [g];
      assert [g][1..] == [];
    } else {
      assert (gs + [g])[1..] == gs[1..] + [g];
      FindAppend(gs[1..], g, k);
    }
  }

  lemma KeyIs(c: Chain)
    ensures KeyOf(c.hook, c.opts) == ChainKey(c)
  {
  }

  lemma SeenAppend(h: Hook, gs: seq<Cgen>, g: Cgen, k: Key, btf: Btf)
    requires CgenOk(h, g, btf) && Find(gs, ChainKey(g.chain)) == None
    ensures g.program.Some?
    ensures Seen(Find(gs + [g], k)) == if k == ChainKey(g.chain) then Some(g.View()) else Seen(Find(gs, k))
  {
    hide Find, ChainKey, Enforces, RulesOk;
    FindAppend(gs, g, k);
  }

  /** A filed codegen has a program, so being found and being seen are the same. */
  lemma FoundIsSeen(h: Hook, gs: seq<Cgen>, btf: Btf)
    requires ListOk(h, gs, btf)
    ensures forall k :: Seen(Find(gs, k)).Some? <==> Find(gs, k).Some?
  {
    hide Enforces, RulesOk;
    forall k: Key ensures Seen(Find(gs, k)).Some? <==> Find(gs, k).Some? {
      if Find(gs, k).Some? {
        FiledOk(h, gs, Find(gs, k).value, btf);
      }
    }
  }

  lemma FiledOk(h: Hook, gs: seq<Cgen>, g: Cgen, btf: Btf)
    requires ListOk(h, gs, btf) && g in gs
    ensures CgenOk(h, g, btf)
  {
  }

  lemma CgenSeen(h: Hook, g: Cgen, btf: Btf)
    requires CgenOk(h, g, btf)
    ensures g.program.Some? && Seen(Some(g)) == Some(g.View())
  {
  }

  lemma ListMore(h: Hook, gs: seq<Cgen>, g: Cgen, btf: Btf)
    requires ListOk(h, gs, btf) && CgenOk(h, g, btf) && Find(gs, ChainKey(g.chain)) == None
    ensures ListOk(h, gs + [g], btf)
  {
    hide CgenOk, ChainKey;
  }

  twostate lemma FindKept(gs: seq<Cgen>, new k: Key)
    requires forall x :: x in gs ==> ChainKey(x.chain) == old(ChainKey(x.chain))
    ensures Find(gs, k) == old(Find(gs, k))
    decreases |gs|
  {
    if gs != [] {
      FindKept(gs[1..], k);
    }
  }

  twostate lemma ListKept(new h: Hook, gs: seq<Cgen>, new btf: Btf, new g: Cgen)
    requires old(ListOk(h, gs, btf))
    requires forall x :: x in gs ==> ChainKey(x.chain) == old(ChainKey(x.chain))
    requires forall x :: x in gs && x != g ==> x.chain == old(x.chain) && x.program == old(x.program)
    requires g in gs ==> CgenOk(h, g, btf)
    ensures ListOk(h, gs, btf)
  {
    hide Enforces, RulesOk, ChainKey;
  }

  lemma BroughtUp(g: Cgen, btf: Btf, k: Kernel)
    requires RulesOk(g.chain.rules) && Terminal(g.chain.policy) && g.program.Some?
    requires ProgramOf(g.chain, btf, k) == Ok(g.program.value)
    ensures CgenOk(g.chain.hook, g, btf)
  {
    hide ProgramOf, RulesOk;
  }

  /** One request. */
  method Handle(ctx: Ctx, q: Request, ghost m: map<Key, Entry>) returns (r: Result<()>)
    requires ctx.Valid() && ReqOk(q) && ctx.Refines(m)
    modifies ctx, ctx.repr
    ensures ctx.Valid() && fresh(ctx.repr - old(ctx.repr)) && ctx.Refines(Apply(m, q, ctx.btf))
  {
    hide Ctx.Valid, Ctx.At, ProgramOf, ChainIn, RulesOk;
    match q
    case SetReq(bs, k) => r := ctx.SetRules(bs, k);
    case FlushReq(unload) => r := ctx.Flush(unload);
  }

  /** Over any run of requests, the context is the map that the requests describe. */
  method RunAll(qs: seq<Request>, btf: Btf) returns (ctx: Ctx)
    requires forall q :: q in qs ==> ReqOk(q)
    ensures fresh(ctx) && ctx.Valid() && ctx.btf == btf && ctx.Refines(ApplyAll(map[], qs, btf))
  {
    hide Ctx.Valid, Ctx.Refines, Ctx.At, ReqOk, Apply;
    ctx := new Ctx(btf);
    ghost var m: map<Key, Entry> := map[];
    EmptyRefines(ctx);
    var i := 0;
    while i < |qs|
      invariant 0 <= i <= |qs| && fresh(ctx) && ctx.Valid() && fresh(ctx.repr) && ctx.Refines(m)
      invariant ApplyAll(map[], qs, btf) == ApplyAll(m, qs[i..], btf)
    {
      assert qs[i] in qs;
      assert qs[i..][0] == qs[i] && qs[i..][1..] == qs[i + 1..];
      var _ := Handle(ctx, qs[i], m);
      m := Apply(m, qs[i], btf);
      i := i + 1;
    }
  }

  lemma EmptyRefines(ctx: Ctx)
    requires ctx.Valid() && forall k :: ctx.At(k) == None
    ensures ctx.Refines(map[])
  {
  }
}
