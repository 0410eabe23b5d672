/** Which chain a run of requests leaves where: the last one set for the same hook and the same place. */
module Registry {
  import opened Model
  import opened Machine
  import opened Marsh
  import opened ChainCodec
  import opened Context

  /** Request `i` sets a chain. */
  predicate Sets(qs: seq<Request>, i: nat, btf: Btf)
    requires i < |qs| && ReqOk(qs[i])
  {
    qs[i].SetReq? && Answer(qs[i], btf).Ok?
  }

  /** Request `j` removes or replaces the codegen of hook `h` and options `o`. */
  predicate Hits(qs: seq<Request>, j: nat, btf: Btf, h: Hook, o: HookOpts)
    requires j < |qs| && ReqOk(qs[j])
  {
    qs[j].FlushReq? || (Sets(qs, j, btf) && var c := Answer(qs[j], btf).value.0; c.hook == h && SamePlace(h, c.opts, o))
  }

  /** Request `i` is the last one about hook `h` and options `o`, and sets a chain there. */
  ghost predicate SetLast(qs: seq<Request>, i: nat, btf: Btf, h: Hook, o: HookOpts)
    requires i < |qs| && forall q :: q in qs ==> ReqOk(q)
  {
    && Sets(qs, i, btf) && Hits(qs, i, btf, h, o)
    && forall j :: i < j < |qs| ==> !Hits(qs, j, btf, h, o)
  }

  lemma {:induction false} ApplyAllLast(m: map<Key, Entry>, qs: seq<Request>, btf: Btf)
    requires qs != [] && forall q :: q in qs ==> ReqOk(q)
    ensures var n := |qs| - 1; ApplyAll(m, qs, btf) == Apply(ApplyAll(m, qs[..n], btf), qs[n], btf)
    decreases |qs|
  {
    hide Apply, ReqOk;
    var n := |qs| - 1;
    if n > 0 {
      assert qs[..n][0] == qs[0] && qs[..n][1..] == qs[1..][..n - 1];
      ApplyAllLast(Apply(m, qs[0], btf), qs[1..], btf);
    } else {
      assert qs[1..] == [] && qs[..0] == [];
    }
  }

  /** A request that is not about a key leaves it alone. */
  lemma Missed(m: map<Key, Entry>, qs: seq<Request>, j: nat, btf: Btf, h: Hook, o: HookOpts)
    requires j < |qs| && ReqOk(qs[j]) && !Hits(qs, j, btf, h, o)
    ensures var k, n := KeyOf(h, o), Apply(m, qs[j], btf); (k in n <==> k in m) && (k in m ==> n[k] == m[k])
  {
    hide Answer, ReqOk, KeyOf, SamePlace;
    if Sets(qs, j, btf) {
      var c := Answer(qs[j], btf).value.0;
      SameKeyIff(c.hook, c.opts, h, o);
    }
  }

  lemma Met(m: map<Key, Entry>, qs: seq<Request>, j: nat, btf: Btf, h: Hook, o: HookOpts)
    requires j < |qs| && ReqOk(qs[j]) && Hits(qs, j, btf, h, o)
    ensures var k, n := KeyOf(h, o), Apply(m, qs[j], btf);
            if qs[j].FlushReq? then k !in n
            else Sets(qs, j, btf) && k in n && n[k].chain == Answer(qs[j], btf).value.0 && n[k].program == Answer(qs[j], btf).value.1
  {
    hide Answer, ReqOk, KeyOf, SamePlace;
    if Sets(qs, j, btf) {
      var c := Answer(qs[j], btf).value.0;
      SameKeyIff(c.hook, c.opts, h, o);
    }
  }

  /** Looking among fewer requests. */
  lemma PrefixHits(qs: seq<Request>, n: nat, j: nat, btf: Btf, h: Hook, o: HookOpts)
    requires j < n <= |qs| && forall q :: q in qs ==> ReqOk(q)
    ensures ReqOk(qs[j]) && ReqOk(qs[..n][j])
    ensures (Hits(qs, j, btf, h, o) <==> Hits(qs[..n], j, btf, h, o)) && (Sets(qs, j, btf) <==> Sets(qs[..n], j, btf))
  {
    assert qs[..n][j] == qs[j];
  }

  /** There is a codegen for a hook and options exactly if a set request about them came last; it has the chain of that request. */
  lemma {:induction false} FoundIff(qs: seq<Request>, btf: Btf, h: Hook, o: HookOpts)
    requires forall q :: q in qs ==> ReqOk(q)
    ensures KeyOf(h, o) in ApplyAll(map[], qs, btf) <==> exists i :: 0 <= i < |qs| && SetLast(qs, i, btf, h, o)
    ensures forall i :: 0 <= i < |qs| && SetLast(qs, i, btf, h, o) ==>
              KeyOf(h, o) in ApplyAll(map[], qs, btf) &&
              var e := ApplyAll(map[], qs, btf)[KeyOf(h, o)];
              e.chain == Answer(qs[i], btf).value.0 && e.program == Answer(qs[i], btf).value.1
    decreases |qs|
  {
    hide Answer, ReqOk, KeyOf, Hits, Sets, Apply, ApplyAll;
    if qs == [] {
      assert ApplyAll(map[], qs, btf) == map[] by { NoRequests(btf); }
    } else {
      var n := |qs| - 1;
      var pre := qs[..n];
      ApplyAllLast(map[], qs, btf);
      FoundIff(pre, btf, h, o);
      forall j | 0 <= j < n
        ensures pre[j] == qs[j] && ReqOk(qs[j]) && (Hits(qs, j, btf, h, o) <==> Hits(pre, j, btf, h, o)) && (Sets(qs, j, btf) <==> Sets(pre, j, btf))
      {
        PrefixHits(qs, n, j, btf, h, o);
      }
      if Hits(qs, n, btf, h, o) {
        Met(ApplyAll(map[], pre, btf), qs, n, btf, h, o);
        FlushSetsNothing(qs, n, btf);
        assert Sets(qs, n, btf) <==> SetLast(qs, n, btf, h, o);
      } else {
        Missed(ApplyAll(map[], pre, btf), qs, n, btf, h, o);
        forall i | 0 <= i < n ensures SetLast(qs, i, btf, h, o) <==> SetLast(pre, i, btf, h, o) {
          LastOfPrefix(qs, n, i, btf, h, o);
        }
      }
    }
  }

  lemma LastOfPrefix(qs: seq<Request>, n: nat, i: nat, btf: Btf, h: Hook, o: HookOpts)
    requires i < n == |qs| - 1 && (forall q :: q in qs ==> ReqOk(q)) && !Hits(qs, n, btf, h, o)
    ensures SetLast(qs, i, btf, h, o) <==> SetLast(qs[..n], i, btf, h, o)
  {
    hide Answer, ReqOk, Hits, Sets;
    forall j | 0 <= j < n
      ensures ReqOk(qs[j]) && (Hits(qs, j, btf, h, o) <==> Hits(qs[..n], j, btf, h, o)) && (Sets(qs, j, btf) <==> Sets(qs[..n], j, btf))
    {
      PrefixHits(qs, n, j, btf, h, o);
    }
  }

  lemma NoRequests(btf: Btf)
    ensures ApplyAll(map[], [], btf) == map[]
  {
  }

  lemma FlushSetsNothing(qs: seq<Request>, j: nat, btf: Btf)
    requires j < |qs| && ReqOk(qs[j])
    ensures qs[j].FlushReq? ==> !Sets(qs, j, btf)
  {
  }

  /** What the getter finds is what the context stands for. */
  lemma GotIsAt(ctx: Ctx, h: Hook, o: HookOpts, g: Cgen?)
    requires ctx.Valid() && Find(ctx.cgens[HookIndex(h)], KeyOf(h, o)) == if g == null then None else Some(g)
    ensures if g == null then ctx.At(KeyOf(h, o)) == None else g.program.Some? && ctx.At(KeyOf(h, o)) == Some(g.View())
  {
    hide Find, KeyOf, HookIndex, ListOk, CgenOk;
    ctx.ListOfHook(h);
    var list := ctx.cgens[HookIndex(h)];
    if g != null {
      FiledOk(h, list, g, ctx.btf);
      CgenSeen(h, g, ctx.btf);
    }
  }

  /**
   * After any run of requests, the getter of a hook finds a codegen for some options exactly if a set
   * request for that hook and place came last, and what it finds has the chain and program of that request.
   */
  method RunAndFind(qs: seq<Request>, btf: Btf, h: Hook, o: HookOpts) returns (ctx: Ctx, g: Cgen?)
    requires forall q :: q in qs ==> ReqOk(q)
    ensures fresh(ctx) && ctx.Valid()
    ensures g != null <==> exists i :: 0 <= i < |qs| && SetLast(qs, i, btf, h, o)
    ensures forall i :: 0 <= i < |qs| && SetLast(qs, i, btf, h, o) ==>
              g != null && g.chain == Answer(qs[i], btf).value.0 && g.program == Some(Answer(qs[i], btf).value.1)
  {
    hide Answer, ReqOk, KeyOf, SetLast, ApplyAll, Find, HookIndex, Ctx.Valid, Ctx.At, SamePlace;
    ctx := RunAll(qs, btf);
    g := ctx.GetCgen(h, o);
    GotIsAt(ctx, h, o, g);
    FoundIff(qs, btf, h, o);
    LastSets(qs, btf, h, o);
  }

  lemma LastSets(qs: seq<Request>, btf: Btf, h: Hook, o: HookOpts)
    requires forall q :: q in qs ==> ReqOk(q)
    ensures forall i :: 0 <= i < |qs| && SetLast(qs, i, btf, h, o) ==> qs[i].SetReq? && Answer(qs[i], btf).Ok?
  {
    hide Answer, ReqOk, Hits;
  }

  /** A chain set for an interface of an XDP or TC hook is about that interface only. */
  lemma OtherInterface(qs: seq<Request>, j: nat, btf: Btf, h: Hook, o: HookOpts)
    requires j < |qs| && ReqOk(qs[j]) && Sets(qs, j, btf) && h in {Xdp, TcIngress, TcEgress}
    requires var d := Answer(qs[j], btf).value.0; d.hook == h
    ensures Hits(qs, j, btf, h, o) <==> Answer(qs[j], btf).value.0.opts.ifindex == o.ifindex
  {
    hide Answer, ReqOk;
  }

  /** Chains for two interfaces of one XDP or TC hook do not replace each other. */
  lemma TwoInterfaces(qs: seq<Request>, btf: Btf, c: Chain, d: Chain)
    requires |qs| == 2 && (forall q :: q in qs ==> ReqOk(q)) && Sets(qs, 0, btf) && Sets(qs, 1, btf)
    requires Answer(qs[0], btf).value.0 == c && Answer(qs[1], btf).value.0 == d
    requires c.hook == d.hook && c.hook in {Xdp, TcIngress, TcEgress} && c.opts.ifindex != d.opts.ifindex
    ensures SetLast(qs, 0, btf, c.hook, c.opts) && SetLast(qs, 1, btf, d.hook, d.opts)
  {
    hide Answer, ReqOk, Sets, Hits;
    OtherInterface(qs, 0, btf, c.hook, c.opts);
    OtherInterface(qs, 1, btf, c.hook, c.opts);
    OtherInterface(qs, 1, btf, c.hook, d.opts);
  }

  /** A request that carries a chain as it is written is one to set that chain; too short a request is invalid. */
  lemma SentChain(c: Chain)
    requires ChainOk(c) && ChainSound(c) && |EncChain(c)| < SIZE_MAX
    ensures ChainIn(EncChain(c)) == Ok(c)
    ensures forall bs :: |bs| < 8 ==> ChainIn(bs) == Err(EINVAL)
  {
    hide ReadChain, ChainOk, ChainSound, NodeAt, ChainFields;
    ChainRoundTrip(c);
  }
}
