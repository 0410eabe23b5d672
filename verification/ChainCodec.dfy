/** Bytes of hook options, chains, codegens and contexts, and their readers. */
module ChainCodec {
  import opened Bytes
  import opened Model
  import opened Marsh
  import opened Codec

  // ----- hook options -----

  /** A C string has no NUL inside. */
  predicate IsCString(s: seq<byte>)
  {
    forall i :: 0 <= i < |s| ==> s[i] != 0
  }

  predicate OptsOk(o: HookOpts)
  {
    (o.cgroup.Some? ==> IsCString(o.cgroup.value)) && (o.name.Some? ==> IsCString(o.name.value))
  }

  /** A string with its NUL, or nothing. */
  function CString(s: Option<seq<byte>>): (b: seq<byte>)
    ensures b == [] <==> s == None
  {
    match s case Some(x) => x + [0] case None => []
  }

  function OptsFields(o: HookOpts): (cs: seq<seq<byte>>)
    ensures |cs| == 5
  {
    [Pack(ToLE(o.usedOpts, 4)), Pack(ToLE(o.ifindex, 4)), Pack(CString(o.cgroup)), Pack(CString(o.name)), Pack(Bool(o.attach))]
  }

  function EncOpts(o: HookOpts): (b: seq<byte>)
  {
    Pack(Concat(OptsFields(o)))
  }

  /** `strdup` from position `q`: the bytes up to the next NUL. */
  function Strdup(bs: seq<byte>, q: nat): (r: Result<seq<byte>>)
    decreases |bs| - q
  {
    if q >= |bs| then Err(OutOfBounds)
    else if bs[q] == 0 then Ok([])
    else
      var s :- Strdup(bs, q + 1);
      Ok([bs[q]] + s)
  }

  lemma {:induction false} StrdupAt(bs: seq<byte>, q: nat, s: seq<byte>)
    requires IsCString(s) && At(bs, q, s + [0])
    ensures Strdup(bs, q) == Ok(s)
    decreases |s|
  {
    var m := s + [0];
    assert bs[q] == bs[q..q + |m|][0];
    if s != [] {
      AtPart(bs, q, [s[0]], s[1..] + [0], []);
      assert [s[0]] + (s[1..] + [0]) + [] == m;
      StrdupAt(bs, q + 1, s[1..]);
      assert bs[q] == s[0] != 0;
      assert s == [s[0]] + s[1..];
    }
  }

  function TakeString(bs: seq<byte>, c: nat): (r: Result<Option<seq<byte>>>)
    requires NodeAt(bs, c)
  {
    if Len(bs, c) == 0 then Ok(None)
    else
      var s :- Strdup(bs, c + HDR);
      Ok(Some(s))
  }

  lemma TakeStringAt(bs: seq<byte>, c: nat, s: Option<seq<byte>>)
    requires At(bs, c, Pack(CString(s))) && |CString(s)| < SIZE_MAX && (s.Some? ==> IsCString(s.value))
    ensures NodeAt(bs, c) && TakeString(bs, c) == Ok(s)
  {
    hide LE, ToLE, Strdup;
    var data := CString(s);
    PackIsNode(data);
    AtNode(bs, c, Pack(data));
    if s.Some? {
      AtPart(bs, c, ToLE(|data|, HDR), data, []);
      assert ToLE(|data|, HDR) + data + [] == Pack(data);
      StrdupAt(bs, c + HDR, s.value);
    }
  }

  function ReadOpts(bs: seq<byte>, p: nat): (r: Result<HookOpts>)
    requires NodeAt(bs, p)
  {
    var c0 :- Next(bs, p, None);
    var usedOpts :- TakeU32(bs, c0);
    var c1 :- Next(bs, p, Some(c0));
    var ifindex :- TakeU32(bs, c1);
    var c2 :- Next(bs, p, Some(c1));
    var cgroup :- TakeString(bs, c2);
    var c3 :- Next(bs, p, Some(c2));
    var name :- TakeString(bs, c3);
    var c4 :- Next(bs, p, Some(c3));
    var attach :- TakeBool(bs, c4);
    if NextChild(bs, p, Some(c4)).Some? then Err(E2BIG)
    else Ok(HookOpts(usedOpts, ifindex, cgroup, name, attach))
  }

  lemma OptsFieldsAreNodes(o: HookOpts)
    requires |EncOpts(o)| < SIZE_MAX
    ensures AllNodes(OptsFields(o)) && |CString(o.cgroup)| < SIZE_MAX && |CString(o.name)| < SIZE_MAX
  {
    hide LE, ToLE, IsNode, Concat, CString;
    var cs := OptsFields(o);
    ConcatLen(cs, 2);
    ConcatLen(cs, 3);
    PackIsNode(ToLE(o.usedOpts, 4));
    PackIsNode(ToLE(o.ifindex, 4));
    PackIsNode(CString(o.cgroup));
    PackIsNode(CString(o.name));
    PackIsNode(Bool(o.attach));
  }

  lemma TakeU32At(bs: seq<byte>, c: nat, x: u32)
    requires At(bs, c, Pack(ToLE(x, 4)))
    ensures TakeU32(bs, c) == Ok(x)
  {
    assert Pow256(4) == 0x1_0000_0000;
    TakeNumAt(bs, c, x, 4);
  }

  lemma TakeBoolAt(bs: seq<byte>, c: nat, b: bool)
    requires At(bs, c, Pack(Bool(b)))
    ensures TakeBool(bs, c) == Ok(b)
  {
    TakeAt(bs, c, Bool(b));
  }

  lemma OptsRoundTrip(bs: seq<byte>, p: nat, o: HookOpts)
    requires At(bs, p, EncOpts(o)) && |EncOpts(o)| < SIZE_MAX && OptsOk(o)
    ensures NodeAt(bs, p) && ReadOpts(bs, p) == Ok(o)
  {
    hide LE, ToLE, Concat, TakeU32, TakeBool, TakeString, IsNode, NextChild, NodeAt, At, Pos, ChildIsValid, CString, IsCString;
    var cs := OptsFields(o);
    OptsFieldsAreNodes(o);
    NextIs(bs, p, cs, 0);
    NextIs(bs, p, cs, 1);
    NextIs(bs, p, cs, 2);
    NextIs(bs, p, cs, 3);
    NextIs(bs, p, cs, 4);
    NextIs(bs, p, cs, 5);
    TakeU32At(bs, Pos(p, cs, 0), o.usedOpts);
    TakeU32At(bs, Pos(p, cs, 1), o.ifindex);
    TakeStringAt(bs, Pos(p, cs, 2), o.cgroup);
    TakeStringAt(bs, Pos(p, cs, 3), o.name);
    TakeBoolAt(bs, Pos(p, cs, 4), o.attach);
  }

  /** Options followed by one more child are refused. */
  lemma ExtraOptRefused(bs: seq<byte>, p: nat, o: HookOpts, x: seq<byte>)
    requires At(bs, p, Pack(Concat(OptsFields(o) + [Pack(x)]))) && |Concat(OptsFields(o) + [Pack(x)])| < SIZE_MAX && OptsOk(o)
    ensures NodeAt(bs, p) && ReadOpts(bs, p) == Err(E2BIG)
  {
    hide LE, ToLE, Concat, TakeU32, TakeBool, TakeString, IsNode, NextChild, NodeAt, At, Pos, ChildIsValid, CString, IsCString;
    var cs := OptsFields(o) + [Pack(x)];
    ExtraFieldsAreNodes(o, x);
    NextIs(bs, p, cs, 0);
    NextIs(bs, p, cs, 1);
    NextIs(bs, p, cs, 2);
    NextIs(bs, p, cs, 3);
    NextIs(bs, p, cs, 4);
    NextIs(bs, p, cs, 5);
    TakeU32At(bs, Pos(p, cs, 0), o.usedOpts);
    TakeU32At(bs, Pos(p, cs, 1), o.ifindex);
    TakeStringAt(bs, Pos(p, cs, 2), o.cgroup);
    TakeStringAt(bs, Pos(p, cs, 3), o.name);
    TakeBoolAt(bs, Pos(p, cs, 4), o.attach);
  }

  lemma ExtraFieldsAreNodes(o: HookOpts, x: seq<byte>)
    requires |Concat(OptsFields(o) + [Pack(x)])| < SIZE_MAX
    ensures AllNodes(OptsFields(o) + [Pack(x)]) && |CString(o.cgroup)| < SIZE_MAX && |CString(o.name)| < SIZE_MAX
  {
    hide LE, ToLE, IsNode, Concat, CString;
    var cs := OptsFields(o) + [Pack(x)];
    ConcatLen(cs, 2);
    ConcatLen(cs, 3);
    ConcatLen(cs, 5);
    PackIsNode(ToLE(o.usedOpts, 4));
    PackIsNode(ToLE(o.ifindex, 4));
    PackIsNode(CString(o.cgroup));
    PackIsNode(CString(o.name));
    PackIsNode(Bool(o.attach));
    PackIsNode(x);
  }

  // ----- chains -----

  /** What the constructors of chains and sets guarantee. */
  predicate ChainOk(c: Chain)
  {
    Terminal(c.policy) && OptsOk(c.opts) && forall s :: s in c.sets ==> SetOk(s)
  }

  /** No rule of the chain has a matcher without payload. */
  predicate ChainSound(c: Chain)
  {
    forall r :: r in c.rules ==> RuleSound(r)
  }

  function ChainFields(c: Chain): (cs: seq<seq<byte>>)
    ensures |cs| == 5
  {
    [ Pack(Enum(c.hook, HOOKS)), Pack(Enum(c.policy, VERDICTS)), EncOpts(c.opts),
      EncList(c.sets, EncSet), EncList(c.rules, EncRule) ]
  }

  function EncChain(c: Chain): (b: seq<byte>)
  {
    Pack(Concat(ChainFields(c)))
  }

  function SetReader(bs: seq<byte>): nat -> Result<Set>
  {
    (c: nat) => if NodeAt(bs, c) then ReadSet(bs, c) else Err(OutOfBounds)
  }

  function RuleReader(bs: seq<byte>): nat -> Result<Rule>
  {
    (c: nat) => if NodeAt(bs, c) then ReadRule(bs, c) else Err(OutOfBounds)
  }

  function ReadChain(bs: seq<byte>, p: nat): (r: Result<Chain>)
    requires NodeAt(bs, p)
    ensures r.Ok? ==> Terminal(r.value.policy)
  {
    var c0 :- Next(bs, p, None);
    var hook :- TakeEnum(bs, c0, HOOKS);
    var c1 :- Next(bs, p, Some(c0));
    var policy :- TakeEnum(bs, c1, VERDICTS);
    if !Terminal(policy) then Err(AssertFailed)
    else
      var c2 :- Next(bs, p, Some(c1));
      var opts :- ReadOpts(bs, c2);
      var c3 :- Next(bs, p, Some(c2));
      var sets :- ReadAll(bs, c3, None, SetReader(bs));
      var c4 :- Next(bs, p, Some(c3));
      var rules :- ReadAll(bs, c4, None, RuleReader(bs));
      Ok(Chain(hook, opts, policy, sets, rules))
  }

  lemma SetsRoundTrip(bs: seq<byte>, p: nat, ss: seq<Set>)
    requires At(bs, p, EncList(ss, EncSet)) && |EncList(ss, EncSet)| < SIZE_MAX && forall s :: s in ss ==> SetOk(s)
    ensures NodeAt(bs, p) && ReadAll(bs, p, None, SetReader(bs)) == Ok(ss)
  {
    hide ReadAll, ReadSet, EncList, IsNode, At, NodeAt, SetFields, Concat, SetOk;
    forall s: Set | |EncSet(s)| < SIZE_MAX ensures IsNode(EncSet(s)) {
      PackIsNode(Concat(SetFields(s)));
    }
    forall s: Set, c: nat | s in ss && |EncSet(s)| < SIZE_MAX && At(bs, c, EncSet(s))
      ensures SetReader(bs)(c) == Back(s, SetOk(s))
    {
      SetRoundTrip(bs, c, s);
    }
    ListRoundTrip(bs, p, ss, EncSet, SetOk, SetReader(bs));
  }

  lemma RulesRoundTrip(bs: seq<byte>, p: nat, rs: seq<Rule>)
    requires At(bs, p, EncList(rs, EncRule)) && |EncList(rs, EncRule)| < SIZE_MAX
    ensures NodeAt(bs, p) && ReadAll(bs, p, None, RuleReader(bs)) == Back(rs, forall r :: r in rs ==> RuleSound(r))
  {
    hide ReadAll, ReadRule, EncList, IsNode, At, NodeAt, RuleFields, Concat, RuleSound;
    forall r: Rule | |EncRule(r)| < SIZE_MAX ensures IsNode(EncRule(r)) {
      PackIsNode(Concat(RuleFields(r)));
    }
    forall r: Rule, c: nat | r in rs && |EncRule(r)| < SIZE_MAX && At(bs, c, EncRule(r))
      ensures RuleReader(bs)(c) == Back(r, RuleSound(r))
    {
      RuleRoundTrip(bs, c, r);
    }
    ListRoundTrip(bs, p, rs, EncRule, RuleSound, RuleReader(bs));
  }

  lemma ChainFieldsAreNodes(c: Chain)
    requires |EncChain(c)| < SIZE_MAX
    ensures AllNodes(ChainFields(c)) && |EncOpts(c.opts)| < SIZE_MAX
    ensures |EncList(c.sets, EncSet)| < SIZE_MAX && |EncList(c.rules, EncRule)| < SIZE_MAX
  {
    hide LE, ToLE, IsNode, Enum, Concat, MapAll, OptsFields;
    var cs := ChainFields(c);
    ConcatLen(cs, 2);
    ConcatLen(cs, 3);
    ConcatLen(cs, 4);
    PackIsNode(Enum(c.hook, HOOKS));
    PackIsNode(Enum(c.policy, VERDICTS));
    PackIsNode(Concat(OptsFields(c.opts)));
    PackIsNode(Concat(MapAll(c.sets, EncSet)));
    PackIsNode(Concat(MapAll(c.rules, EncRule)));
  }

  lemma ChainAt(bs: seq<byte>, p: nat, c: Chain)
    requires At(bs, p, EncChain(c)) && |EncChain(c)| < SIZE_MAX && ChainOk(c)
    ensures NodeAt(bs, p) && ReadChain(bs, p) == Back(c, ChainSound(c))
  {
    hide LE, ToLE, Concat, IndexIn, Enum, TakeEnum, IsNode, NextChild, NodeAt, At, Pos, ChildIsValid, ReadAll, EncList,
         EncOpts, ReadOpts, SetReader, RuleReader, RuleSound, SetOk, OptsOk;
    var cs := ChainFields(c);
    ChainFieldsAreNodes(c);
    NextIs(bs, p, cs, 0);
    NextIs(bs, p, cs, 1);
    NextIs(bs, p, cs, 2);
    NextIs(bs, p, cs, 3);
    NextIs(bs, p, cs, 4);
    HookListed(c.hook);
    SmallEnumsListed(Eq, c.policy, SetIp4, FrontCli);
    TakeEnumAt(bs, Pos(p, cs, 0), c.hook, HOOKS);
    TakeEnumAt(bs, Pos(p, cs, 1), c.policy, VERDICTS);
    OptsRoundTrip(bs, Pos(p, cs, 2), c.opts);
    SetsRoundTrip(bs, Pos(p, cs, 3), c.sets);
    RulesRoundTrip(bs, Pos(p, cs, 4), c.rules);
  }

  /**
   * Round trip of chains. A chain comes back equal, with its children in order, exactly when none
   * of its matchers has an empty payload; otherwise the reader's assertion fails.
   */
  lemma ChainRoundTrip(c: Chain)
    requires ChainOk(c) && |EncChain(c)| < SIZE_MAX
    ensures NodeAt(EncChain(c), 0)
    ensures ReadChain(EncChain(c), 0) == if ChainSound(c) then Ok(c) else Err(AssertFailed)
  {
    AtWhole(EncChain(c));
    ChainAt(EncChain(c), 0, c);
  }

  /** A chain whose policy is CONTINUE is refused. */
  lemma OpenPolicyRefused(bs: seq<byte>, p: nat, c: Chain)
    requires At(bs, p, EncChain(c)) && |EncChain(c)| < SIZE_MAX && c.policy == Continue
    ensures NodeAt(bs, p) && ReadChain(bs, p) == Err(AssertFailed)
  {
    hide LE, ToLE, Concat, IndexIn, Enum, TakeEnum, IsNode, NextChild, NodeAt, At, Pos, ChildIsValid, ReadAll, EncList,
         EncOpts, ReadOpts, SetReader, RuleReader;
    var cs := ChainFields(c);
    ChainFieldsAreNodes(c);
    NextIs(bs, p, cs, 0);
    NextIs(bs, p, cs, 1);
    HookListed(c.hook);
    SmallEnumsListed(Eq, c.policy, SetIp4, FrontCli);
    TakeEnumAt(bs, Pos(p, cs, 0), c.hook, HOOKS);
    TakeEnumAt(bs, Pos(p, cs, 1), c.policy, VERDICTS);
  }

  lemma {:induction false} ConcatBound(cs: seq<seq<byte>>, n: nat)
    requires forall i :: 0 <= i < |cs| ==> |cs[i]| <= n
    ensures |Concat(cs)| <= |cs| * n
  {
    if cs != [] {
      ConcatBound(cs[1..], n);
      assert |cs| * n == n + |cs[1..]| * n;
    }
  }

  /** A chain that does not come back: one rule, one matcher, no payload. */
  lemma EmptyPayloadLost(c: Chain)
    requires c == Chain(Xdp, HookOpts(0, 0, None, None, false), Accept, [], [Rule(0, [Matcher(MetaSport, Eq, [])], false, Drop)])
    ensures ChainOk(c) && NodeAt(EncChain(c), 0) && ReadChain(EncChain(c), 0) == Err(AssertFailed)
  {
    hide Concat, Enum, ToLE, ReadChain, IndexIn, MapAll;
    var r, m := c.rules[0], c.rules[0].matchers[0];
    ConcatBound(MatcherFields(m), 16);
    ConcatBound(MapAll([m], EncMatcher), 72);
    ConcatBound(RuleFields(r), 80);
    ConcatBound(MapAll([r], EncRule), 328);
    ConcatBound(MapAll([], EncSet), 0);
    ConcatBound(OptsFields(c.opts), 16);
    ConcatBound(ChainFields(c), 336);
    assert m in r.matchers && r in c.rules && !RuleSound(r);
    ChainRoundTrip(c);
  }

  // ----- codegens and contexts -----

  /** A codegen without a program. */
  datatype Cgen = Cgen(front: Front, chain: Chain)

  function CgenFields(g: Cgen): (cs: seq<seq<byte>>)
    ensures |cs| == 3
  {
    [Pack(Enum(g.front, FRONTS)), EncChain(g.chain), Pack([])]
  }

  function EncCgen(g: Cgen): (b: seq<byte>)
  {
    Pack(Concat(CgenFields(g)))
  }

  /** Programs, which reopen kernel objects, are not read. */
  function ReadCgen(bs: seq<byte>, p: nat): (r: Result<Cgen>)
    requires NodeAt(bs, p)
  {
    var c0 :- Next(bs, p, None);
    var front :- TakeEnum(bs, c0, FRONTS);
    var c1 :- Next(bs, p, Some(c0));
    var chain :- ReadChain(bs, c1);
    var c2 :- Next(bs, p, Some(c1));
    if Len(bs, c2) != 0 then Err(ENOTSUP) else Ok(Cgen(front, chain))
  }

  predicate CgenSound(g: Cgen)
  {
    ChainSound(g.chain)
  }

  lemma CgenAt(bs: seq<byte>, p: nat, g: Cgen)
    requires At(bs, p, EncCgen(g)) && |EncCgen(g)| < SIZE_MAX && ChainOk(g.chain)
    ensures NodeAt(bs, p) && ReadCgen(bs, p) == Back(g, CgenSound(g))
  {
    hide LE, ToLE, Concat, IndexIn, Enum, TakeEnum, IsNode, NextChild, At, Pos, ChildIsValid, ReadChain, ChainFields, ChainSound, ChainOk, Len;
    var cs := CgenFields(g);
    ConcatLen(cs, 1);
    PackIsNode(Enum(g.front, FRONTS));
    PackIsNode(Concat(ChainFields(g.chain)));
    PackIsNode([]);
    NextIs(bs, p, cs, 0);
    NextIs(bs, p, cs, 1);
    NextIs(bs, p, cs, 2);
    SmallEnumsListed(Eq, Accept, SetIp4, g.front);
    TakeEnumAt(bs, Pos(p, cs, 0), g.front, FRONTS);
    ChainAt(bs, Pos(p, cs, 1), g.chain);
    AtNode(bs, Pos(p, cs, 2), cs[2]);
  }

  type Cgens = seq<Cgen>

  function CgenReader(bs: seq<byte>): nat -> Result<Cgen>
  {
    (c: nat) => if NodeAt(bs, c) then ReadCgen(bs, c) else Err(OutOfBounds)
  }

  function EncCgens(gs: Cgens): (b: seq<byte>)
  {
    EncList(gs, EncCgen)
  }

  function CgensReader(bs: seq<byte>): nat -> Result<Cgens>
  {
    (c: nat) => if NodeAt(bs, c) then ReadAll(bs, c, None, CgenReader(bs)) else Err(OutOfBounds)
  }

  predicate CgensSound(gs: Cgens)
  {
    forall g :: g in gs ==> CgenSound(g)
  }

  predicate CgensOk(gs: Cgens)
  {
    forall g :: g in gs ==> ChainOk(g.chain)
  }

  lemma CgensRoundTrip(bs: seq<byte>, p: nat, gs: Cgens)
    requires At(bs, p, EncCgens(gs)) && |EncCgens(gs)| < SIZE_MAX && CgensOk(gs)
    ensures NodeAt(bs, p) && CgensReader(bs)(p) == Back(gs, CgensSound(gs))
  {
    hide ReadAll, ReadCgen, EncList, IsNode, At, NodeAt, CgenFields, Concat, ChainOk, CgenSound;
    forall g: Cgen | |EncCgen(g)| < SIZE_MAX ensures IsNode(EncCgen(g)) {
      PackIsNode(Concat(CgenFields(g)));
    }
    forall g: Cgen, c: nat | g in gs && |EncCgen(g)| < SIZE_MAX && At(bs, c, EncCgen(g))
      ensures CgenReader(bs)(c) == Back(g, CgenSound(g))
    {
      CgenAt(bs, c, g);
    }
    ListRoundTrip(bs, p, gs, EncCgen, CgenSound, CgenReader(bs));
  }

  /** The context: the codegens of each hook, in the order of the hooks. */
  function EncCtx(lists: seq<Cgens>): (b: seq<byte>)
  {
    EncList(lists, EncCgens)
  }

  /** Hooks that were not listed have no codegen. */
  function Padded(lists: seq<Cgens>): (r: seq<Cgens>)
    ensures |r| >= |HOOKS| && lists <= r
    decreases |HOOKS| - |lists|
  {
    if |lists| >= |HOOKS| then lists else Padded(lists + [[]])
  }

  function ReadCtx(bs: seq<byte>, p: nat): (r: Result<seq<Cgens>>)
    requires NodeAt(bs, p)
  {
    var lists :- ReadAll(bs, p, None, CgensReader(bs));
    if |lists| > |HOOKS| && exists i :: |HOOKS| <= i < |lists| && lists[i] != [] then Err(OutOfBounds)
    else Ok(Padded(lists)[..|HOOKS|])
  }

  /** Round trip of contexts of codegens without programs. */
  lemma CtxRoundTrip(lists: seq<Cgens>)
    requires |lists| == |HOOKS| && (forall gs :: gs in lists ==> CgensOk(gs)) && |EncCtx(lists)| < SIZE_MAX
    ensures NodeAt(EncCtx(lists), 0)
    ensures ReadCtx(EncCtx(lists), 0) == if forall gs :: gs in lists ==> CgensSound(gs) then Ok(lists) else Err(AssertFailed)
  {
    hide ReadAll, EncList, IsNode, At, NodeAt, Concat, CgensOk, CgensSound, CgensReader;
    var bs := EncCtx(lists);
    AtWhole(bs);
    forall gs: Cgens | |EncCgens(gs)| < SIZE_MAX ensures IsNode(EncCgens(gs)) {
      ListIsNode(gs);
    }
    forall gs: Cgens, c: nat | gs in lists && |EncCgens(gs)| < SIZE_MAX && At(bs, c, EncCgens(gs))
      ensures CgensReader(bs)(c) == Back(gs, CgensSound(gs))
    {
      CgensRoundTrip(bs, c, gs);
    }
    ListRoundTrip(bs, 0, lists, EncCgens, CgensSound, CgensReader(bs));
    assert Padded(lists)[..|HOOKS|] == lists;
  }

  lemma ListIsNode(gs: Cgens)
    requires |EncCgens(gs)| < SIZE_MAX
    ensures IsNode(EncCgens(gs))
  {
    PackIsNode(Concat(MapAll(gs, EncCgen)));
  }
}
