/** Writers that grow a node step by step, and readers that move a cursor over the children. */
module Serializer {
  import opened Bytes
  import opened Model
  import opened Marsh
  import opened Codec
  import opened ChainCodec

  // ----- writers -----

  lemma MapNone<T, U>(xs: seq<T>, f: T -> U)
    ensures MapAll(xs[..0], f) == []
  {
  }

  lemma MapNext<T, U>(xs: seq<T>, i: nat, f: T -> U)
    requires i < |xs|
    ensures MapAll(xs[..i + 1], f) == MapAll(xs[..i], f) + [f(xs[i])]
  {
    assert xs[..i + 1] == xs[..i] + [xs[i]];
  }

  method MarshMatcher(m: Matcher) returns (b: seq<byte>)
    ensures b == EncMatcher(m)
  {
    hide Pack, Enum, ToLE, Concat;
    var node := new Node();
    node.AddChildRaw(Enum(m.kind, MATCHER_TYPES));
    node.AddChildRaw(Enum(m.op, MATCHER_OPS));
    node.AddChildRaw(ToLE(MATCHER_SIZE + |m.payload|, 8));
    node.AddChildRaw(m.payload);
    assert node.children == MatcherFields(m);
    b := node.buf[..];
  }

  method MarshMatchers(xs: seq<Matcher>) returns (b: seq<byte>)
    ensures b == EncList(xs, EncMatcher)
  {
    hide EncMatcher, MapAll, Concat;
    var node := new Node();
    var i := 0;
    MapNone(xs, EncMatcher);
    while i < |xs|
      invariant 0 <= i <= |xs| && fresh(node) && fresh(node.buf) && node.Valid()
      invariant node.children == MapAll(xs[..i], EncMatcher)
    {
      var child := MarshMatcher(xs[i]);
      node.AddChildObj(child);
      MapNext(xs, i, EncMatcher);
      i := i + 1;
    }
    assert xs[..i] == xs;
    b := node.buf[..];
  }

  method MarshRule(r: Rule) returns (b: seq<byte>)
    ensures b == EncRule(r)
  {
    hide Pack, Enum, ToLE, Concat, EncList, Bool;
    var node := new Node();
    node.AddChildRaw(ToLE(r.index, 4));
    var child := MarshMatchers(r.matchers);
    node.AddChildObj(child);
    node.AddChildRaw(Bool(r.counters));
    node.AddChildRaw(Enum(r.verdict, VERDICTS));
    assert node.children == RuleFields(r);
    b := node.buf[..];
  }

  method MarshRules(xs: seq<Rule>) returns (b: seq<byte>)
    ensures b == EncList(xs, EncRule)
  {
    hide EncRule, MapAll, Concat;
    var node := new Node();
    var i := 0;
    MapNone(xs, EncRule);
    while i < |xs|
      invariant 0 <= i <= |xs| && fresh(node) && fresh(node.buf) && node.Valid()
      invariant node.children == MapAll(xs[..i], EncRule)
    {
      var child := MarshRule(xs[i]);
      node.AddChildObj(child);
      MapNext(xs, i, EncRule);
      i := i + 1;
    }
    assert xs[..i] == xs;
    b := node.buf[..];
  }

  lemma {:induction false} ConcatSize(es: seq<seq<byte>>, n: nat)
    requires forall e :: e in es ==> |e| == n
    ensures |Concat(es)| == |es| * n
  {
    if es != [] {
      ConcatSize(es[1..], n);
      assert es[0] in es;
      MulNext(|es[1..]|, n);
    }
  }

  lemma MulNext(k: nat, n: nat)
    ensures (k + 1) * n == n + k * n
  {
  }

  /** The elements are packed in a buffer of the right size, one after the other. */
  method PackElems(s: Set) returns (data: array<byte>)
    requires SetOk(s)
    ensures fresh(data) && data[..] == Concat(s.elems)
  {
    hide Concat, ElemSize;
    ConcatSize(s.elems, ElemSize(s.kind));
    data := new byte[|s.elems| * ElemSize(s.kind)];
    var i, off := 0, 0;
    NothingPacked(s.elems);
    while i < |s.elems|
      invariant 0 <= i <= |s.elems| && fresh(data) && data.Length == |Concat(s.elems)|
      invariant off == |Concat(s.elems[..i])| <= data.Length && data[..off] == Concat(s.elems[..i])
    {
      PackNext(s.elems, i);
      Memcpy(data, off, s.elems[i]);
      Filled(data[..], off, s.elems[i]);
      off := off + |s.elems[i]|;
      i := i + 1;
    }
    assert s.elems[..i] == s.elems;
    assert data[..off] == data[..];
  }

  lemma NothingPacked(es: seq<seq<byte>>)
    ensures Concat(es[..0]) == []
  {
  }

  lemma PackNext(es: seq<seq<byte>>, i: nat)
    requires i < |es|
    ensures Concat(es[..i + 1]) == Concat(es[..i]) + es[i] && |Concat(es[..i])| + |es[i]| <= |Concat(es)|
  {
    hide Concat;
    ConcatSplit(es, i);
    assert es[..i + 1] == es[..i] + [es[i]];
    ConcatSnoc(es[..i], es[i]);
  }

  lemma Filled(b: seq<byte>, off: nat, x: seq<byte>)
    requires off + |x| <= |b| && b[off..off + |x|] == x
    ensures b[..off + |x|] == b[..off] + x
  {
  }

  method MarshSet(s: Set) returns (b: seq<byte>)
    requires SetOk(s)
    ensures b == EncSet(s)
  {
    hide Pack, Enum, Concat;
    var node := new Node();
    node.AddChildRaw(Enum(s.kind, SET_TYPES));
    var data := PackElems(s);
    node.AddChildRaw(data[..]);
    assert node.children == SetFields(s);
    b := node.buf[..];
  }

  method MarshSets(xs: seq<Set>) returns (b: seq<byte>)
    requires forall x :: x in xs ==> SetOk(x)
    ensures b == EncList(xs, EncSet)
  {
    hide EncSet, MapAll, Concat;
    var node := new Node();
    var i := 0;
    MapNone(xs, EncSet);
    while i < |xs|
      invariant 0 <= i <= |xs| && fresh(node) && fresh(node.buf) && node.Valid()
      invariant node.children == MapAll(xs[..i], EncSet)
    {
      assert xs[i] in xs;
      var child := MarshSet(xs[i]);
      node.AddChildObj(child);
      MapNext(xs, i, EncSet);
      i := i + 1;
    }
    assert xs[..i] == xs;
    b := node.buf[..];
  }

  method MarshOpts(o: HookOpts) returns (b: seq<byte>)
    ensures b == EncOpts(o)
  {
    hide Pack, ToLE, Concat, CString, Bool;
    var node := new Node();
    node.AddChildRaw(ToLE(o.usedOpts, 4));
    node.AddChildRaw(ToLE(o.ifindex, 4));
    node.AddChildRaw(CString(o.cgroup));
    node.AddChildRaw(CString(o.name));
    node.AddChildRaw(Bool(o.attach));
    assert node.children == OptsFields(o);
    b := node.buf[..];
  }

  method MarshChain(c: Chain) returns (b: seq<byte>)
    requires ChainOk(c)
    ensures b == EncChain(c)
  {
    hide Pack, Enum, Concat, EncOpts, EncList;
    var node := new Node();
    node.AddChildRaw(Enum(c.hook, HOOKS));
    node.AddChildRaw(Enum(c.policy, VERDICTS));
    var child := MarshOpts(c.opts);
    node.AddChildObj(child);
    child := MarshSets(c.sets);
    node.AddChildObj(child);
    child := MarshRules(c.rules);
    node.AddChildObj(child);
    assert node.children == ChainFields(c);
    b := node.buf[..];
  }

  method MarshCgen(g: Cgen) returns (b: seq<byte>)
    requires ChainOk(g.chain)
    ensures b == EncCgen(g)
  {
    hide Pack, Enum, Concat, EncChain;
    var node := new Node();
    node.AddChildRaw(Enum(g.front, FRONTS));
    var child := MarshChain(g.chain);
    node.AddChildObj(child);
    node.AddChildRaw([]);
    assert node.children == CgenFields(g);
    b := node.buf[..];
  }

  method MarshCgens(xs: seq<Cgen>) returns (b: seq<byte>)
    requires forall x :: x in xs ==> ChainOk(x.chain)
    ensures b == EncList(xs, EncCgen)
  {
    hide EncCgen, MapAll, Concat;
    var node := new Node();
    var i := 0;
    MapNone(xs, EncCgen);
    while i < |xs|
      invariant 0 <= i <= |xs| && fresh(node) && fresh(node.buf) && node.Valid()
      invariant node.children == MapAll(xs[..i], EncCgen)
    {
      assert xs[i] in xs;
      var child := MarshCgen(xs[i]);
      node.AddChildObj(child);
      MapNext(xs, i, EncCgen);
      i := i + 1;
    }
    assert xs[..i] == xs;
    b := node.buf[..];
  }

  method MarshCtx(xs: seq<Cgens>) returns (b: seq<byte>)
    requires forall x :: x in xs ==> CgensOk(x)
    ensures b == EncList(xs, EncCgens)
  {
    hide MapAll, Concat;
    var node := new Node();
    var i := 0;
    MapNone(xs, EncCgens);
    while i < |xs|
      invariant 0 <= i <= |xs| && fresh(node) && fresh(node.buf) && node.Valid()
      invariant node.children == MapAll(xs[..i], EncCgens)
    {
      assert xs[i] in xs;
      var child := MarshCgens(xs[i]);
      node.AddChildObj(child);
      MapNext(xs, i, EncCgens);
      i := i + 1;
    }
    assert xs[..i] == xs;
    b := node.buf[..];
  }

  // ----- readers -----

  lemma PrependNone<T>(r: Result<seq<T>>)
    ensures Prepend([], r) == r
  {
    if r.Ok? {
      assert [] + r.value == r.value;
    }
  }

  function Prepend<T>(xs: seq<T>, r: Result<seq<T>>): (s: Result<seq<T>>)
  {
    match r case Ok(ys) => Ok(xs + ys) case Err(e) => Err(e)
  }

  lemma PrependMore<T>(xs: seq<T>, x: T, r: Result<seq<T>>)
    ensures Prepend(xs, Prepend([x], r)) == Prepend(xs + [x], r)
  {
    if r.Ok? {
      assert xs + ([x] + r.value) == xs + [x] + r.value;
    }
  }

  lemma RestLess(bs: seq<byte>, p: nat, prev: Option<nat>)
    requires NodeAt(bs, p) && (prev.Some? ==> ChildIsValid(bs, p, prev.value)) && NextChild(bs, p, prev).Some?
    ensures Rest(bs, p, NextChild(bs, p, prev)) < Rest(bs, p, prev)
  {
  }

  method UnmarshMatcher(bs: seq<byte>, p: nat) returns (r: Result<Matcher>)
    requires NodeAt(bs, p)
    ensures r == ReadMatcher(bs, p)
    ensures forall m: Matcher :: At(bs, p, EncMatcher(m)) && |EncMatcher(m)| < SIZE_MAX ==> r == MatcherBack(m)
  {
    forall m: Matcher | At(bs, p, EncMatcher(m)) && |EncMatcher(m)| < SIZE_MAX ensures ReadMatcher(bs, p) == MatcherBack(m) {
      MatcherRoundTrip(bs, p, m);
    }
    hide Len, End, ChildIsValid, NextChild, TakeEnum, TakeNum, Take;
    var child :- Next(bs, p, None);
    var kind :- TakeEnum(bs, child, MATCHER_TYPES);
    child :- Next(bs, p, Some(child));
    var op :- TakeEnum(bs, child, MATCHER_OPS);
    child :- Next(bs, p, Some(child));
    var len :- TakeNum(bs, child, 8);
    child :- Next(bs, p, Some(child));
    var payload :- Take(bs, child, (len - MATCHER_SIZE) % SIZE_MAX);
    r := NewMatcher(kind, op, payload);
  }

  /** Read every child with a moving cursor, appending what is read; stop at the first error. */
  method UnmarshMatchers(bs: seq<byte>, p: nat) returns (r: Result<seq<Matcher>>)
    requires NodeAt(bs, p)
    ensures r == ReadAll(bs, p, None, MatcherReader(bs))
  {
    hide Len, End, ChildIsValid, NextChild, ReadMatcher;
    var xs: seq<Matcher> := [];
    var prev: Option<nat> := None;
    var child := NextChild(bs, p, None);
    PrependNone(ReadAll(bs, p, None, MatcherReader(bs)));
    while child.Some?
      invariant prev.Some? ==> ChildIsValid(bs, p, prev.value)
      invariant child == NextChild(bs, p, prev)
      invariant ReadAll(bs, p, None, MatcherReader(bs)) == Prepend(xs, ReadAll(bs, p, prev, MatcherReader(bs)))
      decreases Rest(bs, p, prev)
    {
      RestLess(bs, p, prev);
      var x := UnmarshMatcher(bs, child.value);
      if x.Err? {
        return Err(x.errno);
      }
      PrependMore(xs, x.value, ReadAll(bs, p, child, MatcherReader(bs)));
      xs := xs + [x.value];
      prev := child;
      child := NextChild(bs, p, child);
    }
    assert ReadAll(bs, p, prev, MatcherReader(bs)) == Ok([]);
    assert xs + [] == xs;
    r := Ok(xs);
  }

  method UnmarshRule(bs: seq<byte>, p: nat) returns (r: Result<Rule>)
    requires NodeAt(bs, p)
    ensures r == ReadRule(bs, p)
    ensures forall x: Rule :: At(bs, p, EncRule(x)) && |EncRule(x)| < SIZE_MAX ==> r == Back(x, RuleSound(x))
  {
    forall x: Rule | At(bs, p, EncRule(x)) && |EncRule(x)| < SIZE_MAX ensures ReadRule(bs, p) == Back(x, RuleSound(x)) {
      RuleRoundTrip(bs, p, x);
    }
    hide Len, End, ChildIsValid, NextChild, ReadAll, TakeEnum, TakeU32, TakeBool, MatcherReader;
    var elem :- Next(bs, p, None);
    var index :- TakeU32(bs, elem);
    elem :- Next(bs, p, Some(elem));
    var matchers :- UnmarshMatchers(bs, elem);
    elem :- Next(bs, p, Some(elem));
    var counters :- TakeBool(bs, elem);
    elem :- Next(bs, p, Some(elem));
    var verdict :- TakeEnum(bs, elem, VERDICTS);
    r := Ok(Rule(index, matchers, counters, verdict));
  }

  method UnmarshRules(bs: seq<byte>, p: nat) returns (r: Result<seq<Rule>>)
    requires NodeAt(bs, p)
    ensures r == ReadAll(bs, p, None, RuleReader(bs))
  {
    hide Len, End, ChildIsValid, NextChild, ReadRule;
    var xs: seq<Rule> := [];
    var prev: Option<nat> := None;
    var child := NextChild(bs, p, None);
    PrependNone(ReadAll(bs, p, None, RuleReader(bs)));
    while child.Some?
      invariant prev.Some? ==> ChildIsValid(bs, p, prev.value)
      invariant child == NextChild(bs, p, prev)
      invariant ReadAll(bs, p, None, RuleReader(bs)) == Prepend(xs, ReadAll(bs, p, prev, RuleReader(bs)))
      decreases Rest(bs, p, prev)
    {
      RestLess(bs, p, prev);
      var x := UnmarshRule(bs, child.value);
      if x.Err? {
        return Err(x.errno);
      }
      PrependMore(xs, x.value, ReadAll(bs, p, child, RuleReader(bs)));
      xs := xs + [x.value];
      prev := child;
      child := NextChild(bs, p, child);
    }
    assert ReadAll(bs, p, prev, RuleReader(bs)) == Ok([]);
    assert xs + [] == xs;
    r := Ok(xs);
  }

  /** Copy out the elements of a set one after the other; `off` is the index times the size. */
  method UnmarshElems(data: seq<byte>, n: nat) returns (es: seq<seq<byte>>)
    requires n > 0
    ensures es == Chunks(data, n)
  {
    hide Chunks, ElemCount;
    var count := ElemCount(|data|, n);
    ChunksLen(data, n);
    assert data[0..] == data;
    es := [];
    var i, off := 0, 0;
    while i < count
      invariant 0 <= i <= count && 0 <= off <= |data|
      invariant i + |Chunks(data[off..], n)| == count && Chunks(data, n) == es + Chunks(data[off..], n)
    {
      ChunksNext(data, off, n);
      es := es + [data[off..off + n]];
      off := off + n;
      i := i + 1;
    }
  }

  function ElemCount(len: nat, n: nat): (r: nat)
    requires n > 0
  {
    len / n
  }

  /** There are as many elements as the size divides the length. */
  lemma {:induction false} ChunksLen(data: seq<byte>, n: nat)
    requires n > 0
    ensures |Chunks(data, n)| == ElemCount(|data|, n)
    decreases |data|
  {
    DivStep(|data|, n);
    if |data| >= n {
      ChunksLen(data[n..], n);
    }
  }

  lemma ChunksNext(data: seq<byte>, off: nat, n: nat)
    requires n > 0 && off <= |data| && Chunks(data[off..], n) != []
    ensures off + n <= |data| && Chunks(data[off..], n) == [data[off..off + n]] + Chunks(data[off + n..], n)
  {
    assert data[off..][n..] == data[off + n..] && data[off..][..n] == data[off..off + n];
  }

  lemma DivStep(x: nat, n: nat)
    requires n > 0
    ensures if x < n then x / n == 0 else x / n == (x - n) / n + 1
  {
    if x >= n {
      var q, r := (x - n) / n, (x - n) % n;
      var d := x / n - (q + 1);
      assert r - x % n == n * d by {
        assert x == n * (x / n) + x % n && x - n == n * q + r;
        assert n * d == n * (x / n) - n * (q + 1);
      }
      SmallMultiple(n, d, r - x % n);
    }
  }

  method UnmarshSet(bs: seq<byte>, p: nat) returns (r: Result<Set>)
    requires NodeAt(bs, p)
    ensures r == ReadSet(bs, p)
    ensures forall s: Set :: At(bs, p, EncSet(s)) && |EncSet(s)| < SIZE_MAX && SetOk(s) ==> r == Ok(s)
  {
    forall s: Set | At(bs, p, EncSet(s)) && |EncSet(s)| < SIZE_MAX && SetOk(s) ensures ReadSet(bs, p) == Ok(s) {
      SetRoundTrip(bs, p, s);
    }
    hide Len, ChildIsValid, NextChild, TakeEnum, Chunks;
    var child :- Next(bs, p, None);
    var kind :- TakeEnum(bs, child, SET_TYPES);
    child :- Next(bs, p, Some(child));
    var elems := UnmarshElems(bs[child + HDR..End(bs, child)], ElemSize(kind));
    r := Ok(Set(kind, elems));
  }

  method UnmarshSets(bs: seq<byte>, p: nat) returns (r: Result<seq<Set>>)
    requires NodeAt(bs, p)
    ensures r == ReadAll(bs, p, None, SetReader(bs))
  {
    hide Len, End, ChildIsValid, NextChild, ReadSet;
    var xs: seq<Set> := [];
    var prev: Option<nat> := None;
    var child := NextChild(bs, p, None);
    PrependNone(ReadAll(bs, p, None, SetReader(bs)));
    while child.Some?
      invariant prev.Some? ==> ChildIsValid(bs, p, prev.value)
      invariant child == NextChild(bs, p, prev)
      invariant ReadAll(bs, p, None, SetReader(bs)) == Prepend(xs, ReadAll(bs, p, prev, SetReader(bs)))
      decreases Rest(bs, p, prev)
    {
      RestLess(bs, p, prev);
      var x := UnmarshSet(bs, child.value);
      if x.Err? {
        return Err(x.errno);
      }
      PrependMore(xs, x.value, ReadAll(bs, p, child, SetReader(bs)));
      xs := xs + [x.value];
      prev := child;
      child := NextChild(bs, p, child);
    }
    assert ReadAll(bs, p, prev, SetReader(bs)) == Ok([]);
    assert xs + [] == xs;
    r := Ok(xs);
  }

  method UnmarshOpts(bs: seq<byte>, p: nat) returns (r: Result<HookOpts>)
    requires NodeAt(bs, p)
    ensures r == ReadOpts(bs, p)
    ensures forall o: HookOpts :: At(bs, p, EncOpts(o)) && |EncOpts(o)| < SIZE_MAX && OptsOk(o) ==> r == Ok(o)
  {
    forall o: HookOpts | At(bs, p, EncOpts(o)) && |EncOpts(o)| < SIZE_MAX && OptsOk(o) ensures ReadOpts(bs, p) == Ok(o) {
      OptsRoundTrip(bs, p, o);
    }
    hide Len, End, ChildIsValid, NextChild, TakeU32, TakeBool, TakeString;
    var elem :- Next(bs, p, None);
    var usedOpts :- TakeU32(bs, elem);
    elem :- Next(bs, p, Some(elem));
    var ifindex :- TakeU32(bs, elem);
    elem :- Next(bs, p, Some(elem));
    var cgroup :- TakeString(bs, elem);
    elem :- Next(bs, p, Some(elem));
    var name :- TakeString(bs, elem);
    elem :- Next(bs, p, Some(elem));
    var attach :- TakeBool(bs, elem);
    if NextChild(bs, p, Some(elem)).Some? {
      return Err(E2BIG);
    }
    r := Ok(HookOpts(usedOpts, ifindex, cgroup, name, attach));
  }

  method UnmarshChain(bs: seq<byte>, p: nat) returns (r: Result<Chain>)
    requires NodeAt(bs, p)
    ensures r == ReadChain(bs, p)
    ensures forall c: Chain :: At(bs, p, EncChain(c)) && |EncChain(c)| < SIZE_MAX && ChainOk(c) ==> r == Back(c, ChainSound(c))
  {
    forall c: Chain | At(bs, p, EncChain(c)) && |EncChain(c)| < SIZE_MAX && ChainOk(c) ensures ReadChain(bs, p) == Back(c, ChainSound(c)) {
      ChainAt(bs, p, c);
    }
    hide Len, End, ChildIsValid, NextChild, ReadAll, TakeEnum, ReadOpts, SetReader, RuleReader;
    var elem :- Next(bs, p, None);
    var hook :- TakeEnum(bs, elem, HOOKS);
    elem :- Next(bs, p, Some(elem));
    var policy :- TakeEnum(bs, elem, VERDICTS);
    if !Terminal(policy) {
      return Err(AssertFailed);
    }
    elem :- Next(bs, p, Some(elem));
    var opts :- UnmarshOpts(bs, elem);
    elem :- Next(bs, p, Some(elem));
    var sets :- UnmarshSets(bs, elem);
    elem :- Next(bs, p, Some(elem));
    var rules :- UnmarshRules(bs, elem);
    r := Ok(Chain(hook, opts, policy, sets, rules));
  }

  method UnmarshCgen(bs: seq<byte>, p: nat) returns (r: Result<Cgen>)
    requires NodeAt(bs, p)
    ensures r == ReadCgen(bs, p)
    ensures forall g: Cgen :: At(bs, p, EncCgen(g)) && |EncCgen(g)| < SIZE_MAX && ChainOk(g.chain) ==> r == Back(g, CgenSound(g))
  {
    forall g: Cgen | At(bs, p, EncCgen(g)) && |EncCgen(g)| < SIZE_MAX && ChainOk(g.chain) ensures ReadCgen(bs, p) == Back(g, CgenSound(g)) {
      CgenAt(bs, p, g);
    }
    hide Len, End, ChildIsValid, NextChild, TakeEnum, ReadChain;
    var elem :- Next(bs, p, None);
    var front :- TakeEnum(bs, elem, FRONTS);
    elem :- Next(bs, p, Some(elem));
    var chain :- UnmarshChain(bs, elem);
    elem :- Next(bs, p, Some(elem));
    if Len(bs, elem) != 0 {
      return Err(ENOTSUP);
    }
    r := Ok(Cgen(front, chain));
  }

  method UnmarshCgens(bs: seq<byte>, p: nat) returns (r: Result<seq<Cgen>>)
    requires NodeAt(bs, p)
    ensures r == ReadAll(bs, p, None, CgenReader(bs))
  {
    hide Len, End, ChildIsValid, NextChild, ReadCgen;
    var xs: seq<Cgen> := [];
    var prev: Option<nat> := None;
    var child := NextChild(bs, p, None);
    PrependNone(ReadAll(bs, p, None, CgenReader(bs)));
    while child.Some?
      invariant prev.Some? ==> ChildIsValid(bs, p, prev.value)
      invariant child == NextChild(bs, p, prev)
      invariant ReadAll(bs, p, None, CgenReader(bs)) == Prepend(xs, ReadAll(bs, p, prev, CgenReader(bs)))
      decreases Rest(bs, p, prev)
    {
      RestLess(bs, p, prev);
      var x := UnmarshCgen(bs, child.value);
      if x.Err? {
        return Err(x.errno);
      }
      PrependMore(xs, x.value, ReadAll(bs, p, child, CgenReader(bs)));
      xs := xs + [x.value];
      prev := child;
      child := NextChild(bs, p, child);
    }
    assert ReadAll(bs, p, prev, CgenReader(bs)) == Ok([]);
    assert xs + [] == xs;
    r := Ok(xs);
  }

  method UnmarshCtx(bs: seq<byte>, p: nat) returns (r: Result<seq<Cgens>>)
    requires NodeAt(bs, p)
    ensures r == ReadAll(bs, p, None, CgensReader(bs))
  {
    hide Len, End, ChildIsValid, NextChild, CgenReader;
    var xs: seq<Cgens> := [];
    var prev: Option<nat> := None;
    var child := NextChild(bs, p, None);
    PrependNone(ReadAll(bs, p, None, CgensReader(bs)));
    while child.Some?
      invariant prev.Some? ==> ChildIsValid(bs, p, prev.value)
      invariant child == NextChild(bs, p, prev)
      invariant ReadAll(bs, p, None, CgensReader(bs)) == Prepend(xs, ReadAll(bs, p, prev, CgensReader(bs)))
      decreases Rest(bs, p, prev)
    {
      RestLess(bs, p, prev);
      var x := UnmarshCgens(bs, child.value);
      if x.Err? {
        return Err(x.errno);
      }
      PrependMore(xs, x.value, ReadAll(bs, p, child, CgensReader(bs)));
      xs := xs + [x.value];
      prev := child;
      child := NextChild(bs, p, child);
    }
    assert ReadAll(bs, p, prev, CgensReader(bs)) == Ok([]);
    assert xs + [] == xs;
    r := Ok(xs);
  }

  /** Writing a context and reading it back, as the daemon does: writers and readers all the way down. */
  method SaveAndLoad(lists: seq<Cgens>) returns (r: Result<seq<Cgens>>)
    requires |lists| == |HOOKS| && (forall gs :: gs in lists ==> CgensOk(gs)) && |EncCtx(lists)| < SIZE_MAX
    ensures r == if forall gs :: gs in lists ==> CgensSound(gs) then Ok(lists) else Err(AssertFailed)
  {
    hide ReadAll, EncList, CgensSound, CgensOk, CgensReader;
    var bs := MarshCtx(lists);
    CtxRoundTrip(lists);
    var read :- UnmarshCtx(bs, 0);
    r := Ok(Padded(read)[..|HOOKS|]);
  }
}
