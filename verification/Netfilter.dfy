/** Replacement of a Netfilter program: new links are created before the old ones are closed. */
module Netfilter {
  import opened Model

  const PRIO_EVEN: nat := 2
  const PRIO_ODD: nat := 1

  datatype Family = Ipv4 | Ipv6

  /** A link known to the kernel: program `prog` filters `family` at priority `prio`. */
  datatype Link = Link(family: Family, prio: nat, prog: nat)

  predicate Taken(links: set<Link>, f: Family, prio: nat)
  {
    exists l :: l in links && l.family == f && l.prio == prio
  }

  /** A family is filtered by one of two programs. */
  predicate Filtered(links: set<Link>, f: Family, a: nat, b: nat)
  {
    exists l :: l in links && l.family == f && (l.prog == a || l.prog == b)
  }

  predicate Covered(links: set<Link>, a: nat, b: nat)
  {
    Filtered(links, Ipv4, a, b) && Filtered(links, Ipv6, a, b)
  }

  /** The kernel's links at one hook, with the history of what they were. */
  class Kernel {
    var links: set<Link>
    ghost var trace: seq<set<Link>>

    constructor ()
      ensures links == {} && trace == []
    {
      links, trace := {}, [];
    }

    /** The history goes on, and its last state is the present one if anything changed. */
    twostate predicate Logged()
      reads this
    {
      && old(trace) <= trace
      && (trace == old(trace) ==> links == old(links))
      && (trace != old(trace) ==> trace[|trace| - 1] == links)
    }

    /** Fails when the priority is taken, and whenever the kernel wants to. */
    method LinkCreate(f: Family, prio: nat, prog: nat, refuses: bool) returns (r: Result<Link>)
      modifies this
      ensures r.Ok? <==> !refuses && !Taken(old(links), f, prio)
      ensures r.Ok? ==> r.value == Link(f, prio, prog) && links == old(links) + {r.value} && trace == old(trace) + [links]
      ensures r.Err? ==> links == old(links) && trace == old(trace)
      ensures Logged()
    {
      if refuses || exists l :: l in links && l.family == f && l.prio == prio {
        return Err(EEXIST);
      }
      var l := Link(f, prio, prog);
      links := links + {l};
      trace := trace + [links];
      r := Ok(l);
    }

    method Close(l: Link)
      modifies this
      ensures links == old(links) - {l} && trace == old(trace) + [links]
    {
      links := links - {l};
      trace := trace + [links];
    }

    /** Close the links of a program, one after the other. */
    method CloseAll(ls: seq<Link>, ghost a: nat, ghost b: nat)
      modifies this
      ensures links == old(links) - (set l | l in ls) && Logged()
      ensures forall i :: |old(trace)| <= i < |trace| ==> links <= trace[i] <= old(links)
      ensures Covered(links, a, b) ==> forall i :: |old(trace)| <= i < |trace| ==> Covered(trace[i], a, b)
    {
      var i := 0;
      while i < |ls|
        invariant 0 <= i <= |ls| && links == old(links) - (set l | l in ls[..i]) && Logged()
        invariant forall k :: |old(trace)| <= k < |trace| ==> old(links) - (set l | l in ls) <= trace[k] <= old(links)
      {
        Close(ls[i]);
        assert ls[..i + 1] == ls[..i] + [ls[i]];
        i := i + 1;
      }
      assert ls[..i] == ls;
      forall k | |old(trace)| <= k < |trace| && Covered(links, a, b) ensures Covered(trace[k], a, b) {
        CoveredMore(links, trace[k], a, b);
      }
    }
  }

  lemma CoveredMore(s: set<Link>, t: set<Link>, a: nat, b: nat)
    requires Covered(s, a, b) && s <= t
    ensures Covered(t, a, b)
  {
  }

  /** The links of an attached program. */
  predicate Pair(ls: seq<Link>, id: nat)
  {
    && |ls| == 2 && ls[0].family == Ipv4 && ls[1].family == Ipv6 && ls[0].prio == ls[1].prio
    && (ls[0].prio == PRIO_EVEN || ls[0].prio == PRIO_ODD) && ls[0].prog == id && ls[1].prog == id
  }

  function Other(prio: nat): (r: nat)
    ensures r == if prio == 2 then 1 else 2
  {
    if prio == PRIO_EVEN then PRIO_ODD else PRIO_EVEN
  }

  /** Nothing filters IPv6 that did not before. */
  predicate HalfWay(before: set<Link>, links: set<Link>)
  {
    forall l :: l in links && l.family == Ipv6 ==> l in before
  }

  /** Attach where nothing was attached before: both families at the even priority. */
  method AttachFirst(k: Kernel, id: nat, refuses: nat -> bool) returns (r: Result<()>, ls: seq<Link>)
    modifies k
    ensures k.links == old(k.links) + (set l | l in ls) && k.Logged()
    ensures forall l :: l in ls ==> l.prog == id && l !in old(k.links)
    ensures r.Ok? ==> Pair(ls, id) && ls[0].prio == 2
    ensures r.Err? ==> forall l :: l in ls ==> l.family == Ipv4
    ensures forall i :: |old(k.trace)| <= i < |k.trace| && (r.Err? || i < |k.trace| - 1) ==> HalfWay(old(k.links), k.trace[i])
    ensures r.Ok? <==> !refuses(0) && !refuses(1) && !Taken(old(k.links), Ipv4, PRIO_EVEN) && !Taken(old(k.links), Ipv6, PRIO_EVEN)
  {
    ls := [];
    var l := k.LinkCreate(Ipv4, PRIO_EVEN, id, refuses(0));
    if l.Err? {
      return Err(EEXIST), ls;
    }
    ls := [l.value];
    ghost var mid := k.links;
    l := k.LinkCreate(Ipv6, PRIO_EVEN, id, refuses(1));
    assert Taken(mid, Ipv6, PRIO_EVEN) <==> Taken(old(k.links), Ipv6, PRIO_EVEN);
    if l.Err? {
      return Err(EEXIST), ls;
    }
    ls := ls + [l.value];
    r := Ok(());
  }

  /** The new program's links of other families do not take the place of the next one. */
  lemma BesideFree(was: set<Link>, ls: seq<Link>, olds: seq<Link>, p: nat, id: nat, i: nat)
    requires |olds| == 2 && olds[0].family == Ipv4 && olds[1].family == Ipv6 && i < 2 && |ls| == i
    requires forall j :: 0 <= j < i ==> ls[j] == Link(olds[j].family, p, id)
    ensures Taken(was + (set l | l in ls), olds[i].family, p) <==> Taken(was, olds[i].family, p)
    ensures Link(olds[i].family, p, id) in was ==> Taken(was, olds[i].family, p)
  {
  }

  lemma OneMore(was: set<Link>, ls: seq<Link>, l: Link)
    ensures was + (set x | x in ls) + {l} == was + (set x | x in ls + [l])
  {
  }

  /** Attach next to each link of the old program, at the other priority. */
  method AttachBeside(k: Kernel, id: nat, olds: seq<Link>, oldId: nat, refuses: nat -> bool) returns (r: Result<()>, ls: seq<Link>)
    requires Pair(olds, oldId) && olds[0] in k.links && olds[1] in k.links
    modifies k
    ensures k.links == old(k.links) + (set l | l in ls) && k.Logged()
    ensures forall l :: l in ls ==> l.prog == id && l !in old(k.links)
    ensures forall i :: |old(k.trace)| <= i < |k.trace| ==> Covered(k.trace[i], oldId, id)
    ensures r.Ok? ==> Pair(ls, id) && ls[0].prio == Other(olds[0].prio)
    ensures r.Ok? <==> !refuses(0) && !refuses(1) && !Taken(old(k.links), Ipv4, Other(olds[0].prio)) && !Taken(old(k.links), Ipv6, Other(olds[0].prio))
  {
    var p := Other(olds[0].prio);
    assert Covered(k.links, oldId, id);
    ghost var was := k.links;
    ls := [];
    var i := 0;
    while i < |olds|
      invariant 0 <= i <= 2 && |ls| == i && k.links == was + (set l | l in ls) && k.Logged()
      invariant forall j :: 0 <= j < i ==> ls[j] == Link(olds[j].family, p, id) && ls[j] !in was
      invariant forall j :: 0 <= j < i ==> !refuses(j) && !Taken(was, olds[j].family, p)
      invariant forall j :: |old(k.trace)| <= j < |k.trace| ==> Covered(k.trace[j], oldId, id)
    {
      hide Taken, Covered;
      BesideFree(was, ls, olds, p, id, i);
      var l := k.LinkCreate(olds[i].family, Other(olds[i].prio), id, refuses(i));
      if l.Err? {
        return Err(EEXIST), ls;
      }
      CoveredMore(was, k.links, oldId, id);
      OneMore(was, ls, l.value);
      ls := ls + [l.value];
      i := i + 1;
    }
    r := Ok(());
  }

  // ----- updates -----

  /** A loaded program and its links. */
  datatype Prog = Prog(id: nat, links: seq<Link>)

  function LinkSet(p: Option<Prog>): (s: set<Link>)
  {
    match p case Some(q) => (set l | l in q.links) case None => {}
  }

  /**
   * Between requests, the kernel holds the links of others (program 0) and those of the live
   * program: one for each family, at one priority.
   */
  predicate Settled(links: set<Link>, foreign: set<Link>, live: Option<Prog>)
  {
    && (forall l :: l in foreign ==> l.prog == 0) && links == foreign + LinkSet(live)
    && (live.Some? ==> live.value.id > 0 && Pair(live.value.links, live.value.id))
  }

  /** Priority the next program gets. */
  function NextPrio(live: Option<Prog>): (p: nat)
  {
    if live.Some? && live.value.links != [] then Other(live.value.links[0].prio) else PRIO_EVEN
  }

  /** The links of others are the only ones that can be in the way. */
  predicate Free(foreign: set<Link>, prio: nat)
  {
    !Taken(foreign, Ipv4, prio) && !Taken(foreign, Ipv6, prio)
  }

  lemma OwnNotInTheWay(links: set<Link>, foreign: set<Link>, live: Option<Prog>, f: Family)
    requires Settled(links, foreign, live)
    ensures Taken(links, f, NextPrio(live)) <==> Taken(foreign, f, NextPrio(live))
  {
  }

  /**
   * Load a new program in place of the live one. It takes the other priority; if an attachment
   * fails its links are closed and the old program stays. Both families are filtered at each step.
   */
  method Replace(k: Kernel, live: Option<Prog>, id: nat, refuses: nat -> bool, ghost foreign: set<Link>)
    returns (r: Result<()>, now: Option<Prog>)
    requires Settled(k.links, foreign, live) && id > 0 && (live.Some? ==> id != live.value.id)
    modifies k
    ensures Settled(k.links, foreign, now) && k.Logged()
    ensures r.Ok? <==> !refuses(0) && !refuses(1) && Free(foreign, NextPrio(live))
    ensures if r.Ok? then now.Some? && now.value.id == id && now.value.links[0].prio == NextPrio(live) else now == live
    ensures live.Some? ==> forall i :: |old(k.trace)| <= i < |k.trace| ==> Covered(k.trace[i], live.value.id, id)
    ensures live.None? ==>
              forall i :: |old(k.trace)| <= i < |k.trace| && (r.Err? || i < |k.trace| - 1) ==> HalfWay(foreign, k.trace[i])
  {
    hide Taken;
    OwnNotInTheWay(k.links, foreign, live, Ipv4);
    OwnNotInTheWay(k.links, foreign, live, Ipv6);
    ghost var was := k.links;
    var ls: seq<Link>;
    if live.Some? && live.value.links != [] {
      r, ls := AttachBeside(k, id, live.value.links, live.value.id, refuses);
    } else {
      r, ls := AttachFirst(k, id, refuses);
    }
    if r.Err? {
      k.CloseAll(ls, if live.Some? then live.value.id else 0, id);
      Closed(was, ls);
      return r, live;
    }
    now := Some(Prog(id, ls));
    if live.Some? {
      ghost var both := k.links;
      k.CloseAll(live.value.links, live.value.id, id);
      Swapped(foreign, live.value.links, ls, live.value.id, id);
    }
  }

  lemma Closed(was: set<Link>, ls: seq<Link>)
    requires forall l :: l in ls ==> l !in was
    ensures was + (set l | l in ls) - (set l | l in ls) == was
  {
  }

  lemma Swapped(foreign: set<Link>, olds: seq<Link>, ls: seq<Link>, a: nat, b: nat)
    requires (forall l :: l in foreign ==> l.prog == 0) && Pair(olds, a) && Pair(ls, b) && a != b && a > 0 && b > 0
    ensures foreign + (set l | l in olds) + (set l | l in ls) - (set l | l in olds) == foreign + (set l | l in ls)
    ensures Covered(foreign + (set l | l in ls), a, b)
  {
    assert forall l :: l in olds ==> l.prog == a;
    assert forall l :: l in ls ==> l.prog == b;
    assert ls[0] in (set l | l in ls) && ls[1] in (set l | l in ls);
  }

  /** Programs of ours filter both families. */
  ghost predicate Guarded(links: set<Link>)
  {
    exists a: nat, b: nat :: a > 0 && b > 0 && Covered(links, a, b)
  }

  lemma GuardedBy(links: set<Link>, a: nat, b: nat)
    requires Covered(links, a, b) && a > 0 && b > 0
    ensures Guarded(links)
  {
  }

  /** With only foreign links on IPv6, that family is not filtered by us. */
  lemma HalfWayOpen(foreign: set<Link>, links: set<Link>)
    requires (forall l :: l in foreign ==> l.prog == 0) && HalfWay(foreign, links)
    ensures !Guarded(links)
  {
  }

  /** A settled state with a live program is guarded. */
  lemma SettledGuarded(links: set<Link>, foreign: set<Link>, live: Option<Prog>)
    requires Settled(links, foreign, live) && live.Some?
    ensures Guarded(links)
  {
    var p := live.value;
    assert p.links[0] in links && p.links[1] in links;
    GuardedBy(links, p.id, p.id);
  }

  /** Once guarded, always guarded, from slot `n` of a history on. */
  ghost predicate StaysGuarded(trace: seq<set<Link>>, n: nat)
  {
    forall i, j :: n <= i <= j < |trace| && Guarded(trace[i]) ==> Guarded(trace[j])
  }

  /** Nothing in a history is guarded from slot `n` on. */
  ghost predicate NeverGuarded(trace: seq<set<Link>>, n: nat)
  {
    forall i :: n <= i < |trace| ==> !Guarded(trace[i])
  }

  /** One more update in a history that started at slot `n`. */
  lemma UpdateKeeps(was: seq<set<Link>>, trace: seq<set<Link>>, n: nat, foreign: set<Link>, live: Option<Prog>, id: nat, ok: bool)
    requires was <= trace && n <= |was| && id > 0 && (forall l :: l in foreign ==> l.prog == 0)
    requires live.Some? ==> live.value.id > 0 && StaysGuarded(was, n)
    requires live.Some? ==> forall i :: |was| <= i < |trace| ==> Covered(trace[i], live.value.id, id)
    requires live.None? ==> NeverGuarded(was, n)
    requires live.None? ==> forall i :: |was| <= i < |trace| && (!ok || i < |trace| - 1) ==> HalfWay(foreign, trace[i])
    ensures StaysGuarded(trace, n) && (live.None? && !ok ==> NeverGuarded(trace, n))
  {
    hide Guarded, Covered;
    assert forall i :: 0 <= i < |was| ==> trace[i] == was[i];
    if live.Some? {
      forall i | |was| <= i < |trace| ensures Guarded(trace[i]) {
        GuardedBy(trace[i], live.value.id, id);
      }
    } else {
      forall i | |was| <= i < |trace| && (!ok || i < |trace| - 1) ensures !Guarded(trace[i]) {
        HalfWayOpen(foreign, trace[i]);
      }
    }
  }

  /**
   * Over any run of updates, with any refusals by the kernel: the state between updates is settled,
   * and from the first state in which both families are filtered by us they stay so in every state
   * that follows, up to the present one.
   */
  method RunAll(k: Kernel, refusals: seq<nat -> bool>) returns (live: Option<Prog>)
    requires forall l :: l in k.links ==> l.prog == 0
    modifies k
    ensures Settled(k.links, old(k.links), live) && k.Logged()
    ensures StaysGuarded(k.trace, |old(k.trace)|)
    ensures if live.Some? then |k.trace| > |old(k.trace)| && Guarded(k.trace[|k.trace| - 1])
            else NeverGuarded(k.trace, |old(k.trace)|)
    ensures live.Some? <==> exists i :: 0 <= i < |refusals| && !refusals[i](0) && !refusals[i](1) && Free(old(k.links), PRIO_EVEN)
  {
    ghost var foreign, n := k.links, |k.trace|;
    live := None;
    var i := 0;
    while i < |refusals|
      invariant 0 <= i <= |refusals| && Settled(k.links, foreign, live) && (live.Some? ==> 0 < live.value.id <= i)
      invariant k.Logged() && StaysGuarded(k.trace, n)
      invariant if live.Some? then |k.trace| > n && Guarded(k.links) else NeverGuarded(k.trace, n)
      invariant live.Some? <==> exists j :: 0 <= j < i && !refusals[j](0) && !refusals[j](1) && Free(foreign, PRIO_EVEN)
    {
      hide Settled, Free, Covered, Guarded, StaysGuarded, NeverGuarded, HalfWay;
      ghost var before, was := live, k.trace;
      var r;
      r, live := Replace(k, live, i + 1, refusals[i], foreign);
      UpdateKeeps(was, k.trace, n, foreign, before, i + 1, r.Ok?);
      if live.Some? {
        SettledGuarded(k.links, foreign, live);
        SettledId(k.links, foreign, live);
      }
      i := i + 1;
    }
  }

  lemma SettledId(links: set<Link>, foreign: set<Link>, live: Option<Prog>)
    requires Settled(links, foreign, live) && live.Some?
    ensures live.value.id > 0
  {
  }
}
