/** Running a linked image, one instruction at a time. */
module Vm {
  import opened Bytes
  import opened Bpf
  import opened Model
  import opened Machine
  import opened Fragment

  /** What a program-local call saves: the return address, r6-r10 and the caller's frame. */
  datatype Saved = Saved(ret: nat, regs: Regs, frame: Frame, depth: nat)

  datatype Vm =
    | Running(pc: nat, st: State, caller: Option<Saved>)
    | Halted(r0: u64, counters: seq<Counter>)
    | Crashed

  function Start(counters: seq<Counter>): (m: Vm)
  {
    Running(0, State([Undef, Ptr(Ctx, 0), Undef, Undef, Undef, Undef, Undef, Undef, Undef, Undef, Ptr(Stack(0), 0)],
                     FreshFrame(), counters, 0), None)
  }

  /** State of a function on entry: its arguments and a frame of its own. */
  function Callee(st: State): (s: State)
  {
    State([Undef] + st.regs[1..6] + [Undef, Undef, Undef, Undef, Ptr(Stack(st.depth + 1), 0)],
          FreshFrame(), st.counters, st.depth + 1)
  }

  /** Leaving the current function. */
  function Leaving(st: State, caller: Option<Saved>): (m: Vm)
  {
    if !st.regs[0].Num? then Crashed
    else match caller
      case None => Halted(st.regs[0].n, st.counters)
      case Some(c) => Running(c.ret, State(Clobber(c.regs, st.regs[0]), c.frame, st.counters, c.depth), None)
  }

  function Goto(pc: int, st: State, caller: Option<Saved>): (m: Vm)
  {
    if pc < 0 then Crashed else Running(pc, st, caller)
  }

  function Step(img: seq<Insn>, env: Env, m: Vm): (r: Vm)
  {
    if !m.Running? then m
    else if m.pc >= |img| then Crashed
    else
      var insn, pc, st := img[m.pc], m.pc, m.st;
      if IsJump(insn) then
        match Taken(insn, st)
        case None => Crashed
        case Some(b) => Goto(if b then pc + 1 + insn.off else pc + 1, st, m.caller)
      else if insn.Exit? then Leaving(st, m.caller)
      else if insn.CallRel? then
        if m.caller.Some? then Crashed
        else Goto(pc + 1 + insn.imm, Callee(st), Some(Saved(pc + 1, st.regs, st.frame, st.depth)))
      else if insn.LdMapFd? then
        if pc + 1 < |img| && img[pc + 1].LdHi? && insn.dst != 10
        then Running(pc + 2, st.(regs := st.regs[insn.dst := Ptr(MapFd(insn.imm), 0)]), m.caller) else Crashed
      else if insn.LdHi? then Crashed
      else match Do(insn, env, st)
        case None => Crashed
        case Some(s) => Running(pc + 1, s, m.caller)
  }

  function Iter(img: seq<Insn>, env: Env, m: Vm, n: nat): (r: Vm)
    decreases n
  {
    if n == 0 then m else Iter(img, env, Step(img, env, m), n - 1)
  }

  ghost predicate Reaches(img: seq<Insn>, env: Env, m: Vm, t: Vm)
  {
    exists n: nat :: Iter(img, env, m, n) == t
  }

  lemma {:induction false} IterAdd(img: seq<Insn>, env: Env, m: Vm, a: nat, b: nat)
    ensures Iter(img, env, m, a + b) == Iter(img, env, Iter(img, env, m, a), b)
    decreases a
  {
    hide Step;
    if a > 0 {
      IterAdd(img, env, Step(img, env, m), a - 1, b);
    }
  }

  lemma ReachesRefl(img: seq<Insn>, env: Env, m: Vm)
    ensures Reaches(img, env, m, m)
  {
    assert Iter(img, env, m, 0) == m;
  }

  lemma ReachesStep(img: seq<Insn>, env: Env, m: Vm, t: Vm)
    requires Reaches(img, env, Step(img, env, m), t)
    ensures Reaches(img, env, m, t)
  {
    hide Step;
    var n: nat :| Iter(img, env, Step(img, env, m), n) == t;
    assert Iter(img, env, m, n + 1) == t;
  }

  lemma ReachesTrans(img: seq<Insn>, env: Env, m: Vm, t: Vm, u: Vm)
    requires Reaches(img, env, m, t) && Reaches(img, env, t, u)
    ensures Reaches(img, env, m, u)
  {
    hide Step, Iter;
    var a: nat :| Iter(img, env, m, a) == t;
    var b: nat :| Iter(img, env, t, b) == u;
    IterAdd(img, env, m, a, b);
  }

  /** A run ends in at most one way. */
  lemma ReachesUnique(img: seq<Insn>, env: Env, m: Vm, t: Vm, u: Vm)
    requires Reaches(img, env, m, t) && Reaches(img, env, m, u) && !t.Running? && !u.Running?
    ensures t == u
  {
    hide Step, Iter;
    var a: nat :| Iter(img, env, m, a) == t;
    var b: nat :| Iter(img, env, m, b) == u;
    if a <= b {
      IterAdd(img, env, m, a, b - a);
      Stays(img, env, t, b - a);
    } else {
      IterAdd(img, env, m, b, a - b);
      Stays(img, env, u, a - b);
    }
  }

  lemma {:induction false} Stays(img: seq<Insn>, env: Env, m: Vm, n: nat)
    requires !m.Running?
    ensures Iter(img, env, m, n) == m
  {
    if n > 0 {
      Stays(img, env, m, n - 1);
    }
  }
}
