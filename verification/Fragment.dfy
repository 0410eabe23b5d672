/** Execution of code fragments whose jumps to the next rule and calls are not linked yet. */
module Fragment {
  import opened Bytes
  import opened Bpf
  import opened Model
  import opened Machine

  /** What remains to be filled in an emitted instruction, as recorded by a fixup. */
  datatype Tag = Done | NextRule | CountersFd | SetFd(index: nat) | UpdateCounters

  datatype Tagged = Tagged(insn: Insn, tag: Tag)

  type Code = seq<Tagged>

  function T(insn: Insn): Tagged { Tagged(insn, Done) }
  function N(insn: Insn): Tagged { Tagged(insn, NextRule) }

  /** How a fragment is left. */
  datatype Out =
    | Off(k: nat, st: State)      // `k` slots after the end of the fragment
    | Next(st: State)             // to the next rule
    | Return(r0: u64, st: State)  // out of the program
    | Stuck

  /** Effect of the counter update subroutine on its caller: r0 and r1-r5 lost, one counter updated. */
  function Updated(c: Counter, size: u64): (r: Counter)
  {
    Counter((c.packets + 1) % TWO64, (c.bytes + size) % TWO64)
  }

  function Bump(counters: seq<Counter>, index: nat, size: u64): (r: seq<Counter>)
    ensures |r| == |counters|
  {
    if index < |counters| then counters[index := Updated(counters[index], size)] else counters
  }

  function CallUpdate(st: State): (r: Option<State>)
  {
    match (st.regs[1], st.regs[2])
    case (Num(i), Num(size)) =>
      var key := i % 0x1_0000_0000;
      Some(st.(regs := Clobber(st.regs, Num(if key < |st.counters| then 0 else 1)),
               counters := Bump(st.counters, key, size)))
    case _ => None
  }

  function Taken(insn: Insn, st: State): (r: Option<bool>)
    requires IsJump(insn)
  {
    match insn
    case JmpImm(op, d, imm, _) => Compare(op, st.regs[d], Num(Sext64(imm)))
    case JmpReg(op, d, s, _) => Compare(op, st.regs[d], st.regs[s])
    case Ja(_) => Some(true)
  }

  /** Map file descriptor a load gets: the recorded set index is not looked at, set 0 is always used. */
  function FdOf(t: Tagged, env: Env): (r: Option<int>)
    requires t.insn.LdMapFd?
  {
    match t.tag
    case Done => Some(t.insn.imm)
    case CountersFd => Some(env.cmapFd)
    case SetFd(_) => if env.sets == [] then None else Some(env.sets[0].fd)
    case _ => None
  }

  /** Runs `code` from slot `i` on. */
  function Exec(code: Code, i: nat, env: Env, st: State): (o: Out)
    decreases |code| - i
  {
    if i >= |code| then Off(i - |code|, st)
    else Continue(code, i, env, First(code[i], env, st))
  }

  /** What one slot does, before control moves. */
  datatype Move = Go(skip: nat, to: State) | ToNext(to: State) | Leave(r0: u64, to: State) | Bad

  function First(t: Tagged, env: Env, st: State): (m: Move)
  {
    var insn := t.insn;
    if IsJump(insn) then
      match Taken(insn, st)
      case None => Bad
      case Some(false) => Go(0, st)
      case Some(true) =>
        if t.tag == NextRule then ToNext(st)
        else if t.tag == Done && insn.off >= 0 then Go(insn.off, st)
        else Bad
    else if insn.Exit? then
      if st.regs[0].Num? then Leave(st.regs[0].n, st) else Bad
    else if insn.CallRel? then
      match CallUpdate(st) case Some(s) => Go(0, s) case None => Bad
    else if insn.LdMapFd? then
      match FdOf(t, env)
      case Some(fd) => if insn.dst == 10 then Bad else Go(1, st.(regs := st.regs[insn.dst := Ptr(MapFd(fd), 0)]))
      case None => Bad
    else if insn.LdHi? then Bad
    else match Do(insn, env, st) case Some(s) => Go(0, s) case None => Bad
  }

  function Continue(code: Code, i: nat, env: Env, m: Move): (o: Out)
    requires i < |code|
    decreases |code| - i, 0
  {
    match m
    case Go(skip, s) => Exec(code, i + 1 + skip, env, s)
    case ToNext(s) => Next(s)
    case Leave(r, s) => Return(r, s)
    case Bad => Stuck
  }

  /** Continue after a fragment with the code that follows it. */
  function Then(o: Out, code: Code, env: Env): (r: Out)
  {
    match o case Off(k, st) => Exec(code, k, env, st) case _ => o
  }

  lemma Assoc(a: Code, b: Code, c: Code)
    ensures (a + b) + c == a + (b + c)
  {
  }

  /** Running two fragments in a row. */
  lemma {:induction false} ExecAppend(a: Code, b: Code, i: nat, env: Env, st: State)
    ensures Exec(a + b, i, env, st) == Then(Exec(a, i, env, st), b, env)
    decreases |a| - i
  {
    if i < |a| {
      var m := First(a[i], env, st);
      assert (a + b)[i] == a[i];
      if m.Go? {
        ExecAppend(a, b, i + 1 + m.skip, env, m.to);
      }
    } else {
      ExecShift(a, b, i, env, st);
    }
  }

  lemma {:induction false} ExecShift(a: Code, b: Code, i: nat, env: Env, st: State)
    requires i >= |a|
    ensures Exec(a + b, i, env, st) == Exec(b, i - |a|, env, st)
    decreases |a| + |b| - i
  {
    if i < |a| + |b| {
      var m := First(b[i - |a|], env, st);
      assert (a + b)[i] == b[i - |a|];
      if m.Go? {
        ExecShift(a, b, i + 1 + m.skip, env, m.to);
      }
    }
  }

  lemma ExecOne(t: Tagged, env: Env, st: State)
    ensures Exec([t], 0, env, st) ==
            match First(t, env, st)
            case Go(skip, s) => Off(skip, s)
            case ToNext(s) => Next(s)
            case Leave(r, s) => Return(r, s)
            case Bad => Stuck
  {
    var m := First(t, env, st);
    assert [t][0] == t;
    assert m.Go? ==> Exec([t], 1 + m.skip, env, m.to) == Off(m.skip, m.to);
  }
}
