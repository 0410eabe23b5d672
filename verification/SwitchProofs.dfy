/** The switch generator: the emitted code runs exactly one of the given bodies. */
module SwitchProofs {
  import opened Bytes
  import opened Bpf
  import opened Model
  import opened Machine
  import opened Fragment
  import opened Codegen

  predicate AllPlain(insns: seq<Insn>)
  {
    forall i :: i in insns ==> IsPlain(i)
  }

  /** Effect of a straight-line body. */
  function Block(insns: seq<Insn>, env: Env, st: State): (r: Option<State>)
    requires AllPlain(insns)
    decreases |insns|
  {
    if insns == [] then Some(st)
    else match Do(insns[0], env, st) case None => None case Some(s) => Block(insns[1..], env, s)
  }

  function Left(r: Option<State>, k: nat): (o: Out)
  {
    match r case Some(s) => Off(k, s) case None => Stuck
  }

  lemma {:induction false} BlockExec(insns: seq<Insn>, env: Env, st: State)
    requires AllPlain(insns)
    ensures Exec(Untagged(insns), 0, env, st) == Left(Block(insns, env, st), 0)
    decreases |insns|
  {
    if insns != [] {
      var t, rest := [T(insns[0])], Untagged(insns[1..]);
      ExecOne(t[0], env, st);
      ExecAppend(t, rest, 0, env, st);
      match Do(insns[0], env, st)
      case None =>
      case Some(s) => BlockExec(insns[1..], env, s);
    }
  }

  /** Index of the first case for `x`. */
  function Pick(cases: seq<Case>, x: u64): (r: Option<nat>)
    ensures r.Some? ==> r.value < |cases| && Sext64(ToI32(cases[r.value].imm)) == x
    ensures r.Some? ==> forall i :: 0 <= i < r.value ==> Sext64(ToI32(cases[i].imm)) != x
    ensures r.None? ==> forall i :: 0 <= i < |cases| ==> Sext64(ToI32(cases[i].imm)) != x
  {
    if cases == [] then None
    else if Sext64(ToI32(cases[0].imm)) == x then Some(0)
    else match Pick(cases[1..], x) case None => None case Some(j) => Some(j + 1)
  }

  /** Slots before body `j`. */
  function Before(cases: seq<Case>, j: nat): (n: nat)
    requires j < |cases|
    ensures n < BodiesLen(cases)
  {
    if j == 0 then 0 else |cases[0].body| + 1 + Before(cases[1..], j - 1)
  }

  predicate CasesPlain(cases: seq<Case>)
  {
    forall c :: c in cases ==> AllPlain(c.body)
  }

  lemma {:induction false} JumpsExec(reg: Reg, cases: seq<Case>, after: nat, env: Env, st: State, x: u64)
    requires st.regs[reg] == Num(x) && |cases| + after + BodiesLen(cases) < 0x8000
    ensures Exec(CaseJumps(reg, cases, after), 0, env, st) ==
            match Pick(cases, x) case None => Off(0, st) case Some(j) => Off(after + Before(cases, j), st)
    decreases |cases|
  {
    hide Do, LoadMem, StoreMem;
    if cases != [] {
      var rest := CaseJumps(reg, cases[1..], after + |cases[0].body| + 1);
      var t := T(JmpImm(Jeq, reg, ToI32(cases[0].imm), ToI16(|cases| - 1 + after)));
      ExecOne(t, env, st);
      ExecAppend([t], rest, 0, env, st);
      if Sext64(ToI32(cases[0].imm)) == x {
        assert Exec(rest, |cases| - 1 + after, env, st) == Off(after, st);
      } else {
        JumpsExec(reg, cases[1..], after + |cases[0].body| + 1, env, st, x);
      }
    }
  }

  lemma {:induction false} BodiesExec(cases: seq<Case>, dl: nat, j: nat, env: Env, st: State)
    requires CasesPlain(cases) && j < |cases| && BodiesLen(cases) + dl < 0x8000
    ensures Exec(CaseBodies(cases, dl), Before(cases, j), env, st) == Left(Block(cases[j].body, env, st), dl)
    decreases |cases|
  {
    hide Do, Block, Exec, Untagged;
    var body, rest := Untagged(cases[0].body), CaseBodies(cases[1..], dl);
    var ja := T(Ja(ToI16(BodiesLen(cases[1..]) + dl)));
    Assoc(body, [ja], rest);
    if j == 0 {
      BlockExec(cases[0].body, env, st);
      ExecAppend(body, [ja] + rest, 0, env, st);
      match Block(cases[0].body, env, st)
      case None =>
      case Some(s) =>
        ExecOne(ja, env, s);
        ExecAppend([ja], rest, 0, env, s);
        Past(rest, dl, env, s);
    } else {
      ExecShift(body + [ja], rest, Before(cases, j), env, st);
      BodiesExec(cases[1..], dl, j - 1, env, st);
    }
  }

  lemma Past(c: Code, k: nat, env: Env, st: State)
    ensures Exec(c, |c| + k, env, st) == Off(k, st)
  {
  }

  /** The body a switch runs. Without a default, an unlisted value runs the first body. */
  function Chosen(cases: seq<Case>, default: Option<seq<Insn>>, x: u64): (r: seq<Insn>)
  {
    match Pick(cases, x)
    case Some(j) => cases[j].body
    case None =>
      match default case Some(d) => d case None => if cases == [] then [] else cases[0].body
  }

  predicate SwitchOk(cases: seq<Case>, default: Option<seq<Insn>>)
  {
    CasesPlain(cases) && (default.Some? ==> AllPlain(default.value))
    && |cases| + 1 + BodiesLen(cases) + (if default.Some? then |default.value| else 0) < 0x8000
  }

  /** Running the emitted code is running the chosen body, and ends right after the switch. */
  lemma SwitchExec(reg: Reg, cases: seq<Case>, default: Option<seq<Insn>>, env: Env, st: State, x: u64)
    requires SwitchOk(cases, default) && st.regs[reg] == Num(x)
    ensures AllPlain(Chosen(cases, default, x))
    ensures Exec(SwitchCode(reg, cases, default), 0, env, st) == Left(Block(Chosen(cases, default, x), env, st), 0)
  {
    hide Do, Block, Exec;
    if default.Some? {
      DefaultExec(reg, cases, default.value, env, st, x);
    } else {
      var js, bs := CaseJumps(reg, cases, 0), CaseBodies(cases, 0);
      JumpsExec(reg, cases, 0, env, st, x);
      ExecAppend(js, bs, 0, env, st);
      if cases == [] {
        Past(bs, 0, env, st);
        BlockEmpty(env, st);
      } else {
        BodiesExec(cases, 0, if Pick(cases, x).Some? then Pick(cases, x).value else 0, env, st);
      }
    }
  }

  lemma BlockEmpty(env: Env, st: State)
    ensures Block([], env, st) == Some(st)
  {
  }

  lemma DefaultExec(reg: Reg, cases: seq<Case>, d: seq<Insn>, env: Env, st: State, x: u64)
    requires SwitchOk(cases, Some(d)) && st.regs[reg] == Num(x)
    ensures AllPlain(Chosen(cases, Some(d), x))
    ensures Exec(SwitchCode(reg, cases, Some(d)), 0, env, st) == Left(Block(Chosen(cases, Some(d), x), env, st), 0)
  {
    hide Do, Block, Exec, Untagged, CaseJumps, CaseBodies;
    var js, bs, ds := CaseJumps(reg, cases, 1), CaseBodies(cases, |d|), Untagged(d);
    var ja := T(Ja(ToI16(BodiesLen(cases))));
    var tail := [ja] + (bs + ds);
    Assoc(js, [ja], bs);
    Assoc(js, [ja] + bs, ds);
    Assoc([ja], bs, ds);
    JumpsExec(reg, cases, 1, env, st, x);
    ExecAppend(js, tail, 0, env, st);
    match Pick(cases, x)
    case None =>
      ExecOne(ja, env, st);
      ExecAppend([ja], bs + ds, 0, env, st);
      ExecShift(bs, ds, |bs|, env, st);
      BlockExec(d, env, st);
    case Some(j) =>
      ExecShift([ja], bs + ds, 1 + Before(cases, j), env, st);
      ExecAppend(bs, ds, Before(cases, j), env, st);
      BodiesExec(cases, |d|, j, env, st);
      match Block(cases[j].body, env, st)
      case None =>
      case Some(s) => Past(ds, 0, env, s);
  }

  /** What the documentation promises: nothing runs if there is no default and no case applies. */
  function DocumentedCase(cases: seq<Case>, default: Option<seq<Insn>>, x: u64): (r: seq<Insn>)
  {
    match Pick(cases, x)
    case Some(j) => cases[j].body
    case None => match default case Some(d) => d case None => []
  }

  /** The emitted code does what is documented for every value exactly if there is a default, or nothing to fall into. */
  lemma SwitchDocumentedIff(cases: seq<Case>, default: Option<seq<Insn>>)
    ensures (forall x: u64 :: Chosen(cases, default, x) == DocumentedCase(cases, default, x))
            <==> default.Some? || cases == [] || cases[0].body == []
  {
    if default.None? && cases != [] && cases[0].body != [] {
      var x := Unlisted(cases);
      assert Chosen(cases, default, x) != DocumentedCase(cases, default, x);
    }
  }

  lemma Unlisted(cases: seq<Case>) returns (x: u64)
    ensures Pick(cases, x).None?
  {
    // Immediates are 32-bit and sign-extended, so no case can be listed for 2^32.
    x := 0x1_0000_0000;
  }

  // ----- small switches -----

  lemma Pick2(a: Case, b: Case, x: u64)
    ensures Pick([a, b], x) ==
            if Sext64(ToI32(a.imm)) == x then Some(0) else if Sext64(ToI32(b.imm)) == x then Some(1) else None
  {
    assert [a, b][1..] == [b];
  }

  lemma Block1(i: Insn, env: Env, st: State)
    requires IsPlain(i)
    ensures AllPlain([i]) && Block([i], env, st) == Do(i, env, st)
  {
    hide Do;
    var c := [i];
    assert c[1..] == [];
    match Do(i, env, st)
    case None =>
    case Some(s) => BlockEmpty(env, s);
  }
}
