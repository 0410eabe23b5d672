/** The switch generator: comparisons first, then the bodies, with two rounds of back-patching. */
module Swich {
  import opened Bytes
  import opened Bpf
  import opened Model
  import opened Fragment
  import opened Codegen
  import opened SwitchProofs
  import opened Emitter

  /** An option of a switch; `jmp` is the slot of its pending jump. */
  datatype SwichOption = SwichOption(imm: u32, insns: seq<Insn>, jmp: nat)

  function Cases(options: seq<SwichOption>): (r: seq<Case>)
    ensures |r| == |options|
    ensures forall i :: 0 <= i < |r| ==> r[i] == Case(options[i].imm, options[i].insns)
  {
    if options == [] then [] else [Case(options[0].imm, options[0].insns)] + Cases(options[1..])
  }

  /** Where the pending jump of an option is does not change its case. */
  lemma CasesPut(options: seq<SwichOption>, i: nat, jmp: nat)
    requires i < |options|
    ensures Cases(options[i := options[i].(jmp := jmp)]) == Cases(options)
  {
  }

  lemma CasesAdd(options: seq<SwichOption>, o: SwichOption)
    ensures Cases(options + [o]) == Cases(options) + [Case(o.imm, o.insns)]
  {
  }

  lemma {:induction false} PickSnoc(cases: seq<Case>, c: Case, x: u64)
    ensures Pick(cases + [c], x) == if Pick(cases, x).Some? then Pick(cases, x)
                                    else if x == Sext64(ToI32(c.imm)) then Some(|cases|) else None
  {
    if cases == [] {
      assert cases + [c] == [c] && [c][1..] == [];
    } else {
      assert (cases + [c])[1..] == cases[1..] + [c];
      PickSnoc(cases[1..], c, x);
    }
  }

  // ----- partly patched switches -----

  /** The comparisons, the first `k` of them patched. */
  function JumpsTo(reg: Reg, cases: seq<Case>, k: nat, after: nat): (c: Code)
    ensures |c| == |cases|
  {
    if cases == [] then []
    else [T(JmpImm(Jeq, reg, ToI32(cases[0].imm), if k > 0 then ToI16(|cases| - 1 + after) else 0))]
         + JumpsTo(reg, cases[1..], if k > 0 then k - 1 else 0, after + |cases[0].body| + 1)
  }

  /** The bodies, the jumps at the end of the first `k` patched. */
  function BodiesTo(cases: seq<Case>, k: nat, defaultLen: nat): (c: Code)
    ensures |c| == BodiesLen(cases)
  {
    if cases == [] then []
    else Untagged(cases[0].body) + [T(Ja(if k > 0 then ToI16(BodiesLen(cases[1..]) + defaultLen) else 0))]
         + BodiesTo(cases[1..], if k > 0 then k - 1 else 0, defaultLen)
  }

  lemma {:induction false} BodiesLenAppend(a: seq<Case>, b: seq<Case>)
    ensures BodiesLen(a + b) == BodiesLen(a) + BodiesLen(b)
  {
    if a == [] {
      assert a + b == b;
    } else {
      assert (a + b)[1..] == a[1..] + b;
      BodiesLenAppend(a[1..], b);
    }
  }

  lemma {:induction false} JumpsSnoc(reg: Reg, a: seq<Case>, x: Case, after: nat)
    ensures JumpsTo(reg, a + [x], 0, after) == JumpsTo(reg, a, 0, after) + [T(JmpImm(Jeq, reg, ToI32(x.imm), 0))]
  {
    if a == [] {
      assert a + [x] == [x];
      assert JumpsTo(reg, [x][1..], 0, after + |x.body| + 1) == [];
    } else {
      assert (a + [x])[1..] == a[1..] + [x];
      JumpsSnoc(reg, a[1..], x, after + |a[0].body| + 1);
    }
  }

  /** The end of the scope of comparison `k`, when the first `k` bodies have been emitted. */
  lemma {:induction false} JumpsPatch(reg: Reg, cases: seq<Case>, k: nat, after: nat)
    requires k < |cases|
    ensures var c := JumpsTo(reg, cases, k, after);
            c[k].tag == Done && IsJump(c[k].insn)
            && JumpsTo(reg, cases, k + 1, after)
               == c[k := T(SetOff(c[k].insn, |cases| - 1 - k + after + BodiesLen(cases[..k])))]
    decreases |cases|
  {
    hide ToI16, ToI32;
    if k > 0 {
      var next := after + |cases[0].body| + 1;
      JumpsPatch(reg, cases[1..], k - 1, next);
      assert cases[..k][1..] == cases[1..][..k - 1];
      var p := [T(JmpImm(Jeq, reg, ToI32(cases[0].imm), ToI16(|cases| - 1 + after)))];
      var c, d := JumpsTo(reg, cases[1..], k - 1, next), JumpsTo(reg, cases[1..], k, next);
      assert JumpsTo(reg, cases, k, after) == p + c && JumpsTo(reg, cases, k + 1, after) == p + d;
    } else {
      assert cases[..0] == [];
    }
  }

  lemma {:induction false} JumpsAll(reg: Reg, cases: seq<Case>, k: nat, after: nat)
    requires k >= |cases|
    ensures JumpsTo(reg, cases, k, after) == CaseJumps(reg, cases, after)
    decreases |cases|
  {
    if cases != [] {
      JumpsAll(reg, cases[1..], k - 1, after + |cases[0].body| + 1);
    }
  }

  lemma {:induction false} BodiesSnoc(a: seq<Case>, x: Case, dl: nat)
    ensures BodiesTo(a + [x], 0, dl) == BodiesTo(a, 0, dl) + Untagged(x.body) + [T(Ja(0))]
  {
    hide Untagged, ToI16;
    if a == [] {
      assert a + [x] == [x];
      assert BodiesTo([x][1..], 0, dl) == [];
    } else {
      assert (a + [x])[1..] == a[1..] + [x] && (a + [x])[0] == a[0];
      BodiesSnoc(a[1..], x, dl);
      var p, b := Untagged(a[0].body) + [T(Ja(0))], BodiesTo(a[1..], 0, dl);
      assert BodiesTo(a, 0, dl) == p + b;
      Assoc(p, b, Untagged(x.body));
      Assoc(p, b + Untagged(x.body), [T(Ja(0))]);
    }
  }

  lemma PutLater(a: Code, b: Code, k: nat, t: Tagged)
    requires k < |b|
    ensures (a + b)[|a| + k] == b[k] && (a + b)[|a| + k := t] == a + b[k := t]
  {
  }

  lemma PutMid(a: Code, b: Code, c: Code, k: nat, t: Tagged)
    requires k < |b|
    ensures (a + b + c)[|a| + k := t] == a + b[k := t] + c
  {
  }

  lemma BodiesStep(cases: seq<Case>, k: nat, dl: nat)
    requires cases != []
    ensures BodiesTo(cases, k, dl) ==
            Untagged(cases[0].body) + [T(Ja(if k > 0 then ToI16(BodiesLen(cases[1..]) + dl) else 0))]
            + BodiesTo(cases[1..], if k > 0 then k - 1 else 0, dl)
  {
  }

  /** The end of the switch, for the jump that ends body `k`. */
  lemma {:induction false} BodiesPatch(cases: seq<Case>, k: nat, dl: nat)
    requires k < |cases|
    ensures var c := BodiesTo(cases, k, dl);
            var e := BodiesLen(cases[..k]) + |cases[k].body|;
            e < |c| && c[e] == T(Ja(0))
            && BodiesTo(cases, k + 1, dl) == c[e := T(SetOff(c[e].insn, BodiesLen(cases) + dl - e - 1))]
    decreases |cases|
  {
    hide Untagged, ToI16, BodiesTo;
    var b := Untagged(cases[0].body);
    BodiesStep(cases, k, dl);
    BodiesStep(cases, k + 1, dl);
    if k > 0 {
      BodiesPatch(cases[1..], k - 1, dl);
      assert cases[..k][1..] == cases[1..][..k - 1];
      var p := b + [T(Ja(ToI16(BodiesLen(cases[1..]) + dl)))];
      var c, d := BodiesTo(cases[1..], k - 1, dl), BodiesTo(cases[1..], k, dl);
      var e := BodiesLen(cases[1..][..k - 1]) + |cases[1..][k - 1].body|;
      PutLater(p, c, e, d[e]);
    } else {
      assert cases[..0] == [];
      var t, r := BodiesLen(cases[1..]) + dl, BodiesTo(cases[1..], 0, dl);
      PutMid(b, [T(Ja(0))], r, 0, T(Ja(ToI16(t))));
    }
  }

  lemma {:induction false} BodiesAll(cases: seq<Case>, k: nat, dl: nat)
    requires k >= |cases|
    ensures BodiesTo(cases, k, dl) == CaseBodies(cases, dl)
    decreases |cases|
  {
    if cases != [] {
      BodiesAll(cases[1..], k - 1, dl);
    }
  }

  function DefaultJump(default: Option<seq<Insn>>, off: i16): (c: Code)
  {
    if default == None then [] else [T(Ja(off))]
  }

  function DefaultBody(default: Option<seq<Insn>>): (c: Code)
  {
    if default == None then [] else Untagged(default.value)
  }

  /** Comparisons and bodies of the first `i` cases are in place; no body jumps to the end yet. */
  function Half(pre: Code, reg: Reg, cases: seq<Case>, default: Option<seq<Insn>>, i: nat): (c: Code)
    requires i <= |cases|
  {
    pre + JumpsTo(reg, cases, i, |DefaultJump(default, 0)|) + DefaultJump(default, 0)
    + BodiesTo(cases[..i], 0, |DefaultBody(default)|)
  }

  /** Everything is emitted; the first `i` bodies jump to the end. */
  function Most(pre: Code, reg: Reg, cases: seq<Case>, default: Option<seq<Insn>>, i: nat): (c: Code)
  {
    pre + CaseJumps(reg, cases, |DefaultJump(default, 0)|) + DefaultJump(default, ToI16(BodiesLen(cases)))
    + BodiesTo(cases, i, |DefaultBody(default)|) + DefaultBody(default)
  }

  lemma HalfStart(pre: Code, reg: Reg, cases: seq<Case>, default: Option<seq<Insn>>)
    ensures Half(pre, reg, cases, default, 0)
            == pre + JumpsTo(reg, cases, 0, |DefaultJump(default, 0)|) + DefaultJump(default, 0)
  {
  }

  lemma JumpsAdd(reg: Reg, cases: seq<Case>, i: nat, after: nat)
    requires i < |cases|
    ensures JumpsTo(reg, cases[..i + 1], 0, after)
            == JumpsTo(reg, cases[..i], 0, after) + [T(JmpImm(Jeq, reg, ToI32(cases[i].imm), 0))]
  {
    JumpsSnoc(reg, cases[..i], cases[i], after);
    assert cases[..i + 1] == cases[..i] + [cases[i]];
  }

  lemma HalfJump(pre: Code, reg: Reg, cases: seq<Case>, default: Option<seq<Insn>>, i: nat)
    requires i < |cases|
    ensures var c := Half(pre, reg, cases, default, i);
            var k := |pre| + i;
            k < |c| && c[k].tag == Done && IsJump(c[k].insn)
            && c[k := T(SetOff(c[k].insn, |c| - k - 1))] + Untagged(cases[i].body) + [T(Ja(0))]
               == Half(pre, reg, cases, default, i + 1)
            && |c| - |pre| == |cases| + |DefaultJump(default, 0)| + BodiesLen(cases[..i])
  {
    hide JumpsTo, BodiesTo, Untagged, SetOff, ToI16, IsJump;
    var j := JumpsTo(reg, cases, i, |DefaultJump(default, 0)|);
    var d := DefaultJump(default, 0);
    var b := BodiesTo(cases[..i], 0, |DefaultBody(default)|);
    JumpsPatch(reg, cases, i, |d|);
    assert cases[..i + 1] == cases[..i] + [cases[i]];
    BodiesSnoc(cases[..i], cases[i], |DefaultBody(default)|);
    var t := T(SetOff(j[i].insn, |cases| - 1 - i + |d| + BodiesLen(cases[..i])));
    Assoc(pre + j, d, b);
    PutMid(pre, j, d + b, i, t);
    var u, x := Untagged(cases[i].body), [T(Ja(0))];
    Assoc(pre + j[i := t], d, b);
    assert pre + j[i := t] + d + b + u + x == pre + j[i := t] + d + (b + u + x);
  }

  lemma HalfEnd(pre: Code, reg: Reg, cases: seq<Case>, default: Option<seq<Insn>>)
    ensures var c := Half(pre, reg, cases, default, |cases|);
            match default
            case None => c == Most(pre, reg, cases, default, 0)
            case Some(d) =>
              var k := |pre| + |cases|;
              k < |c| && c[k] == T(Ja(0))
              && c[k := T(SetOff(c[k].insn, |c| - k - 1))] + Untagged(d) == Most(pre, reg, cases, default, 0)
  {
    hide JumpsTo, BodiesTo, Untagged, ToI16, CaseJumps;
    var a := |DefaultJump(default, 0)|;
    assert cases[..|cases|] == cases;
    JumpsAll(reg, cases, |cases|, a);
    var j, b := CaseJumps(reg, cases, a), BodiesTo(cases, 0, |DefaultBody(default)|);
    if default.Some? {
      PutMid(pre + j, [T(Ja(0))], b, 0, T(Ja(ToI16(BodiesLen(cases)))));
    }
  }

  lemma MostStep(pre: Code, reg: Reg, cases: seq<Case>, default: Option<seq<Insn>>, i: nat)
    requires i < |cases|
    ensures var c := Most(pre, reg, cases, default, i);
            var k := |pre| + |cases| + |DefaultJump(default, 0)| + BodiesLen(cases[..i]) + |cases[i].body|;
            k < |c| && c[k] == T(Ja(0))
            && c[k := T(SetOff(c[k].insn, |c| - k - 1))] == Most(pre, reg, cases, default, i + 1)
  {
    hide BodiesTo, Untagged, SetOff, ToI16, CaseJumps;
    var p := pre + CaseJumps(reg, cases, |DefaultJump(default, 0)|) + DefaultJump(default, ToI16(BodiesLen(cases)));
    var b, d := BodiesTo(cases, i, |DefaultBody(default)|), DefaultBody(default);
    BodiesPatch(cases, i, |d|);
    var e := BodiesLen(cases[..i]) + |cases[i].body|;
    PutMid(p, b, d, e, T(SetOff(b[e].insn, BodiesLen(cases) + |d| - e - 1)));
  }

  lemma MostEnd(pre: Code, reg: Reg, cases: seq<Case>, default: Option<seq<Insn>>)
    ensures Most(pre, reg, cases, default, |cases|) == pre + SwitchCode(reg, cases, default)
  {
    hide BodiesTo, Untagged, ToI16, CaseJumps, CaseBodies;
    BodiesAll(cases, |cases|, |DefaultBody(default)|);
    var j, b := CaseJumps(reg, cases, |DefaultJump(default, 0)|), CaseBodies(cases, |DefaultBody(default)|);
    var t, d := DefaultJump(default, ToI16(BodiesLen(cases))), DefaultBody(default);
    Join4(pre, j, t, b, d);
    if default == None {
      assert j + t == j;
      assert j + b + d == j + b;
    }
  }

  lemma Join4(p: Code, a: Code, b: Code, c: Code, d: Code)
    ensures p + a + b + c + d == p + (a + b + c + d)
  {
  }

  class Swich {
    const program: Program
    const reg: Reg
    var options: seq<SwichOption>
    var default: Option<SwichOption>

    constructor (program: Program, reg: Reg)
      ensures this.program == program && this.reg == reg && options == [] && default == None
    {
      this.program, this.reg := program, reg;
      options, default := [], None;
    }

    /** A value that an earlier option lists keeps its option; otherwise the new one is for `imm`. */
    method AddOption(imm: u32, insns: seq<Insn>)
      modifies this
      ensures Cases(options) == old(Cases(options)) + [Case(imm, insns)]
      ensures default == old(default)
      ensures forall x: u64 :: Pick(Cases(options), x) ==
                if old(Pick(Cases(options), x)).Some? then old(Pick(Cases(options), x))
                else if x == Sext64(ToI32(imm)) then Some(|old(options)|) else None
    {
      forall x: u64 ensures Pick(Cases(options) + [Case(imm, insns)], x) ==
          if Pick(Cases(options), x).Some? then Pick(Cases(options), x)
          else if x == Sext64(ToI32(imm)) then Some(|options|) else None
      {
        PickSnoc(Cases(options), Case(imm, insns), x);
      }
      CasesAdd(options, SwichOption(imm, insns, 0));
      options := options + [SwichOption(imm, insns, 0)];
    }

    /** Values that no option lists run `insns`, in place of what they ran before; the others are not affected. */
    method SetDefault(insns: seq<Insn>)
      modifies this
      ensures options == old(options) && Default() == Some(insns)
      ensures forall x: u64 :: Chosen(Cases(options), Default(), x) ==
                if Pick(Cases(options), x).None? then insns else old(Chosen(Cases(options), Default(), x))
    {
      default := Some(SwichOption(0, insns, 0));
    }

    function Default(): (d: Option<seq<Insn>>)
      reads this
    {
      match default case Some(o) => Some(o.insns) case None => None
    }

    /** The comparisons, unpatched. */
    method EmitJumps(ghost after: nat)
      requires program.Valid()
      modifies this, program, program.img
      ensures Cases(options) == old(Cases(options)) && default == old(default)
      ensures program.Emitted(JumpsTo(reg, Cases(options), 0, after))
      ensures forall j :: 0 <= j < |options| ==> options[j].jmp == |old(program.code)| + j
    {
      hide Program.Valid, JumpsTo, Cases;
      ghost var cases, n := Cases(options), |program.code|;
      var i := 0;
      assert cases[..0] == [];
      assert JumpsTo(reg, [], 0, after) == [];
      while i < |options|
        invariant 0 <= i <= |options| && Cases(options) == cases && default == old(default)
        invariant program.Emitted(JumpsTo(reg, cases[..i], 0, after))
        invariant forall j :: 0 <= j < i ==> options[j].jmp == n + j
      {
        program.SizeIs();
        CasesPut(options, i, program.size);
        JumpsAdd(reg, cases, i, after);
        options := options[i := options[i].(jmp := program.size)];
        program.Emit(JmpImm(Jeq, reg, ToI32(options[i].imm), 0));
        i := i + 1;
      }
      assert cases[..i] == cases;
    }

    /** The slot of the jump that ends body `j`, in a program that had `n` slots. */
    ghost function EndSlot(n: nat, j: nat): (k: nat)
      requires j < |options|
      reads this
    {
      n + |options| + |DefaultJump(Default(), 0)| + BodiesLen(Cases(options)[..j]) + |options[j].insns|
    }

    /** One body: its comparison jumps to it, and a jump that is still to be patched ends it. */
    method EmitBody(ghost pre: Code, i: nat)
      requires i < |options|
      requires program.Valid() && program.code == Half(pre, reg, Cases(options), Default(), i)
      requires options[i].jmp == |pre| + i
      modifies this, program, program.img
      ensures program.Valid() && program.Framed() && program.code == Half(pre, reg, old(Cases(options)), Default(), i + 1)
      ensures default == old(default)
      ensures options == old(options)[i := old(options[i]).(jmp := old(EndSlot(|pre|, i)))]
    {
      hide Program.Valid, Half, BodiesLen, DefaultJump, DefaultBody, Cases, SetOff;
      HalfJump(pre, reg, Cases(options), Default(), i);
      program.SizeIs();
      program.JmpctxCleanup(options[i].jmp);
      program.EmitRun(options[i].insns);
      program.SizeIs();
      options := options[i := options[i].(jmp := program.size)];
      program.Emit(Ja(0));
    }

    /** The bodies, each the target of its comparison. */
    method EmitBodies(ghost pre: Code)
      requires program.Valid() && program.code == Half(pre, reg, Cases(options), Default(), 0)
      requires forall j :: 0 <= j < |options| ==> options[j].jmp == |pre| + j
      modifies this, program, program.img
      ensures Cases(options) == old(Cases(options)) && default == old(default)
      ensures program.Valid() && program.Framed() && program.code == Half(pre, reg, Cases(options), Default(), |options|)
      ensures forall j :: 0 <= j < |options| ==> options[j].jmp == EndSlot(|pre|, j)
    {
      hide Program.Valid, Half, BodiesLen, DefaultJump, DefaultBody, Cases, SetOff;
      ghost var cases := Cases(options);
      var i := 0;
      while i < |options|
        invariant 0 <= i <= |options| && Cases(options) == cases && default == old(default)
        invariant program.Valid() && program.Framed() && program.code == Half(pre, reg, cases, Default(), i)
        invariant forall j :: 0 <= j < i ==> options[j].jmp == EndSlot(|pre|, j)
        invariant forall j :: i <= j < |options| ==> options[j].jmp == |pre| + j
      {
        CasesPut(options, i, EndSlot(|pre|, i));
        EmitBody(pre, i);
        i := i + 1;
      }
    }

    /** Every body jumps to the end. */
    method EndBodies(ghost pre: Code)
      requires program.Valid() && program.code == Most(pre, reg, Cases(options), Default(), 0)
      requires forall j :: 0 <= j < |options| ==> options[j].jmp == EndSlot(|pre|, j)
      modifies program, program.img
      ensures program.Valid() && program.Framed() && program.code == pre + SwitchCode(reg, Cases(options), Default())
    {
      hide Program.Valid, Most, BodiesLen, DefaultJump, DefaultBody, Cases, SetOff;
      ghost var cases := Cases(options);
      var i := 0;
      while i < |options|
        invariant 0 <= i <= |options|
        invariant program.Valid() && program.Framed() && program.code == Most(pre, reg, cases, Default(), i)
      {
        MostStep(pre, reg, cases, Default(), i);
        program.SizeIs();
        program.JmpctxCleanup(options[i].jmp);
        i := i + 1;
      }
      MostEnd(pre, reg, cases, Default());
    }

    /** All the jumps: one for each case, and the one to the default. */
    method EmitAllJumps()
      requires program.Valid()
      modifies this, program, program.img
      ensures Cases(options) == old(Cases(options)) && Default() == old(Default())
      ensures program.Valid() && program.Framed() && program.code == Half(old(program.code), reg, Cases(options), Default(), 0)
      ensures forall j :: 0 <= j < |options| ==> options[j].jmp == |old(program.code)| + j
      ensures default.Some? ==> default.value.jmp == |old(program.code)| + |options|
    {
      hide Program.Valid, Half, Cases, JumpsTo;
      ghost var pre, d := program.code, Default();
      EmitJumps(|DefaultJump(d, 0)|);
      HalfStart(pre, reg, Cases(options), d);
      if default.Some? {
        program.SizeIs();
        default := Some(default.value.(jmp := program.size));
        program.Emit(Ja(0));
      }
    }

    /** The default's instructions. */
    method EmitDefault(ghost pre: Code)
      requires program.Valid() && program.code == Half(pre, reg, Cases(options), Default(), |options|)
      requires default.Some? ==> default.value.jmp == |pre| + |options|
      modifies program, program.img
      ensures program.Valid() && program.Framed() && program.code == Most(pre, reg, Cases(options), Default(), 0)
    {
      hide Program.Valid, Half, Most, Cases, SetOff;
      HalfEnd(pre, reg, Cases(options), Default());
      if default.Some? {
        program.SizeIs();
        program.JmpctxCleanup(default.value.jmp);
        program.EmitRun(default.value.insns);
      }
    }

    /** The switch: its code is appended to the program. */
    method Generate()
      requires program.Valid()
      modifies this, program, program.img
      ensures program.Emitted(SwitchCode(reg, old(Cases(options)), old(Default())))
    {
      hide Program.Valid, Half, Most, Cases, SwitchCode, EndSlot;
      ghost var pre := program.code;
      EmitAllJumps();
      EmitBodies(pre);
      EmitDefault(pre);
      EndBodies(pre);
    }
  }
}
