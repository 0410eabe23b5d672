/** Stepping through fragments, and what rules keep while they run. */
module Simulation {
  import opened Bytes
  import opened Bpf
  import opened Model
  import opened Machine
  import opened Fragment
  import opened Codegen
  import opened Spec

  // ----- stepping -----

  lemma Plain(c: Code, i: nat, env: Env, st: State, s: State)
    requires i < |c| && IsPlain(c[i].insn) && Do(c[i].insn, env, st) == Some(s)
    ensures Exec(c, i, env, st) == Exec(c, i + 1, env, s)
  {
  }

  function With(st: State, r: Reg, v: Value): (s: State)
  {
    st.(regs := st.regs[r := v])
  }

  /** `r := r'`. */
  lemma Mov(c: Code, i: nat, env: Env, st: State, d: Reg, s: Reg)
    requires i < |c| && c[i].insn == Mov64Reg(d, s) && d != 10 && st.regs[s] != Undef
    ensures Exec(c, i, env, st) == Exec(c, i + 1, env, With(st, d, st.regs[s]))
  {
    Plain(c, i, env, st, With(st, d, st.regs[s]));
  }

  /** `r := imm`, sign-extended. */
  lemma MovImm(c: Code, i: nat, env: Env, st: State, d: Reg, imm: i32)
    requires i < |c| && c[i].insn == Mov64Imm(d, imm) && d != 10
    ensures Exec(c, i, env, st) == Exec(c, i + 1, env, With(st, d, Num(Sext64(imm))))
  {
    Plain(c, i, env, st, With(st, d, Num(Sext64(imm))));
  }

  lemma AluImm(c: Code, i: nat, env: Env, st: State, op: AluOp, d: Reg, imm: i32, v: Value)
    requires i < |c| && c[i].insn == Alu64Imm(op, d, imm) && d != 10 && v != Undef
    requires Alu64(op, st.regs[d], Num(Sext64(imm))) == v
    ensures Exec(c, i, env, st) == Exec(c, i + 1, env, With(st, d, v))
  {
    Plain(c, i, env, st, With(st, d, v));
  }

  lemma AluReg(c: Code, i: nat, env: Env, st: State, op: AluOp, d: Reg, s: Reg, v: Value)
    requires i < |c| && c[i].insn == Alu64Reg(op, d, s) && d != 10 && v != Undef
    requires Alu64(op, st.regs[d], st.regs[s]) == v
    ensures Exec(c, i, env, st) == Exec(c, i + 1, env, With(st, d, v))
  {
    Plain(c, i, env, st, With(st, d, v));
  }

  lemma Ld(c: Code, i: nat, env: Env, st: State, size: Size, d: Reg, s: Reg, off: i16, v: Value)
    requires i < |c| && c[i].insn == Ldx(size, d, s, off) && d != 10
    requires LoadMem(env, st, st.regs[s], off, size.Len()) == Some(v)
    ensures Exec(c, i, env, st) == Exec(c, i + 1, env, With(st, d, v))
  {
    hide LoadMem;
    Plain(c, i, env, st, With(st, d, v));
  }

  /** A store to the current frame. */
  lemma Sto(c: Code, i: nat, env: Env, st: State, size: Size, s: Reg, off: i16, cells: seq<Cell>)
    requires i < |c| && c[i].insn == Stx(size, 10, s, off) && st.regs[10] == Ptr(Stack(st.depth), 0)
    requires OnStack(off, size.Len()) && Encode(st.regs[s], size.Len()) == Some(cells)
    ensures Exec(c, i, env, st) == Exec(c, i + 1, env, st.(frame := Write(st.frame, off, cells)))
  {
    hide Write, Encode;
    Plain(c, i, env, st, st.(frame := Write(st.frame, off, cells)));
  }

  lemma LoadStack(env: Env, st: State, off: i16, n: nat)
    requires st.regs[10] == Ptr(Stack(st.depth), 0) && 1 <= n <= 8 && OnStack(off, n)
    ensures LoadMem(env, st, st.regs[10], off, n) == Some(Load(st.frame, off, n))
  {
  }

  lemma End(c: Code, env: Env, st: State)
    ensures Exec(c, |c|, env, st) == Off(0, st)
  {
  }

  /** A conditional jump to the next rule. */
  lemma Leaves(c: Code, i: nat, env: Env, st: State, b: bool)
    requires i < |c| && IsJump(c[i].insn) && c[i].tag == NextRule && Taken(c[i].insn, st) == Some(b)
    ensures Exec(c, i, env, st) == if b then Next(st) else Exec(c, i + 1, env, st)
  {
  }

  /** A conditional jump inside the fragment, or past its end. */
  lemma Jumps(c: Code, i: nat, env: Env, st: State, b: bool)
    requires i < |c| && IsJump(c[i].insn) && c[i].tag == Done && Taken(c[i].insn, st) == Some(b)
    requires c[i].insn.off >= 0
    ensures Exec(c, i, env, st) == Exec(c, if b then i + 1 + c[i].insn.off else i + 1, env, st)
  {
  }

  lemma Seq(a: Code, b: Code, env: Env, st: State, s: State)
    requires Exec(a, 0, env, st) == Off(0, s)
    ensures Exec(a + b, 0, env, st) == Exec(b, 0, env, s)
  {
    ExecAppend(a, b, 0, env, st);
  }

  lemma SeqOut(a: Code, b: Code, env: Env, st: State)
    requires !Exec(a, 0, env, st).Off?
    ensures Exec(a + b, 0, env, st) == Exec(a, 0, env, st)
  {
    ExecAppend(a, b, 0, env, st);
  }

  // ----- stack memory -----

  lemma CellsRoundTrip(bs: seq<byte>)
    ensures AllBytes(ByteCells(bs)) && CellBytes(ByteCells(bs)) == bs
  {
  }

  lemma LoadCells(f: Frame, off: int, bs: seq<byte>)
    requires 1 <= |bs| <= 8 && OnStack(off, |bs|)
    requires f[STACK_SIZE + off..STACK_SIZE + off + |bs|] == ByteCells(bs)
    ensures Load(f, off, |bs|) == NumOf(bs)
  {
    CellsRoundTrip(bs);
  }

  lemma LoadFragments(f: Frame, off: int, v: Value)
    requires v.Ptr? && OnStack(off, 8) && f[STACK_SIZE + off..STACK_SIZE + off + 8] == Fragments(v)
    ensures Load(f, off, 8) == v
  {
    assert Fragments(v)[0] == Frag(v, 0);
  }

  lemma WriteSame(f: Frame, off: int, c: seq<Cell>)
    requires OnStack(off, |c|)
    ensures Write(f, off, c)[STACK_SIZE + off..STACK_SIZE + off + |c|] == c
  {
  }

  lemma WriteOther(f: Frame, off: int, c: seq<Cell>, o: int, n: nat)
    requires OnStack(off, |c|) && OnStack(o, n)
    requires o + n <= off || off + |c| <= o
    ensures Write(f, off, c)[STACK_SIZE + o..STACK_SIZE + o + n] == f[STACK_SIZE + o..STACK_SIZE + o + n]
  {
    var i, j, l := STACK_SIZE + off, STACK_SIZE + o, |c|;
    var w := Write(f, off, c);
    assert forall k :: j <= k < j + n ==> w[k] == f[k];
  }

  /** Bytes below the scratch area. */
  function Kernel(f: Frame): (r: seq<Cell>)
  {
    f[..STACK_SIZE + SCRATCH]
  }

  lemma LoadKernel(f: Frame, g: Frame, off: int, n: nat)
    requires Kernel(f) == Kernel(g) && 1 <= n <= 8 && OnStack(off, n) && off + n <= SCRATCH
    ensures Load(f, off, n) == Load(g, off, n)
  {
    KernelSlice(f, g, off, n);
  }

  lemma KernelSlice(f: Frame, g: Frame, off: int, n: nat)
    requires Kernel(f) == Kernel(g) && OnStack(off, n) && off + n <= SCRATCH
    ensures f[STACK_SIZE + off..STACK_SIZE + off + n] == g[STACK_SIZE + off..STACK_SIZE + off + n]
  {
    var i := STACK_SIZE + off;
    assert f[i..i + n] == Kernel(f)[i..i + n];
    assert g[i..i + n] == Kernel(g)[i..i + n];
  }

  lemma ScratchWrite(f: Frame, off: int, c: seq<Cell>)
    requires SCRATCH <= off && OnStack(off, |c|)
    ensures Kernel(Write(f, off, c)) == Kernel(f)
  {
  }

  // ----- headers -----

  /** `p` is the address of `bytes`: in the packet, or in a buffer of the program's context. */
  predicate HdrAt(env: Env, f: Frame, p: Value, bytes: seq<byte>)
  {
    p.Ptr? &&
    match p.region
    case Packet =>
      0 <= p.off && p.off + |bytes| <= |env.packet| && env.packet[p.off..p.off + |bytes|] == bytes
    case Stack(0) =>
      L2 <= p.off && p.off + |bytes| <= SCRATCH
      && f[STACK_SIZE + p.off..STACK_SIZE + p.off + |bytes|] == ByteCells(bytes)
    case _ => false
  }

  lemma CellsSlice(bytes: seq<byte>, k: nat, n: nat)
    requires k + n <= |bytes|
    ensures ByteCells(bytes)[k..k + n] == ByteCells(bytes[k..k + n])
  {
  }

  lemma LoadHdr(env: Env, st: State, p: Value, bytes: seq<byte>, k: nat, n: nat)
    requires st.depth == 0 && HdrAt(env, st.frame, p, bytes) && 1 <= n <= 8 && k + n <= |bytes|
    ensures LoadMem(env, st, p, k, n) == Some(NumOf(bytes[k..k + n]))
  {
    if p.region == Packet {
      SubSlice(env.packet, p.off, |bytes|, k, n);
    } else {
      var i := STACK_SIZE + p.off;
      SubSlice(st.frame, i, |bytes|, k, n);
      CellsSlice(bytes, k, n);
      LoadCells(st.frame, p.off + k, bytes[k..k + n]);
    }
  }

  // ----- what rules rely on, and keep -----

  /** The machine holds view `v` of the packet as the register convention says. */
  predicate Holds(env: Env, v: View, st: State)
  {
    && ViewOk(v) && st.depth == 0 && st.regs[10] == Ptr(Stack(0), 0)
    && st.regs[7] == Num(Swap16(L3Num(v.l3))) && st.regs[8] == Num(L4Num(v.l4))
    && Load(st.frame, PKT_SIZE, 8) == Num(v.size)
    && Load(st.frame, IFINDEX, 2) == Num(v.ifindex % 0x1_0000)
    && (!v.l3.NoL3? ==> HdrAt(env, st.frame, Load(st.frame, L3_HDR, 8), v.l3.hdr))
    && (!v.l4.NoL4? ==> HdrAt(env, st.frame, Load(st.frame, L4_HDR, 8), v.l4.hdr))
  }

  /** Only r0-r6, r9 and the scratch area differ. */
  predicate Kept(s: State, t: State)
  {
    && t.depth == s.depth && t.counters == s.counters
    && t.regs[7] == s.regs[7] && t.regs[8] == s.regs[8] && t.regs[10] == s.regs[10]
    && Kernel(t.frame) == Kernel(s.frame)
  }

  lemma HoldsKept(env: Env, v: View, s: State, t: State)
    requires Holds(env, v, s) && Kernel(t.frame) == Kernel(s.frame)
    requires t.depth == s.depth && t.regs[7] == s.regs[7] && t.regs[8] == s.regs[8] && t.regs[10] == s.regs[10]
    ensures Holds(env, v, t)
  {
    LoadKernel(s.frame, t.frame, PKT_SIZE, 8);
    LoadKernel(s.frame, t.frame, IFINDEX, 2);
    LoadKernel(s.frame, t.frame, L3_HDR, 8);
    LoadKernel(s.frame, t.frame, L4_HDR, 8);
    if !v.l3.NoL3? {
      HdrKept(env, s.frame, t.frame, Load(s.frame, L3_HDR, 8), v.l3.hdr);
    }
    if !v.l4.NoL4? {
      HdrKept(env, s.frame, t.frame, Load(s.frame, L4_HDR, 8), v.l4.hdr);
    }
  }

  lemma HdrKept(env: Env, f: Frame, g: Frame, p: Value, bytes: seq<byte>)
    requires HdrAt(env, f, p, bytes) && Kernel(f) == Kernel(g)
    ensures HdrAt(env, g, p, bytes)
  {
    if p.region == Stack(0) {
      KernelSlice(f, g, p.off, |bytes|);
    }
  }

  /** `o` continues with the rule if `b` holds and leaves it otherwise, keeping what rules rely on. */
  predicate Decided(st: State, o: Out, b: bool)
  {
    match o
    case Off(k, s) => k == 0 && b && Kept(st, s)
    case Next(s) => !b && Kept(st, s)
    case _ => false
  }
}
