/** Linking calls and map descriptors, and running the linked image. */
module Linker {
  import opened Bytes
  import opened Bpf
  import opened Model
  import opened Machine
  import opened Fragment
  import opened Codegen
  import opened Simulation
  import opened Shape
  import opened Vm

  /** An instruction of slot `i` once everything is patched; the subroutine is at `fn`. */
  function Patched(t: Tagged, i: nat, fn: nat, env: Env): (r: Insn)
  {
    match t.tag
    case UpdateCounters => if t.insn.CallRel? then CallRel(ToI32(fn - i - 1)) else t.insn
    case CountersFd => if t.insn.LdMapFd? then LdMapFd(t.insn.dst, env.cmapFd) else t.insn
    case SetFd(_) => if t.insn.LdMapFd? && env.sets != [] then LdMapFd(t.insn.dst, env.sets[0].fd) else t.insn
    case _ => t.insn
  }

  function Image(code: Code, fn: nat, env: Env): (img: seq<Insn>)
    ensures |img| == |code|
    ensures forall i :: 0 <= i < |img| ==> img[i] == Patched(code[i], i, fn, env)
  {
    seq(|code|, i requires 0 <= i < |code| => Patched(code[i], i, fn, env))
  }

  /** `code` is linked at slot `base` of the image. */
  predicate Placed(img: seq<Insn>, code: Code, base: nat, fn: nat, env: Env)
  {
    base + |code| <= |img| && forall i :: 0 <= i < |code| ==> img[base + i] == Patched(code[i], base + i, fn, env)
  }

  predicate CallFree(code: Code)
  {
    forall t :: t in code ==> !t.insn.CallRel?
  }

  /** One slot: the machine does what the fragment semantics says, except for calls. */
  lemma StepSlot(img: seq<Insn>, env: Env, code: Code, base: nat, fn: nat, i: nat, st: State, caller: Option<Saved>)
    requires Placed(img, code, base, fn, env) && i < |code| && Closed(code) && Linked(code)
    requires !code[i].insn.CallRel?
    ensures match First(code[i], env, st)
            case Go(skip, s) => Step(img, env, Running(base + i, st, caller)) == Running(base + i + 1 + skip, s, caller)
            case Leave(r, s) => Step(img, env, Running(base + i, st, caller)) == Leaving(s, caller)
            case ToNext(_) => false
            case Bad => true
  {
    hide Do, Image;
    assert SlotOk(code, i, 0);
    assert code[i] in code;
    assert img[base + i] == Patched(code[i], base + i, fn, env);
    if code[i].insn.LdMapFd? {
      assert SlotOk(code, i + 1, 0);
      assert img[base + (i + 1)] == Patched(code[i + 1], base + (i + 1), fn, env);
    }
  }

  // ----- the subroutine -----

  /** Store the key and the size, and load the map. */
  lemma SubArgsExec(env: Env, st: State, i: u64, size: u64)
    requires st.depth == 1 && st.regs[10] == Ptr(Stack(1), 0) && st.regs[1] == Num(i) && st.regs[2] == Num(size)
    ensures var f := Write(Write(st.frame, SCRATCH, ByteCells(ToLE(i, 4))), SCRATCH + 8, ByteCells(ToLE(size, 8)));
            var s := With(With(st, 1, Ptr(MapFd(env.cmapFd), 0)), 2, Ptr(Stack(1), SCRATCH)).(frame := f);
            Exec(SubArgsCode(), 0, env, st) == Off(0, s)
  {
    hide Exec, Write, ToLE, ByteCells, Do;
    var c := SubArgsCode();
    var s1 := st.(frame := Write(st.frame, SCRATCH, ByteCells(ToLE(i, 4))));
    Sto(c, 0, env, st, W, 1, SCRATCH, ByteCells(ToLE(i, 4)));
    var s2 := s1.(frame := Write(s1.frame, SCRATCH + 8, ByteCells(ToLE(size, 8))));
    Sto(c, 1, env, s1, DW, 2, SCRATCH + 8, ByteCells(ToLE(size, 8)));
    var s3 := With(s2, 1, Ptr(MapFd(env.cmapFd), 0));
    LdCountersFd(c, 2, env, s2, s3);
    KeyAddress(c, 4, env, s3);
    End(c, env, With(s3, 2, Ptr(Stack(1), SCRATCH)));
  }

  /** Point r2 at the key. */
  lemma KeyAddress(c: Code, i: nat, env: Env, st: State)
    requires i + 1 < |c| && c[i].insn == Mov64Reg(2, 10) && c[i + 1].insn == Alu64Imm(Add, 2, SCRATCH)
    requires st.regs[10] == Ptr(Stack(1), 0)
    ensures Exec(c, i, env, st) == Exec(c, i + 2, env, With(st, 2, Ptr(Stack(1), SCRATCH)))
  {
    hide Exec, Do;
    var t := With(st, 2, Ptr(Stack(1), 0));
    Mov(c, i, env, st, 2, 10);
    assert t.regs[2 := Ptr(Stack(1), SCRATCH)] == With(st, 2, Ptr(Stack(1), SCRATCH)).regs;
    AluImm(c, i + 1, env, t, Add, 2, SCRATCH, Ptr(Stack(1), SCRATCH));
  }

  lemma LdCountersFd(c: Code, i: nat, env: Env, st: State, s: State)
    requires i < |c| && c[i].insn.LdMapFd? && c[i].insn.dst != 10 && c[i].tag == CountersFd
    requires s == With(st, c[i].insn.dst, Ptr(MapFd(env.cmapFd), 0))
    ensures Exec(c, i, env, st) == Exec(c, i + 2, env, s)
  {
    hide Do;
  }

  /** The key and size slots of the subroutine's frame. */
  lemma SubSlots(f: Frame, i: u64, size: u64)
    ensures var g := Write(Write(f, SCRATCH, ByteCells(ToLE(i, 4))), SCRATCH + 8, ByteCells(ToLE(size, 8)));
            Load(g, SCRATCH, 4) == Num(i % 0x1_0000_0000) && Load(g, SCRATCH + 8, 8) == Num(size)
  {
    hide Write, Load, ToLE, ByteCells, LE;
    var g1 := Write(f, SCRATCH, ByteCells(ToLE(i, 4)));
    var g := Write(g1, SCRATCH + 8, ByteCells(ToLE(size, 8)));
    WriteSame(f, SCRATCH, ByteCells(ToLE(i, 4)));
    WriteOther(g1, SCRATCH + 8, ByteCells(ToLE(size, 8)), SCRATCH, 4);
    LoadCells(g, SCRATCH, ToLE(i, 4));
    LEOfToLE4(i);
    WriteSame(g1, SCRATCH + 8, ByteCells(ToLE(size, 8)));
    LoadCells(g, SCRATCH + 8, ToLE(size, 8));
    assert Pow256(8) == TWO64;
    LEOfToLE(size, 8);
  }

  lemma LEOfToLE4(x: nat)
    ensures LE(ToLE(x, 4)) == x % 0x1_0000_0000
  {
    assert Pow256(4) == 0x1_0000_0000;
    LEOfToLE(x % 0x1_0000_0000, 4);
    ToLELow(x, 4);
  }

  lemma {:induction false} ToLELow(x: nat, k: nat)
    ensures ToLE(x, k) == ToLE(x % Pow256(k), k)
  {
    if k > 0 {
      var p := Pow256(k - 1);
      ModSplit(x, p);
      ToLELow(x / 0x100, k - 1);
    }
  }

  lemma ModSplit(x: nat, p: nat)
    requires p > 0
    ensures x % (0x100 * p) % 0x100 == x % 0x100 && x % (0x100 * p) / 0x100 == x / 0x100 % p
  {
    var q, r := x / 0x100, x % 0x100;
    var y := r + 0x100 * (q % p);
    assert q == p * (q / p) + q % p;
    assert x == y + (0x100 * p) * (q / p) by {
      assert 0x100 * (p * (q / p)) == (0x100 * p) * (q / p);
    }
    assert 0 <= y < 0x100 * p;
    ModUnique(x, 0x100 * p, q / p, y);
  }

  /** The first half of the update: the number of packets. */
  lemma AddPacketExec(env: Env, st: State, k: nat)
    requires k < |st.counters| && st.regs[0] == Ptr(CounterSlot(k), 0)
    ensures var p := (st.counters[k].packets + 1) % TWO64;
            Exec(SubAddCode(), 0, env, st) ==
            Exec(SubAddCode(), 3, env, With(st, 1, Num(p)).(counters := st.counters[k := st.counters[k].(packets := p)]))
  {
    hide Exec, Load, Write, Encode, MapLookup, MakeDynptr, Slice;
    var c := SubAddCode();
    var n := st.counters[k];
    var p := (n.packets + 1) % TWO64;
    var s1 := With(st, 1, Num(n.packets));
    Plain(c, 0, env, st, s1);
    var s2 := With(st, 1, Num(p));
    assert s1.regs[1 := Num(p)] == s2.regs;
    Plain(c, 1, env, s1, s2);
    Plain(c, 2, env, s2, s2.(counters := st.counters[k := n.(packets := p)]));
  }

  /** The second half: the number of bytes. */
  lemma AddBytesExec(env: Env, st: State, k: nat, size: u64)
    requires k < |st.counters| && st.depth == 1 && st.regs[10] == Ptr(Stack(1), 0)
    requires st.regs[0] == Ptr(CounterSlot(k), 0) && Load(st.frame, SCRATCH + 8, 8) == Num(size)
    ensures var b := (st.counters[k].bytes + size) % TWO64;
            Exec(SubAddCode(), 3, env, st) ==
            Exec(SubAddCode(), 7, env, With(With(st, 1, Num(b)), 2, Num(size)).(counters := st.counters[k := st.counters[k].(bytes := b)]))
  {
    hide Exec, Load, Write, Encode, MapLookup, MakeDynptr, Slice;
    var c := SubAddCode();
    var n := st.counters[k];
    var b := (n.bytes + size) % TWO64;
    var s1 := With(st, 1, Num(n.bytes));
    Plain(c, 3, env, st, s1);
    var s2 := With(s1, 2, Num(size));
    Plain(c, 4, env, s1, s2);
    var s3 := With(With(st, 1, Num(b)), 2, Num(size));
    assert s2.regs[1 := Num(b)] == s3.regs;
    Plain(c, 5, env, s2, s3);
    Plain(c, 6, env, s3, s3.(counters := st.counters[k := n.(bytes := b)]));
  }

  /** The counter is found: both of its fields grow. */
  lemma SubUpdateExec(env: Env, st: State, k: nat, size: u64)
    requires k < |st.counters| && st.depth == 1 && st.regs[10] == Ptr(Stack(1), 0)
    requires st.regs[0] == Ptr(CounterSlot(k), 0) && Load(st.frame, SCRATCH + 8, 8) == Num(size)
    ensures var o := Exec(SubAddCode(), 0, env, st);
            o.Return? && o.r0 == 0 && o.st.counters == Bump(st.counters, k, size) && o.st.regs[0] == Num(0)
  {
    hide Exec, Load, LoadMem, StoreMem, MapLookup, MakeDynptr, Slice;
    var c := SubAddCode();
    var n := st.counters[k];
    AddPacketExec(env, st, k);
    var p, b := (n.packets + 1) % TWO64, (n.bytes + size) % TWO64;
    var s1 := With(st, 1, Num(p)).(counters := st.counters[k := n.(packets := p)]);
    AddBytesExec(env, s1, k, size);
    var s2 := With(With(s1, 1, Num(b)), 2, Num(size)).(counters := s1.counters[k := s1.counters[k].(bytes := b)]);
    assert s2.counters == Bump(st.counters, k, size);
    var s3 := With(s2, 0, Num(0));
    Plain(c, 7, env, s2, s3);
    ExitAt(c, 8, env, s3);
  }

  lemma ExitAt(c: Code, i: nat, env: Env, st: State)
    requires i < |c| && c[i].insn == Exit && st.regs[0].Num?
    ensures Exec(c, i, env, st) == Return(st.regs[0].n, st)
  {
    hide Do;
  }

  /** The subroutine updates exactly the counter it is called for. */
  lemma SubExec(env: Env, st: State, i: u64, size: u64)
    requires st.depth == 1 && st.regs[10] == Ptr(Stack(1), 0) && st.regs[1] == Num(i) && st.regs[2] == Num(size)
    ensures var k := i % 0x1_0000_0000;
            var o := Exec(SubCode(), 0, env, st);
            o.Return? && o.r0 == (if k < |st.counters| then 0 else 1) && o.st.regs[0] == Num(o.r0)
            && o.st.counters == Bump(st.counters, k, size)
  {
    hide Exec, Write, Load, ToLE, Bump, SubArgsCode, SubAddCode;
    var a, b, z := SubArgsCode(), [T(CallHelper(MapLookupElem)), T(JmpImm(Jne, 0, 0, 2)), T(Mov32Imm(0, 1)), T(Exit)], SubAddCode();
    var c := b + z;
    var k := i % 0x1_0000_0000;
    var f := Write(Write(st.frame, SCRATCH, ByteCells(ToLE(i, 4))), SCRATCH + 8, ByteCells(ToLE(size, 8)));
    var s1 := With(With(st, 1, Ptr(MapFd(env.cmapFd), 0)), 2, Ptr(Stack(1), SCRATCH)).(frame := f);
    SubArgsExec(env, st, i, size);
    Seq(a, c, env, st, s1);
    SubSlots(st.frame, i, size);
    var found := k < |st.counters|;
    var s2 := s1.(regs := Clobber(s1.regs, if found then Ptr(CounterSlot(k), 0) else Num(0)));
    Plain(c, 0, env, s1, s2);
    Jumps(c, 1, env, s2, found);
    if found {
      ExecShift(b, z, 4, env, s2);
      SubUpdateExec(env, s2, k, size);
    } else {
      var s3 := With(s2, 0, Num(1));
      Plain(c, 2, env, s2, s3);
      ExitAt(c, 3, env, s3);
      BumpNone(st.counters, k, size);
    }
  }

  lemma BumpNone(counters: seq<Counter>, k: nat, size: u64)
    requires k >= |counters|
    ensures Bump(counters, k, size) == counters
  {
  }

  lemma SubShape()
    ensures Closed(SubCode()) && Linked(SubCode()) && CallFree(SubCode())
  {
    hide SubArgsCode, SubAddCode, Within;
    var a, b, z := SubArgsCode(), [T(CallHelper(MapLookupElem)), T(JmpImm(Jne, 0, 0, 2)), T(Mov32Imm(0, 1)), T(Exit)], SubAddCode();
    SubArgsShape();
    SubCheckShape();
    SubAddShape();
    ClosedAppend(b, z);
    ClosedAppend(a, b + z);
  }

  lemma SubArgsShape()
    ensures Closed(SubArgsCode()) && Linked(SubArgsCode()) && CallFree(SubArgsCode())
  {
    var a := SubArgsCode();
    assert SlotOk(a, 0, 0) && SlotOk(a, 1, 0) && SlotOk(a, 2, 0) && SlotOk(a, 3, 0) && SlotOk(a, 4, 0) && SlotOk(a, 5, 0);
  }

  lemma SubCheckShape()
    ensures Closed([T(CallHelper(MapLookupElem)), T(JmpImm(Jne, 0, 0, 2)), T(Mov32Imm(0, 1)), T(Exit)])
  {
    var b := [T(CallHelper(MapLookupElem)), T(JmpImm(Jne, 0, 0, 2)), T(Mov32Imm(0, 1)), T(Exit)];
    assert SlotOk(b, 0, 0) && SlotOk(b, 1, 0) && SlotOk(b, 2, 0) && SlotOk(b, 3, 0);
  }

  lemma SubAddShape()
    ensures Closed(SubAddCode()) && Linked(SubAddCode()) && CallFree(SubAddCode())
  {
    FlatClosed(SubAddCode());
  }

  // ----- whole images -----

  /** Call-free code placed in the image runs to the end of its function. */
  lemma {:induction false} ReachCallFree(img: seq<Insn>, env: Env, code: Code, base: nat, fn: nat, i: nat, st: State, caller: Option<Saved>)
    requires Placed(img, code, base, fn, env) && Closed(code) && Linked(code) && CallFree(code)
    requires Exec(code, i, env, st).Return?
    ensures Reaches(img, env, Running(base + i, st, caller), Leaving(Exec(code, i, env, st).st, caller))
    decreases |code| - i
  {
    hide Do, Step, Leaving, Iter, Reaches, Closed, Linked, Placed;
    assert i < |code|;
    assert code[i] in code;
    StepSlot(img, env, code, base, fn, i, st, caller);
    var m := First(code[i], env, st);
    if m.Go? {
      ReachCallFree(img, env, code, base, fn, i + 1 + m.skip, m.to, caller);
    } else {
      ReachesRefl(img, env, Leaving(m.to, caller));
    }
    ReachesStep(img, env, Running(base + i, st, caller), Leaving(Exec(code, i, env, st).st, caller));
  }

  /** A call of the subroutine has the effect of `CallUpdate` on its caller. */
  lemma CallReaches(img: seq<Insn>, env: Env, fn: nat, pc: nat, st: State)
    requires Placed(img, SubCode(), fn, fn, env) && pc < fn < 0x8000_0000 && pc < |img| && img[pc] == CallRel(ToI32(fn - pc - 1))
    requires st.depth == 0 && CallUpdate(st).Some?
    ensures Reaches(img, env, Running(pc, st, None), Running(pc + 1, CallUpdate(st).value, None))
  {
    hide Exec, Iter, Reaches, SubCode, Bump, ToI32, Do, FreshFrame;
    SubShape();
    var c := Callee(st);
    var saved := Saved(pc + 1, st.regs, st.frame, 0);
    SubExec(env, c, st.regs[1].n, st.regs[2].n);
    ReachCallFree(img, env, SubCode(), fn, fn, 0, c, Some(saved));
    CallOff(fn - pc - 1);
    assert Step(img, env, Running(pc, st, None)) == Running(fn, c, Some(saved));
    var s := Exec(SubCode(), 0, env, c).st;
    assert Leaving(s, Some(saved)) == Running(pc + 1, CallUpdate(st).value, None);
    ReachesStep(img, env, Running(pc, st, None), Running(pc + 1, CallUpdate(st).value, None));
  }

  lemma CallOff(x: int)
    requires 0 <= x < 0x8000_0000
    ensures ToI32(x) == x
  {
  }

  /** The machine runs the body of a program as the fragment semantics says. */
  lemma {:induction false} ReachBody(img: seq<Insn>, env: Env, body: Code, fn: nat, i: nat, st: State)
    requires Placed(img, body, 0, fn, env) && Placed(img, SubCode(), fn, fn, env) && |body| == fn < 0x8000_0000
    requires Closed(body) && Linked(body) && st.depth == 0
    requires Exec(body, i, env, st).Return?
    ensures Reaches(img, env, Running(i, st, None), Halted(Exec(body, i, env, st).r0, Exec(body, i, env, st).st.counters))
    decreases |body| - i
  {
    hide Do, Step, Iter, Reaches, Closed, Linked, Placed, SubCode, CallUpdate;
    assert i < |body|;
    var m := First(body[i], env, st);
    var t := Halted(Exec(body, i, env, st).r0, Exec(body, i, env, st).st.counters);
    if body[i].insn.CallRel? {
      CallSlot(img, env, body, fn, i);
      CallDepth(st);
      CallReaches(img, env, fn, i, st);
      ReachBody(img, env, body, fn, i + 1, m.to);
      ReachesTrans(img, env, Running(i, st, None), Running(i + 1, m.to, None), t);
    } else {
      StepSlot(img, env, body, 0, fn, i, st, None);
      if m.Go? {
        DepthKept(body[i], env, st);
        ReachBody(img, env, body, fn, i + 1 + m.skip, m.to);
      } else {
        ReachesRefl(img, env, t);
      }
      ReachesStep(img, env, Running(i, st, None), t);
    }
  }

  lemma CallDepth(st: State)
    ensures CallUpdate(st).Some? ==> CallUpdate(st).value.depth == st.depth
  {
  }

  lemma CallSlot(img: seq<Insn>, env: Env, body: Code, fn: nat, i: nat)
    requires Placed(img, body, 0, fn, env) && Closed(body) && i < |body| && body[i].insn.CallRel?
    ensures i < |img| && img[i] == CallRel(ToI32(fn - i - 1))
  {
    assert SlotOk(body, i, 0);
    assert img[0 + i] == Patched(body[i], 0 + i, fn, env);
  }

  lemma DepthKept(t: Tagged, env: Env, st: State)
    ensures First(t, env, st).Go? ==> First(t, env, st).to.depth == st.depth
  {
  }
}
