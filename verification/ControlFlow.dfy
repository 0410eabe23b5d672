/** Control-flow safety of generated images, on every path. */
module ControlFlow {
  import opened Bpf
  import opened Model
  import opened Machine
  import opened Fragment
  import opened Codegen
  import opened Shape
  import opened Vm
  import opened Linker
  import opened Compiler

  /** A slot control may move to: inside the image and not the second half of a wide load. */
  predicate Landing(img: seq<Insn>, i: int)
  {
    0 <= i < |img| && !img[i].LdHi?
  }

  /** Wherever slot `i` can send control, it is a forward landing; calls go to `fn`. */
  predicate SafeSlot(img: seq<Insn>, fn: nat, i: nat)
    requires i < |img|
  {
    var insn := img[i];
    && (IsJump(insn) ==> insn.off >= 0 && Landing(img, i + 1 + insn.off))
    && (insn.CallRel? ==> i < fn && i + 1 + insn.imm == fn && Landing(img, fn))
    && (insn.LdMapFd? ==> i + 1 < |img| && img[i + 1].LdHi? && Landing(img, i + 2))
    && (!insn.Exit? && !insn.Ja? && !insn.LdMapFd? && !insn.LdHi? ==> Landing(img, i + 1))
  }

  predicate Safe(img: seq<Insn>, fn: nat)
  {
    forall i :: 0 <= i < |img| ==> SafeSlot(img, fn, i)
  }

  /** Closed code whose last slot leaves the program, and whose jumps stop before the end. */
  predicate Sealed(code: Code)
  {
    && Closed(code) && Linked(code) && code != [] && code[|code| - 1].insn.Exit?
    && forall i :: 0 <= i < |code| && IsJump(code[i].insn) ==> i + 1 + code[i].insn.off < |code|
  }

  lemma SealedAppend(a: Code, b: Code)
    requires Closed(a) && Linked(a) && Closed(b) && Linked(b) && Flat(b) && b != [] && b[|b| - 1].insn.Exit?
    ensures Sealed(a + b)
  {
    ClosedAppend(a, b);
    var c := a + b;
    forall i | 0 <= i < |c| && IsJump(c[i].insn) ensures i + 1 + c[i].insn.off < |c| {
      if i < |a| {
        assert SlotOk(a, i, 0);
        assert a[i] in a;
      }
    }
  }

  lemma BodySealed(chain: Chain, btf: Btf)
    requires Compiles(chain, btf)
    ensures Sealed(BodyCode(chain, btf).value)
  {
    hide Prologue, StartCode, RulesCode, CountCode, ReturnCode, Within, Linked, Flat, SubCode, RulesOk;
    var h, n := chain.hook, |chain.rules|;
    var p, r := StartCode() + Prologue(h, btf, n + 1), RulesCode(h, chain.rules, chain.sets).value;
    var c, t := CountCode(n), ReturnCode(h, chain.policy);
    PrologueClosed(h, btf, n + 1);
    PrologueLocal(h, btf, n + 1);
    RulesClosed(h, chain.rules, chain.sets);
    ClosedAppend(p, r);
    LinkedAppend(p, r);
    TailShape(h, n, chain.policy);
    SealedAppend(p + r, c + t);
    Assoc(p + r, c, t);
  }

  lemma LinkedAppend(a: Code, b: Code)
    requires Linked(a) && Linked(b)
    ensures Linked(a + b)
  {
  }

  lemma TailShape(h: Hook, n: nat, v: Verdict)
    requires Terminal(v)
    ensures var t := CountCode(n) + ReturnCode(h, v);
            Closed(t) && Linked(t) && Flat(t) && t != [] && t[|t| - 1].insn.Exit?
  {
    hide ToI32;
    FlatClosed(CountCode(n) + ReturnCode(h, v));
  }

  lemma SubSealed()
    ensures Sealed(SubCode())
  {
    hide SubArgsCode, SubAddCode, Within, Linked;
    var a, b, z := SubArgsCode(), [T(CallHelper(MapLookupElem)), T(JmpImm(Jne, 0, 0, 2)), T(Mov32Imm(0, 1)), T(Exit)], SubAddCode();
    SubShape();
    SubJumps();
    var c := SubCode();
    forall i | 0 <= i < |c| ensures IsJump(c[i].insn) ==> i + 1 + c[i].insn.off < |c| {
      if i < 6 {
        assert c[i] == a[i];
      } else if i < 10 {
        assert c[i] == b[i - 6];
      } else {
        assert c[i] == z[i - 10];
      }
    }
    assert c[18] == z[8];
  }

  lemma SubJumps()
    ensures forall i :: 0 <= i < 6 ==> !IsJump(SubArgsCode()[i].insn)
    ensures forall i :: 0 <= i < 9 ==> !IsJump(SubAddCode()[i].insn)
    ensures SubAddCode()[8].insn.Exit?
  {
  }

  /** A sealed fragment is safe wherever it is placed. */
  lemma SealedSlot(img: seq<Insn>, env: Env, code: Code, base: nat, fn: nat, i: nat)
    requires Sealed(code) && Placed(img, code, base, fn, env) && i < |code| && Landing(img, fn)
    requires code[i].insn.CallRel? ==> base + i < fn < 0x8000_0000
    ensures SafeSlot(img, fn, base + i)
  {
    assert SlotOk(code, i, 0);
    assert code[i] in code;
    assert img[base + i] == Patched(code[i], base + i, fn, env);
    if i + 1 < |code| {
      assert SlotOk(code, i + 1, 0);
      assert img[base + (i + 1)] == Patched(code[i + 1], base + (i + 1), fn, env);
    }
    if i + 2 < |code| {
      assert SlotOk(code, i + 2, 0);
      assert img[base + (i + 2)] == Patched(code[i + 2], base + (i + 2), fn, env);
    }
    if IsJump(code[i].insn) {
      var t := i + 1 + code[i].insn.off;
      assert SlotOk(code, t, 0);
      assert img[base + t] == Patched(code[t], base + t, fn, env);
    }
    if code[i].insn.CallRel? {
      CallOff(fn - (base + i) - 1);
    }
  }

  /**
   * In every generated image each jump and call goes forward, lands inside the image and never on
   * the second slot of a wide load, every call goes to the subroutine, and no path runs off the end.
   */
  lemma ImageSafe(chain: Chain, env: Env)
    requires Compiles(chain, env.btf)
    ensures Safe(ChainImage(chain, env), |BodyCode(chain, env.btf).value|)
  {
    hide BodyCode, SubCode, Sealed, Placed, Patched, SafeSlot, CallFree;
    var body := BodyCode(chain, env.btf).value;
    var img, fn := ChainImage(chain, env), |body|;
    BodySealed(chain, env.btf);
    SubSealed();
    SubShape();
    ImagePlaced(body, env);
    SubStart(img, env, fn);
    forall i | 0 <= i < |img| ensures SafeSlot(img, fn, i) {
      if i < fn {
        SealedSlot(img, env, body, 0, fn, i);
      } else {
        NoCall(SubCode(), i - fn);
        SealedSlot(img, env, SubCode(), fn, fn, i - fn);
      }
    }
  }

  lemma NoCall(code: Code, i: nat)
    requires CallFree(code) && i < |code|
    ensures !code[i].insn.CallRel?
  {
  }

  lemma SubStart(img: seq<Insn>, env: Env, fn: nat)
    requires Placed(img, SubCode(), fn, fn, env)
    ensures Landing(img, fn)
  {
    var c := SubCode();
    assert c[0] == T(Stx(W, 10, 1, SCRATCH));
    assert img[fn + 0] == Patched(c[0], fn + 0, fn, env);
  }

  // ----- termination -----

  /** Slots left in the frame control will return to, or in the current one if there is none. */
  function Outer(img: seq<Insn>, m: Vm): (n: int)
    requires m.Running?
  {
    match m.caller case None => |img| - m.pc case Some(c) => |img| - c.ret
  }

  /** Slots left in a called function. */
  function Inner(img: seq<Insn>, m: Vm): (n: int)
    requires m.Running?
  {
    if m.caller.None? then 0 else |img| - m.pc
  }

  /** Control is on an instruction of the image, and so is the place a call will return to. */
  predicate InPlace(img: seq<Insn>, m: Vm)
  {
    m.Running? ==> Landing(img, m.pc) && (m.caller.Some? ==> Landing(img, m.caller.value.ret))
  }

  /**
   * Every step of a run moves forward in its frame and stays on instructions of the image, whatever
   * the packet and the registers hold.
   */
  lemma StepForward(img: seq<Insn>, fn: nat, env: Env, m: Vm)
    requires Safe(img, fn) && m.Running? && InPlace(img, m)
    ensures var t := Step(img, env, m);
            InPlace(img, t) &&
            (t.Running? ==>
              Outer(img, t) < Outer(img, m) || (Outer(img, t) == Outer(img, m) && Inner(img, t) < Inner(img, m)))
  {
    hide Do;
    assert SafeSlot(img, fn, m.pc);
  }

  /** No run goes off the end of a safe image, or into the middle of a wide load. */
  lemma {:induction false} RunInPlace(img: seq<Insn>, fn: nat, env: Env, m: Vm, n: nat)
    requires Safe(img, fn) && InPlace(img, m)
    ensures InPlace(img, Iter(img, env, m, n))
    decreases n
  {
    hide Step, Safe, InPlace;
    if n > 0 {
      if m.Running? {
        StepForward(img, fn, env, m);
      } else {
        StepStopped(img, env, m);
      }
      RunInPlace(img, fn, env, Step(img, env, m), n - 1);
    }
  }

  lemma StepStopped(img: seq<Insn>, env: Env, m: Vm)
    requires !m.Running?
    ensures Step(img, env, m) == m
  {
  }

  /** Every run of a safe image ends. */
  lemma {:induction false} RunEnds(img: seq<Insn>, fn: nat, env: Env, m: Vm)
    requires Safe(img, fn) && InPlace(img, m)
    ensures exists t :: Reaches(img, env, m, t) && !t.Running?
    decreases if m.Running? then Outer(img, m) else 0, if m.Running? then Inner(img, m) else 0
  {
    hide Step, Iter, Reaches, Safe;
    if !m.Running? {
      ReachesRefl(img, env, m);
    } else {
      var s := Step(img, env, m);
      StepForward(img, fn, env, m);
      RunEnds(img, fn, env, s);
      var t :| Reaches(img, env, s, t) && !t.Running?;
      ReachesStep(img, env, m, t);
    }
  }

  /**
   * Whatever the packet, the counters and the maps: a run of a generated image is on one of its
   * instructions after any number of steps, and ends.
   */
  lemma ImageRuns(chain: Chain, env: Env, counters: seq<Counter>)
    requires Compiles(chain, env.btf)
    ensures forall n: nat :: InPlace(ChainImage(chain, env), Iter(ChainImage(chain, env), env, Start(counters), n))
    ensures exists t :: Reaches(ChainImage(chain, env), env, Start(counters), t) && !t.Running?
  {
    hide BodyCode, SubCode, Safe, Iter, Reaches, FreshFrame;
    var img, fn := ChainImage(chain, env), |BodyCode(chain, env.btf).value|;
    ImageSafe(chain, env);
    ImageStart(chain, env);
    forall n: nat ensures InPlace(img, Iter(img, env, Start(counters), n)) {
      RunInPlace(img, fn, env, Start(counters), n);
    }
    RunEnds(img, fn, env, Start(counters));
  }

  lemma ImageStart(chain: Chain, env: Env)
    requires Compiles(chain, env.btf)
    ensures Landing(ChainImage(chain, env), 0)
  {
    hide RulesCode, Prologue, SubCode, CountCode, ReturnCode;
    var body := BodyCode(chain, env.btf).value;
    assert (body + SubCode())[0] == StartCode()[0];
  }
}
