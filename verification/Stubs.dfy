/** The packet-parsing prologue of each hook, emitted into a program. */
module Stubs {
  import opened Bytes
  import opened Bpf
  import opened Model
  import opened Fragment
  import opened Codegen
  import opened Emitter
  import opened Swich

  /** Count the packet in the slot of `index`: a fixup records the call. */
  method EmitCount(p: Program, index: int)
    requires p.Valid()
    modifies p, p.img
    ensures p.Emitted(CountCode(index))
  {
    hide Program.Valid, ToI32;
    p.Emit(Mov32Imm(1, ToI32(index)));
    p.Emit(Ldx(DW, 2, 10, PKT_SIZE));
    p.EmitFixup(CallRel(0), UpdateCounters);
  }

  method EmitReturn(p: Program, v: Verdict)
    requires p.Valid() && Terminal(v)
    modifies p, p.img
    ensures p.Emitted(ReturnCode(p.chain.hook, v))
  {
    hide Program.Valid, VerdictCode;
    p.Emit(Mov64Imm(0, VerdictCode(p.chain.hook, v)));
    p.Emit(Exit);
  }

  /** Unless `jump` is taken, count an error and accept: the scope of the jump is the exit. */
  method EmitUnless(p: Program, jump: Insn)
    requires p.Valid() && IsJump(jump)
    modifies p, p.img
    ensures p.Emitted([T(SetOff(jump, 5))] + ErrorExit(p.chain.hook, p.numCounters - 1))
  {
    hide Program.Valid, SetOff, CountCode, ReturnCode;
    ghost var pre := p.code;
    p.SizeIs();
    var j := p.size;
    p.Emit(jump);
    EmitCount(p, p.numCounters - 1);
    EmitReturn(p, Accept);
    p.SizeIs();
    ScopePatched(pre, T(jump), ErrorExit(p.chain.hook, p.numCounters - 1), T(SetOff(jump, 5)));
    p.JmpctxCleanup(j);
  }

  /** Patching the jump that opens a scope. */
  lemma ScopePatched(pre: Code, t: Tagged, body: Code, u: Tagged)
    ensures (pre + [t] + body)[|pre|] == t && (pre + [t] + body)[|pre| := u] == pre + ([u] + body)
  {
  }

  method EmitDynptr(p: Program)
    requires p.Valid()
    modifies p, p.img
    ensures p.Emitted(DynptrStub(p.chain.hook, p.numCounters - 1))
  {
    hide Program.Valid, ErrorExit, Untagged;
    p.EmitRun([ Mov64Imm(2, 0), Mov64Reg(3, 10), Alu64Imm(Add, 3, DYNPTR),
                CallKfunc(if p.chain.hook == Xdp then DynptrFromXdp else DynptrFromSkb) ]);
    EmitUnless(p, JmpImm(Jeq, 0, 0, 0));
  }

  method EmitL2(p: Program)
    requires p.Valid()
    modifies p, p.img
    ensures p.Emitted(L2Stub(p.chain.hook, p.numCounters - 1))
  {
    hide Program.Valid, ErrorExit, Untagged;
    p.EmitRun([ Mov64Reg(1, 10), Alu64Imm(Add, 1, DYNPTR), Mov64Imm(2, 0),
                Mov64Reg(3, 10), Alu64Imm(Add, 3, L2), Mov64Imm(4, ETH_HLEN), CallKfunc(DynptrSlice) ]);
    EmitUnless(p, JmpImm(Jne, 0, 0, 0));
    p.EmitRun([Stx(DW, 10, 0, L2_HDR), Ldx(H, 7, 0, 12), St(W, 10, L3_OFFSET, ETH_HLEN)]);
  }

  method EmitSlice(p: Program, offset: i16, buf: i16, hdr: i16)
    requires p.Valid()
    modifies p, p.img
    ensures p.Emitted(SliceStub(p.chain.hook, p.numCounters - 1, offset, buf, hdr))
  {
    hide Program.Valid, ErrorExit, Untagged;
    p.EmitRun([ Mov64Reg(1, 10), Alu64Imm(Add, 1, DYNPTR), Ldx(W, 2, 10, offset),
                Mov64Reg(3, 10), Alu64Imm(Add, 3, buf), CallKfunc(DynptrSlice) ]);
    EmitUnless(p, JmpImm(Jne, 0, 0, 0));
    p.Emit(Stx(DW, 10, 0, hdr));
  }

  /** A switch with two options. */
  method EmitSwitch2(p: Program, reg: Reg, imm0: u32, body0: seq<Insn>, imm1: u32, body1: seq<Insn>, default: Option<seq<Insn>>)
    requires p.Valid()
    modifies p, p.img
    ensures p.Emitted(SwitchCode(reg, [Case(imm0, body0), Case(imm1, body1)], default))
  {
    hide Program.Valid, SwitchCode;
    var swich := new Swich(p, reg);
    swich.AddOption(imm0, body0);
    swich.AddOption(imm1, body1);
    if default.Some? {
      swich.SetDefault(default.value);
    }
    assert Cases(swich.options) == [Case(imm0, body0), Case(imm1, body1)];
    swich.Generate();
  }

  method EmitL3(p: Program)
    requires p.Valid()
    modifies p, p.img
    ensures p.Emitted(L3Stub(p.chain.hook, p.numCounters - 1))
  {
    hide Program.Valid, SwitchCode, SliceStub, ToI16, Ip4NextCode, Ip6NextCode, Swap16;
    EmitSwitch2(p, 7, Swap16(ETH_P_IP), [Mov64Imm(4, 20)], Swap16(ETH_P_IPV6), [Mov64Imm(4, 40)], Some([Mov64Imm(7, 0)]));
    ghost var pre := p.code;
    p.SizeIs();
    var j := p.size;
    p.Emit(JmpImm(Jeq, 7, 0, 0));
    EmitL3Body(p);
    p.SizeIs();
    ghost var body := L3Body(p.chain.hook, p.numCounters - 1);
    ScopePatched(pre, T(JmpImm(Jeq, 7, 0, 0)), body, T(JmpImm(Jeq, 7, 0, ToI16(|body|))));
    p.JmpctxCleanup(j);
  }

  function L3Body(h: Hook, slot: int): (c: Code)
  {
    SliceStub(h, slot, L3_OFFSET, L2, L3_HDR) + L3NextSwitch()
  }

  method EmitL3Body(p: Program)
    requires p.Valid()
    modifies p, p.img
    ensures p.Emitted(L3Body(p.chain.hook, p.numCounters - 1))
  {
    hide Program.Valid, SwitchCode, SliceStub, Ip4NextCode, Ip6NextCode, Swap16;
    EmitSlice(p, L3_OFFSET, L2, L3_HDR);
    EmitSwitch2(p, 7, Swap16(ETH_P_IP), Ip4NextCode(), Swap16(ETH_P_IPV6), Ip6NextCode(), None);
  }

  method EmitL4Size(p: Program)
    requires p.Valid()
    modifies p, p.img
    ensures p.Emitted(L4SizeSwitch())
  {
    hide Program.Valid, SwitchCode;
    var swich := new Swich(p, 8);
    swich.AddOption(IPPROTO_TCP, [Mov64Imm(4, 20)]);
    swich.AddOption(IPPROTO_UDP, [Mov64Imm(4, 8)]);
    swich.AddOption(IPPROTO_ICMP, [Mov64Imm(4, 8)]);
    swich.AddOption(IPPROTO_ICMPV6, [Mov64Imm(4, 8)]);
    swich.SetDefault([Mov64Imm(8, 0)]);
    assert Cases(swich.options) == [ Case(IPPROTO_TCP, [Mov64Imm(4, 20)]), Case(IPPROTO_UDP, [Mov64Imm(4, 8)]),
                                     Case(IPPROTO_ICMP, [Mov64Imm(4, 8)]), Case(IPPROTO_ICMPV6, [Mov64Imm(4, 8)]) ];
    swich.Generate();
  }

  method EmitL4(p: Program)
    requires p.Valid()
    modifies p, p.img
    ensures p.Emitted(L4Stub(p.chain.hook, p.numCounters - 1))
  {
    hide Program.Valid, L4SizeSwitch, SliceStub, ToI16;
    EmitL4Size(p);
    ghost var pre := p.code;
    p.SizeIs();
    var j := p.size;
    p.Emit(JmpImm(Jeq, 8, 0, 0));
    EmitSlice(p, L4_OFFSET, L4, L4_HDR);
    p.SizeIs();
    ghost var body := SliceStub(p.chain.hook, p.numCounters - 1, L4_OFFSET, L4, L4_HDR);
    ScopePatched(pre, T(JmpImm(Jeq, 8, 0, 0)), body, T(JmpImm(Jeq, 8, 0, ToI16(|body|))));
    p.JmpctxCleanup(j);
  }

  method EmitFamilySwitch(p: Program, reg: Reg)
    requires p.Valid()
    modifies p, p.img
    ensures p.Emitted(FamilySwitch(reg))
  {
    hide Program.Valid, SwitchCode;
    EmitSwitch2(p, reg, AF_INET, [Mov64Imm(7, Swap16(ETH_P_IP))], AF_INET6, [Mov64Imm(7, Swap16(ETH_P_IPV6))], Some([Mov64Imm(7, 0)]));
  }

  method EmitXdp(p: Program)
    requires p.Valid()
    modifies p, p.img
    ensures p.Emitted(XdpPrologue())
  {
    hide Program.Valid, Untagged;
    p.EmitRun([ Ldx(W, 2, 1, 0), Ldx(W, 3, 1, 4), Alu64Reg(Sub, 3, 2), Stx(DW, 10, 3, PKT_SIZE),
                Ldx(W, 2, 1, 12), Stx(W, 10, 2, IFINDEX) ]);
  }

  method EmitTc(p: Program)
    requires p.Valid()
    modifies p, p.img
    ensures p.Emitted(TcPrologue(p.btf))
  {
    hide Program.Valid, Untagged;
    p.EmitRun([ Ldx(W, 2, 1, 76), Ldx(W, 3, 1, 80), Alu64Reg(Sub, 3, 2), Stx(DW, 10, 3, PKT_SIZE),
                Ldx(W, 2, 1, p.btf.skbIfindex), Stx(W, 10, 2, IFINDEX) ]);
  }

  method EmitCgroup(p: Program)
    requires p.Valid()
    modifies p, p.img
    ensures p.Emitted(CgroupPrologue(p.btf))
  {
    hide Program.Valid, Untagged, FamilySwitch;
    p.EmitRun([ Ldx(W, 2, 1, 76), Ldx(W, 3, 1, 80), Alu64Reg(Sub, 3, 2), Alu64Imm(Add, 3, ETH_HLEN),
                Stx(DW, 10, 3, PKT_SIZE),
                Ldx(W, 2, 1, p.btf.skbIfindex), Stx(W, 10, 2, IFINDEX), Ldx(W, 2, 1, p.btf.skbFamily) ]);
    EmitFamilySwitch(p, 2);
    p.Emit(St(W, 10, L3_OFFSET, 0));
  }

  method EmitNf(p: Program)
    requires p.Valid()
    modifies p, p.img
    ensures p.Emitted(NfPrologue(p.chain.hook, p.btf))
  {
    hide Program.Valid, Untagged, FamilySwitch;
    p.EmitRun([ Ldx(DW, 2, 1, p.btf.nfState), Ldx(DW, 3, 2, if IsNfIngress(p.chain.hook) then p.btf.stateIn else p.btf.stateOut),
                Ldx(W, 4, 3, p.btf.devIfindex), Stx(W, 10, 4, IFINDEX), Ldx(B, 3, 2, p.btf.statePf) ]);
    EmitFamilySwitch(p, 3);
    p.EmitRun([ St(W, 10, L3_OFFSET, 0), Ldx(DW, 1, 1, p.btf.nfSkb), Ldx(W, 2, 1, p.btf.skbLen),
                Alu64Imm(Add, 2, ETH_HLEN), Stx(DW, 10, 2, PKT_SIZE) ]);
  }

  method EmitHook(p: Program)
    requires p.Valid()
    modifies p, p.img
    ensures p.Emitted(HookPrologue(p.chain.hook, p.btf))
  {
    hide Program.Valid, XdpPrologue, TcPrologue, CgroupPrologue, NfPrologue;
    if p.chain.hook == Xdp {
      EmitXdp(p);
    } else if IsTc(p.chain.hook) {
      EmitTc(p);
    } else if IsCgroup(p.chain.hook) {
      EmitCgroup(p);
    } else {
      EmitNf(p);
    }
  }

  /** `gen_inline_prologue` of the program's flavor. */
  lemma PrologueParts(was: Code, a: Code, b: Code, c: Code, d: Code, e: Code)
    ensures was + a + b + c + d + e == was + (a + b + c + d + e)
    ensures was + a + b + [] == was + a + b
  {
  }

  method EmitPrologue(p: Program)
    requires p.Valid()
    modifies p, p.img
    ensures p.Emitted(Prologue(p.chain.hook, p.btf, p.numCounters - 1))
  {
    hide Program.Valid, HookPrologue, DynptrStub, L2Stub, L3Stub, L4Stub, HasL2;
    ghost var h, slot, was := p.chain.hook, p.numCounters - 1, p.code;
    PrologueParts(was, HookPrologue(h, p.btf), DynptrStub(h, slot), if HasL2(h) then L2Stub(h, slot) else [], L3Stub(h, slot), L4Stub(h, slot));
    EmitHook(p);
    EmitDynptr(p);
    if HasL2(p.chain.hook) {
      EmitL2(p);
    }
    EmitL3(p);
    EmitL4(p);
  }
}
