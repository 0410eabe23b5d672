/** The matcher generators, emitting into a program. */
module Matchers {
  import opened Bytes
  import opened Bpf
  import opened Model
  import opened Fragment
  import opened Codegen
  import opened Emitter
  import opened Swich

  /** The generator appended the code of `want`, or failed as it does. */
  twostate predicate Generated(p: Program, new r: Result<()>, want: Result<Code>)
    reads p, p.img
  {
    match want
    case Ok(c) => r.Ok? && p.Emitted(c)
    case Err(e) => r == Err(e) && p.Valid() && p.Framed()
  }

  method EmitGuardL3(p: Program, proto: u16)
    requires p.Valid()
    modifies p, p.img
    ensures p.Emitted(GuardL3(proto))
  {
    hide Program.Valid;
    p.EmitFixup(JmpImm(Jne, 7, Swap16(proto), 0), NextRule);
    p.Emit(Ldx(DW, 6, 10, L3_HDR));
  }

  method EmitGuardL4(p: Program, proto: byte)
    requires p.Valid()
    modifies p, p.img
    ensures p.Emitted(GuardL4(proto))
  {
    hide Program.Valid;
    p.EmitFixup(JmpImm(Jne, 8, proto, 0), NextRule);
    p.Emit(Ldx(DW, 6, 10, L4_HDR));
  }

  method EmitPortTest(p: Program, op: MatcherOp, port: seq<byte>) returns (r: Result<()>)
    requires p.Valid() && |port| >= if op == Range then 4 else 2
    modifies p, p.img
    ensures Generated(p, r, PortTest(op, port))
  {
    hide Program.Valid;
    match op {
    case Eq =>
      p.EmitFixup(JmpImm(Jne, 1, Swap16(U16At(port, 0)), 0), NextRule);
    case Ne =>
      p.EmitFixup(JmpImm(Jeq, 1, Swap16(U16At(port, 0)), 0), NextRule);
    case Range =>
      p.EmitFixup(JmpImm(Jlt, 1, Swap16(U16At(port, 0)), 0), NextRule);
      p.EmitFixup(JmpImm(Jgt, 1, Swap16(U16At(port, 2)), 0), NextRule);
    case _ =>
      return Err(EINVAL);
    }
    r := Ok(());
  }

  /** Switch on the L4 protocol that loads the port at `off` into r1. */
  method EmitPortSwitch(p: Program, off: i16)
    requires p.Valid()
    modifies p, p.img
    ensures p.Emitted(PortSwitch(off))
  {
    hide Program.Valid, SwitchCode;
    p.Emit(Ldx(DW, 6, 10, L4_HDR));
    var swich := new Swich(p, 8);
    swich.AddOption(IPPROTO_TCP, [Ldx(H, 1, 6, off)]);
    swich.AddOption(IPPROTO_UDP, [Ldx(H, 1, 6, off)]);
    swich.SetDefault([Mov64Imm(1, 0)]);
    assert Cases(swich.options) == [Case(IPPROTO_TCP, [Ldx(H, 1, 6, off)]), Case(IPPROTO_UDP, [Ldx(H, 1, 6, off)])];
    swich.Generate();
    p.EmitFixup(JmpImm(Jeq, 1, 0, 0), NextRule);
  }

  method GenerateMeta(p: Program, m: Matcher) returns (r: Result<()>)
    requires p.Valid() && PayloadOk(m)
    requires m.kind in {MetaIfindex, MetaL3Proto, MetaL4Proto, MetaSport, MetaDport}
    modifies p, p.img
    ensures Generated(p, r, MetaCode(m))
  {
    hide Program.Valid, PortSwitch, PortTest;
    if m.kind == MetaIfindex {
      p.Emit(Ldx(H, 1, 10, IFINDEX));
      p.EmitFixup(JmpImm(Jne, 1, ToI32(U32At(m.payload, 0)), 0), NextRule);
    } else if m.kind == MetaL3Proto {
      p.EmitFixup(JmpImm(Jne, 7, Swap16(U16At(m.payload, 0)), 0), NextRule);
    } else if m.kind == MetaL4Proto {
      p.EmitFixup(JmpImm(Jne, 8, m.payload[0], 0), NextRule);
    } else {
      EmitPortSwitch(p, PortOff(m.kind));
      r := EmitPortTest(p, m.op, m.payload);
      return;
    }
    r := Ok(());
  }

  method EmitSetTail(p: Program, index: nat)
    requires p.Valid()
    modifies p, p.img
    ensures p.Emitted(SetTail(index))
  {
    hide Program.Valid, Untagged;
    p.EmitFixup(LdMapFd(1, 0), SetFd(index));
    p.EmitRun([LdHi, Mov64Reg(2, 10), Alu64Imm(Add, 2, SCRATCH), CallHelper(MapLookupElem)]);
    p.EmitFixup(JmpImm(Jeq, 0, 0, 0), NextRule);
  }

  method EmitIp4Addr(p: Program, m: Matcher)
    requires p.Valid() && |m.payload| >= 8
    modifies p, p.img
    ensures p.Emitted(Ip4AddrCode(m))
  {
    hide Program.Valid, Untagged, U32At, ToI32, AddrOff;
    var addr, mask := U32At(m.payload, 0), U32At(m.payload, 4);
    p.Emit(Ldx(W, 1, 6, AddrOff(m.kind)));
    p.Emit(Mov32Imm(2, ToI32(addr)));
    if mask != 0xffff_ffff {
      p.EmitRun([Mov32Imm(3, ToI32(mask)), Alu32Reg(Conj, 1, 3), Alu32Reg(Conj, 2, 3)]);
    }
    p.EmitFixup(JmpReg(if m.op == Eq then Jne else Jeq, 1, 2, 0), NextRule);
  }

  method GenerateIp4(p: Program, m: Matcher) returns (r: Result<()>)
    requires p.Valid() && PayloadOk(m)
    requires m.kind in {Ip4SrcAddr, Ip4DstAddr, Ip4Proto}
    modifies p, p.img
    ensures Generated(p, r, Ip4Code(m, p.chain.sets))
  {
    hide Program.Valid, U32At, AddrOff, SetTail, GuardL3, Ip4AddrCode;
    EmitGuardL3(p, ETH_P_IP);
    if m.kind == Ip4Proto {
      p.Emit(Ldx(B, 1, 6, 9));
      p.EmitFixup(JmpImm(if m.op == Eq then Jne else Jeq, 1, m.payload[0], 0), NextRule);
    } else if m.op == Eq || m.op == Ne {
      EmitIp4Addr(p, m);
    } else if m.op == In {
      var k := U32At(m.payload, 0);
      if k < |p.chain.sets| && p.chain.sets[k].kind == SetIp4 {
        p.Emit(Ldx(W, 2, 6, AddrOff(m.kind)));
        p.Emit(Stx(W, 10, 2, SCRATCH));
        EmitSetTail(p, k);
      } else {
        return Err(EINVAL);
      }
    } else {
      return Err(EINVAL);
    }
    r := Ok(());
  }

  method EmitLoadImm64(p: Program, b: seq<byte>)
    requires p.Valid() && |b| == 8
    modifies p, p.img
    ensures p.Emitted(LoadImm64(b))
  {
    hide Program.Valid, Untagged, LE, ToI32;
    p.EmitRun([Mov32Imm(3, ToI32(LE(b[4..8]))), Alu64Imm(Lsh, 3, 32), Mov32Imm(4, ToI32(LE(b[0..4]))), Alu64Reg(Disj, 3, 4)]);
  }

  method EmitIp6Mask(p: Program, mask: seq<byte>)
    requires p.Valid() && |mask| == 16
    modifies p, p.img
    ensures p.Emitted(Ip6MaskCode(mask))
  {
    hide Program.Valid, LoadImm64;
    if mask[15] != 0xff {
      EmitLoadImm64(p, mask[0..8]);
      p.Emit(Alu64Reg(Conj, 1, 3));
      EmitLoadImm64(p, mask[8..16]);
      p.Emit(Alu64Reg(Conj, 2, 3));
    }
  }

  method EmitIp6Eq(p: Program, want: seq<byte>)
    requires p.Valid() && |want| == 16
    modifies p, p.img
    ensures p.Emitted(Ip6Test(Eq, want))
  {
    hide Program.Valid, LoadImm64;
    EmitLoadImm64(p, want[0..8]);
    p.EmitFixup(JmpReg(Jne, 1, 3, 0), NextRule);
    EmitLoadImm64(p, want[8..16]);
    p.EmitFixup(JmpReg(Jne, 2, 3, 0), NextRule);
  }

  /** Two pending jumps, both to the end of the matcher. */
  method EmitIp6Ne(p: Program, op: MatcherOp, want: seq<byte>)
    requires p.Valid() && |want| == 16 && op != Eq
    modifies p, p.img
    ensures p.Emitted(Ip6Test(op, want))
  {
    hide Program.Valid, NeCode, Ip6Test, SetOff;
    NePatched(p.code, op, want);
    p.SizeIs();
    var j0, j1 := EmitIp6NeJumps(p, want);
    p.SizeIs();
    p.JmpctxCleanup(j0);
    p.JmpctxCleanup(j1);
  }

  /** The test for `Ne` before its two jumps are patched. */
  function NeCode(want: seq<byte>): (c: Code)
    requires |want| == 16
    ensures |c| == 11
  {
    LoadImm64(want[0..8]) + [T(JmpReg(Jne, 1, 3, 0))] + LoadImm64(want[8..16]) + [T(JmpReg(Jne, 2, 3, 0)), N(Ja(0))]
  }

  method EmitIp6NeJumps(p: Program, want: seq<byte>) returns (j0: nat, j1: nat)
    requires p.Valid() && |want| == 16
    modifies p, p.img
    ensures p.Emitted(NeCode(want)) && j0 == |old(p.code)| + 4 && j1 == |old(p.code)| + 9
  {
    hide Program.Valid, LoadImm64;
    EmitLoadImm64(p, want[0..8]);
    j0 := p.size;
    p.SizeIs();
    p.Emit(JmpReg(Jne, 1, 3, 0));
    EmitLoadImm64(p, want[8..16]);
    j1 := p.size;
    p.SizeIs();
    p.Emit(JmpReg(Jne, 2, 3, 0));
    p.EmitFixup(Ja(0), NextRule);
  }

  lemma NePatched(pre: Code, op: MatcherOp, want: seq<byte>)
    requires |want| == 16 && op != Eq
    ensures var c, a, b := pre + NeCode(want), |pre| + 4, |pre| + 9;
            c[a] == T(JmpReg(Jne, 1, 3, 0)) && c[b] == T(JmpReg(Jne, 2, 3, 0))
            && c[a := T(SetOff(c[a].insn, 6))][b := T(SetOff(c[b].insn, 1))] == pre + Ip6Test(op, want)
  {
    hide LoadImm64;
  }

  method EmitAddrLoads(p: Program, off: i16)
    requires p.Valid() && 0 <= off <= 24
    modifies p, p.img
    ensures p.Emitted([T(Ldx(DW, 1, 6, off)), T(Ldx(DW, 2, 6, off + 8))])
  {
    hide Program.Valid;
    p.Emit(Ldx(DW, 1, 6, off));
    p.Emit(Ldx(DW, 2, 6, off + 8));
  }

  method GenerateIp6(p: Program, m: Matcher)
    requires p.Valid() && PayloadOk(m)
    requires m.kind in {Ip6Saddr, Ip6Daddr}
    modifies p, p.img
    ensures p.Emitted(Ip6Code(m))
  {
    hide Program.Valid, Ip6MaskCode, Ip6Test, AndBytes, GuardL3;
    var off := AddrOff(m.kind);
    var addr, mask := m.payload[0..16], m.payload[16..32];
    EmitGuardL3(p, ETH_P_IPV6);
    EmitAddrLoads(p, off);
    EmitIp6Mask(p, mask);
    if m.op == Eq {
      EmitIp6Eq(p, AndBytes(addr, mask));
    } else {
      EmitIp6Ne(p, m.op, AndBytes(addr, mask));
    }
  }

  method EmitFlagsTest(p: Program, op: MatcherOp, flags: byte) returns (r: Result<()>)
    requires p.Valid()
    modifies p, p.img
    ensures Generated(p, r, FlagsTest(op, flags))
  {
    hide Program.Valid;
    match op {
    case Eq =>
      p.EmitFixup(JmpImm(Jne, 1, flags, 0), NextRule);
    case Ne =>
      p.EmitFixup(JmpImm(Jeq, 1, flags, 0), NextRule);
    case Any =>
      p.Emit(Alu32Imm(Conj, 1, flags));
      p.EmitFixup(JmpImm(Jeq, 1, 0, 0), NextRule);
    case All =>
      p.Emit(Alu32Imm(Conj, 1, flags));
      p.EmitFixup(JmpImm(Jne, 1, flags, 0), NextRule);
    case _ =>
      return Err(EINVAL);
    }
    r := Ok(());
  }

  method GenerateL4(p: Program, m: Matcher) returns (r: Result<()>)
    requires p.Valid() && PayloadOk(m)
    requires m.kind in {TcpSport, TcpDport, TcpFlags, UdpSport, UdpDport}
    modifies p, p.img
    ensures Generated(p, r, L4Code(m))
  {
    hide Program.Valid, FlagsTest, PortTest, GuardL4;
    if m.kind == TcpFlags {
      EmitGuardL4(p, IPPROTO_TCP);
      p.Emit(Ldx(B, 1, 6, 13));
      r := EmitFlagsTest(p, m.op, m.payload[0]);
    } else {
      EmitGuardL4(p, PortProto(m.kind));
      p.Emit(Ldx(H, 1, 6, PortOff(m.kind)));
      r := EmitPortTest(p, m.op, m.payload);
    }
  }

  method EmitIp6PortKey(p: Program)
    requires p.Valid()
    modifies p, p.img
    ensures p.Emitted(Ip6PortKeyCode())
  {
    hide Program.Valid, Untagged;
    p.EmitFixup(JmpImm(Jeq, 3, 0, 0), NextRule);
    p.EmitRun([ Ldx(DW, 6, 10, L3_HDR), Ldx(DW, 1, 6, 8), Ldx(DW, 2, 6, 16),
                Stx(DW, 10, 1, SCRATCH), Stx(DW, 10, 2, SCRATCH + 8), Stx(H, 10, 3, SCRATCH + 16) ]);
  }

  /** The switch lists TCP twice and UDP never. */
  method EmitSourcePortSwitch(p: Program)
    requires p.Valid()
    modifies p, p.img
    ensures p.Emitted(SwitchCode(8, [Case(IPPROTO_TCP, [Ldx(H, 3, 6, 0)]), Case(IPPROTO_TCP, [Ldx(H, 3, 6, 0)])],
                                 Some([Mov64Imm(3, 0)])))
  {
    hide Program.Valid, SwitchCode;
    var swich := new Swich(p, 8);
    swich.AddOption(IPPROTO_TCP, [Ldx(H, 3, 6, 0)]);
    swich.AddOption(IPPROTO_TCP, [Ldx(H, 3, 6, 0)]);
    swich.SetDefault([Mov64Imm(3, 0)]);
    assert Cases(swich.options) == [Case(IPPROTO_TCP, [Ldx(H, 3, 6, 0)]), Case(IPPROTO_TCP, [Ldx(H, 3, 6, 0)])];
    swich.Generate();
  }

  method GenerateSetIp6Port(p: Program, m: Matcher)
    requires p.Valid() && PayloadOk(m) && m.kind == SetSrcIp6Port
    modifies p, p.img
    ensures p.Emitted(SetCode(m))
  {
    hide Program.Valid, U32At, SetTail, GuardL3, SwitchCode, Ip6PortKeyCode;
    p.EmitFixup(JmpImm(Jne, 7, Swap16(ETH_P_IPV6), 0), NextRule);
    p.Emit(Ldx(DW, 6, 10, L4_HDR));
    EmitSourcePortSwitch(p);
    EmitIp6PortKey(p);
    EmitSetTail(p, U32At(m.payload, 0));
  }

  method GenerateSetIp6(p: Program, m: Matcher)
    requires p.Valid() && PayloadOk(m) && m.kind == SetSrcIp6
    modifies p, p.img
    ensures p.Emitted(SetCode(m))
  {
    hide Program.Valid, U32At, SetTail, GuardL3, Untagged;
    EmitGuardL3(p, ETH_P_IPV6);
    p.EmitRun([Ldx(DW, 1, 6, 8), Ldx(DW, 2, 6, 16), Stx(DW, 10, 1, SCRATCH), Stx(DW, 10, 2, SCRATCH + 8)]);
    EmitSetTail(p, U32At(m.payload, 0));
  }

  method GenerateMatcher(p: Program, m: Matcher) returns (r: Result<()>)
    requires p.Valid() && PayloadOk(m)
    modifies p, p.img
    ensures Generated(p, r, MatcherCode(m, p.chain.sets))
  {
    hide Program.Valid, MetaCode, Ip4Code, Ip6Code, L4Code, SetCode, PayloadOk;
    match m.kind
    case MetaIfindex | MetaL3Proto | MetaL4Proto | MetaSport | MetaDport =>
      r := GenerateMeta(p, m);
    case Ip4SrcAddr | Ip4DstAddr | Ip4Proto =>
      r := GenerateIp4(p, m);
    case Ip6Saddr | Ip6Daddr =>
      GenerateIp6(p, m);
      r := Ok(());
    case TcpSport | TcpDport | TcpFlags | UdpSport | UdpDport =>
      r := GenerateL4(p, m);
    case SetSrcIp6Port =>
      GenerateSetIp6Port(p, m);
      r := Ok(());
    case SetSrcIp6 =>
      GenerateSetIp6(p, m);
      r := Ok(());
  }
}
