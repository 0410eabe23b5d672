/** The instruction sequences that the matchers, stubs, rules and chains emit. */
module Codegen {
  import opened Bytes
  import opened Bpf
  import opened Model
  import opened Machine
  import opened Fragment

  // ----- layout of the program's context on the stack, relative to r10 -----

  const CTX_SIZE := 216
  const ARG: i16 := -CTX_SIZE
  const DYNPTR: i16 := 8 - CTX_SIZE
  const PKT_SIZE: i16 := 24 - CTX_SIZE
  const L3_OFFSET: i16 := 32 - CTX_SIZE
  const L4_OFFSET: i16 := 36 - CTX_SIZE
  const IFINDEX: i16 := 40 - CTX_SIZE
  const L2_HDR: i16 := 48 - CTX_SIZE
  const L3_HDR: i16 := 56 - CTX_SIZE
  const L4_HDR: i16 := 64 - CTX_SIZE
  const L2: i16 := 72 - CTX_SIZE
  const L4: i16 := 128 - CTX_SIZE
  const SCRATCH: i16 := 152 - CTX_SIZE

  // ----- protocol numbers -----

  const ETH_P_IP: u16 := 0x0800
  const ETH_P_IPV6: u16 := 0x86DD
  const AF_INET: byte := 2
  const AF_INET6: byte := 10
  const IPPROTO_ICMP: byte := 1
  const IPPROTO_TCP: byte := 6
  const IPPROTO_UDP: byte := 17
  const IPPROTO_ICMPV6: byte := 58
  const ETH_HLEN := 14

  // ----- payloads -----

  /** Number of payload bytes the generator reads for a matcher. */
  function PayloadLen(kind: MatcherType, op: MatcherOp): (n: nat)
  {
    match kind
    case MetaIfindex => 4
    case MetaL3Proto => 2
    case MetaL4Proto | Ip4Proto | TcpFlags => 1
    case MetaSport | MetaDport | TcpSport | TcpDport | UdpSport | UdpDport => if op == Range then 4 else 2
    case Ip4SrcAddr | Ip4DstAddr => if op == In then 4 else 8
    case Ip6Saddr | Ip6Daddr => 32
    case SetSrcIp6Port | SetSrcIp6 => 4
  }

  predicate PayloadOk(m: Matcher)
  {
    |m.payload| >= PayloadLen(m.kind, m.op)
  }

  function U16At(p: seq<byte>, i: nat): (r: u16)
    requires i + 2 <= |p|
  {
    LE2(p[i..i + 2]);
    LE(p[i..i + 2])
  }

  function U32At(p: seq<byte>, i: nat): (r: u32)
    requires i + 4 <= |p|
  {
    assert Pow256(4) == 0x1_0000_0000;
    LE(p[i..i + 4])
  }

  // ----- switch -----

  datatype Case = Case(imm: u32, body: seq<Insn>)

  function Untagged(insns: seq<Insn>): (c: Code)
    ensures |c| == |insns|
    ensures forall i :: 0 <= i < |c| ==> c[i] == T(insns[i])
  {
    if insns == [] then [] else [T(insns[0])] + Untagged(insns[1..])
  }

  /** Slots taken by the case bodies, each followed by its jump to the end. */
  function BodiesLen(cases: seq<Case>): (n: nat)
  {
    if cases == [] then 0 else |cases[0].body| + 1 + BodiesLen(cases[1..])
  }

  /** One comparison per case; `after` slots separate the last one from the first body of `cases`. */
  function CaseJumps(reg: Reg, cases: seq<Case>, after: nat): (c: Code)
    ensures |c| == |cases|
  {
    if cases == [] then []
    else [T(JmpImm(Jeq, reg, ToI32(cases[0].imm), ToI16(|cases| - 1 + after)))]
         + CaseJumps(reg, cases[1..], after + |cases[0].body| + 1)
  }

  function CaseBodies(cases: seq<Case>, defaultLen: nat): (c: Code)
    ensures |c| == BodiesLen(cases)
  {
    if cases == [] then []
    else Untagged(cases[0].body) + [T(Ja(ToI16(BodiesLen(cases[1..]) + defaultLen)))]
         + CaseBodies(cases[1..], defaultLen)
  }

  /** Code of a switch on `reg`. */
  function SwitchCode(reg: Reg, cases: seq<Case>, default: Option<seq<Insn>>): (c: Code)
  {
    match default
    case Some(d) =>
      CaseJumps(reg, cases, 1) + [T(Ja(ToI16(BodiesLen(cases))))] + CaseBodies(cases, |d|) + Untagged(d)
    case None =>
      CaseJumps(reg, cases, 0) + CaseBodies(cases, 0)
  }

  // ----- matchers -----

  /** Leave the rule unless the L3 protocol is `proto`; load the L3 header address into r6. */
  function GuardL3(proto: u16): (c: Code)
  {
    [N(JmpImm(Jne, 7, Swap16(proto), 0)), T(Ldx(DW, 6, 10, L3_HDR))]
  }

  function GuardL4(proto: byte): (c: Code)
  {
    [N(JmpImm(Jne, 8, proto, 0)), T(Ldx(DW, 6, 10, L4_HDR))]
  }

  /** Compare the port in r1, in network order, with the payload. */
  function PortTest(op: MatcherOp, p: seq<byte>): (c: Result<Code>)
    requires |p| >= if op == Range then 4 else 2
  {
    match op
    case Eq => Ok([N(JmpImm(Jne, 1, Swap16(U16At(p, 0)), 0))])
    case Ne => Ok([N(JmpImm(Jeq, 1, Swap16(U16At(p, 0)), 0))])
    case Range => Ok([N(JmpImm(Jlt, 1, Swap16(U16At(p, 0)), 0)), N(JmpImm(Jgt, 1, Swap16(U16At(p, 2)), 0))])
    case _ => Err(EINVAL)
  }

  function Append(a: Code, b: Result<Code>): (c: Result<Code>)
  {
    match b case Ok(code) => Ok(a + code) case Err(e) => Err(e)
  }

  /** Offset of the port in the TCP and UDP headers. */
  function PortOff(k: MatcherType): (r: i16)
  {
    if k == MetaSport || k == TcpSport || k == UdpSport then 0 else 2
  }

  function PortProto(k: MatcherType): (r: byte)
  {
    if k == TcpSport || k == TcpDport then IPPROTO_TCP else IPPROTO_UDP
  }

  function PortSwitch(off: i16): (c: Code)
  {
    [T(Ldx(DW, 6, 10, L4_HDR))]
    + SwitchCode(8, [Case(IPPROTO_TCP, [Ldx(H, 1, 6, off)]), Case(IPPROTO_UDP, [Ldx(H, 1, 6, off)])],
                 Some([Mov64Imm(1, 0)]))
    + [N(JmpImm(Jeq, 1, 0, 0))]
  }

  function MetaCode(m: Matcher): (c: Result<Code>)
    requires PayloadOk(m)
    requires m.kind in {MetaIfindex, MetaL3Proto, MetaL4Proto, MetaSport, MetaDport}
  {
    if m.kind == MetaIfindex then
      Ok([T(Ldx(H, 1, 10, IFINDEX)), N(JmpImm(Jne, 1, ToI32(U32At(m.payload, 0)), 0))])
    else if m.kind == MetaL3Proto then
      Ok([N(JmpImm(Jne, 7, Swap16(U16At(m.payload, 0)), 0))])
    else if m.kind == MetaL4Proto then
      Ok([N(JmpImm(Jne, 8, m.payload[0], 0))])
    else
      Append(PortSwitch(PortOff(m.kind)), PortTest(m.op, m.payload))
  }

  /** Look up the key in the scratch area in the set's map; leave the rule if it is not there. */
  function SetTail(index: nat): (c: Code)
  {
    [ Tagged(LdMapFd(1, 0), SetFd(index)), T(LdHi),
      T(Mov64Reg(2, 10)), T(Alu64Imm(Add, 2, SCRATCH)),
      T(CallHelper(MapLookupElem)),
      N(JmpImm(Jeq, 0, 0, 0)) ]
  }

  /** Offset of an address in the IPv4 or IPv6 header. */
  function AddrOff(k: MatcherType): (r: i16)
    ensures 0 <= r <= 24
  {
    match k case Ip4SrcAddr => 12 case Ip4DstAddr => 16 case Ip6Daddr => 24 case _ => 8
  }

  function Ip4AddrCode(m: Matcher): (c: Code)
    requires |m.payload| >= 8
  {
    var addr, mask := U32At(m.payload, 0), U32At(m.payload, 4);
    [T(Ldx(W, 1, 6, AddrOff(m.kind))), T(Mov32Imm(2, ToI32(addr)))]
    + (if mask == 0xffff_ffff then [] else Ip4MaskCode(mask))
    + [N(JmpReg(if m.op == Eq then Jne else Jeq, 1, 2, 0))]
  }

  function Ip4MaskCode(mask: u32): (c: Code)
  {
    [T(Mov32Imm(3, ToI32(mask))), T(Alu32Reg(Conj, 1, 3)), T(Alu32Reg(Conj, 2, 3))]
  }

  /** `sets` are the chain's sets; an index that is not one of them is not looked up (the source dereferences null). */
  function Ip4Code(m: Matcher, sets: seq<Set>): (c: Result<Code>)
    requires PayloadOk(m)
    requires m.kind in {Ip4SrcAddr, Ip4DstAddr, Ip4Proto}
  {
    Append(GuardL3(ETH_P_IP),
      if m.kind == Ip4Proto then
        Ok([T(Ldx(B, 1, 6, 9)), N(JmpImm(if m.op == Eq then Jne else Jeq, 1, m.payload[0], 0))])
      else if m.op == Eq || m.op == Ne then Ok(Ip4AddrCode(m))
      else if m.op == In then
        var k := U32At(m.payload, 0);
        if k < |sets| && sets[k].kind == SetIp4 then
          Ok([T(Ldx(W, 2, 6, AddrOff(m.kind))), T(Stx(W, 10, 2, SCRATCH))] + SetTail(k))
        else Err(EINVAL)
      else Err(EINVAL))
  }

  /** Load the 64-bit constant made of `b` (least significant byte first) into r3, through r4. */
  function LoadImm64(b: seq<byte>): (c: Code)
    requires |b| == 8
    ensures |c| == 4
  {
    [ T(Mov32Imm(3, ToI32(LE(b[4..8])))),
      T(Alu64Imm(Lsh, 3, 32)),
      T(Mov32Imm(4, ToI32(LE(b[0..4])))),
      T(Alu64Reg(Disj, 3, 4)) ]
  }

  function Ip6MaskCode(mask: seq<byte>): (c: Code)
    requires |mask| == 16
  {
    if mask[15] == 0xff then []
    else LoadImm64(mask[0..8]) + [T(Alu64Reg(Conj, 1, 3))] + LoadImm64(mask[8..16]) + [T(Alu64Reg(Conj, 2, 3))]
  }

  /** Compare r1 and r2 with the halves of `want`. */
  function Ip6Test(op: MatcherOp, want: seq<byte>): (c: Code)
    requires |want| == 16
  {
    if op == Eq then
      LoadImm64(want[0..8]) + [N(JmpReg(Jne, 1, 3, 0))] + LoadImm64(want[8..16]) + [N(JmpReg(Jne, 2, 3, 0))]
    else
      LoadImm64(want[0..8]) + [T(JmpReg(Jne, 1, 3, 6))] + LoadImm64(want[8..16])
      + [T(JmpReg(Jne, 2, 3, 1)), N(Ja(0))]
  }

  function Ip6Code(m: Matcher): (c: Code)
    requires PayloadOk(m)
    requires m.kind in {Ip6Saddr, Ip6Daddr}
  {
    var off := AddrOff(m.kind);
    var addr, mask := m.payload[0..16], m.payload[16..32];
    GuardL3(ETH_P_IPV6) + [T(Ldx(DW, 1, 6, off)), T(Ldx(DW, 2, 6, off + 8))]
    + Ip6MaskCode(mask) + Ip6Test(m.op, AndBytes(addr, mask))
  }

  function FlagsTest(op: MatcherOp, flags: byte): (c: Result<Code>)
  {
    match op
    case Eq => Ok([N(JmpImm(Jne, 1, flags, 0))])
    case Ne => Ok([N(JmpImm(Jeq, 1, flags, 0))])
    case Any => Ok([T(Alu32Imm(Conj, 1, flags)), N(JmpImm(Jeq, 1, 0, 0))])
    case All => Ok([T(Alu32Imm(Conj, 1, flags)), N(JmpImm(Jne, 1, flags, 0))])
    case _ => Err(EINVAL)
  }

  function L4Code(m: Matcher): (c: Result<Code>)
    requires PayloadOk(m)
    requires m.kind in {TcpSport, TcpDport, TcpFlags, UdpSport, UdpDport}
  {
    if m.kind == TcpFlags then
      Append(GuardL4(IPPROTO_TCP) + [T(Ldx(B, 1, 6, 13))], FlagsTest(m.op, m.payload[0]))
    else
      Append(GuardL4(PortProto(m.kind)) + [T(Ldx(H, 1, 6, PortOff(m.kind)))], PortTest(m.op, m.payload))
  }

  function Ip6PortKeyCode(): (c: Code)
  {
    [ N(JmpImm(Jeq, 3, 0, 0)),
      T(Ldx(DW, 6, 10, L3_HDR)), T(Ldx(DW, 1, 6, 8)), T(Ldx(DW, 2, 6, 16)),
      T(Stx(DW, 10, 1, SCRATCH)), T(Stx(DW, 10, 2, SCRATCH + 8)), T(Stx(H, 10, 3, SCRATCH + 16)) ]
  }

  function SetCode(m: Matcher): (c: Code)
    requires PayloadOk(m)
    requires m.kind in {SetSrcIp6Port, SetSrcIp6}
  {
    var k := U32At(m.payload, 0);
    if m.kind == SetSrcIp6 then
      GuardL3(ETH_P_IPV6)
      + [ T(Ldx(DW, 1, 6, 8)), T(Ldx(DW, 2, 6, 16)),
          T(Stx(DW, 10, 1, SCRATCH)), T(Stx(DW, 10, 2, SCRATCH + 8)) ]
      + SetTail(k)
    else
      [N(JmpImm(Jne, 7, Swap16(ETH_P_IPV6), 0)), T(Ldx(DW, 6, 10, L4_HDR))]
      + SwitchCode(8, [Case(IPPROTO_TCP, [Ldx(H, 3, 6, 0)]), Case(IPPROTO_TCP, [Ldx(H, 3, 6, 0)])],
                   Some([Mov64Imm(3, 0)]))
      + Ip6PortKeyCode() + SetTail(k)
  }

  function MatcherCode(m: Matcher, sets: seq<Set>): (c: Result<Code>)
    requires PayloadOk(m)
  {
    match m.kind
    case MetaIfindex | MetaL3Proto | MetaL4Proto | MetaSport | MetaDport => MetaCode(m)
    case Ip4SrcAddr | Ip4DstAddr | Ip4Proto => Ip4Code(m, sets)
    case Ip6Saddr | Ip6Daddr => Ok(Ip6Code(m))
    case TcpSport | TcpDport | TcpFlags | UdpSport | UdpDport => L4Code(m)
    case SetSrcIp6Port | SetSrcIp6 => Ok(SetCode(m))
  }

  predicate PayloadsOk(ms: seq<Matcher>)
  {
    forall m :: m in ms ==> PayloadOk(m)
  }

  function MatchersCode(ms: seq<Matcher>, sets: seq<Set>): (c: Result<Code>)
    requires PayloadsOk(ms)
  {
    if ms == [] then Ok([])
    else match MatcherCode(ms[0], sets)
      case Err(e) => Err(e)
      case Ok(a) => Append(a, MatchersCode(ms[1..], sets))
  }

  // ----- rules -----

  /** The hook's return code for a terminal verdict: what makes the kernel do it. */
  function VerdictCode(h: Hook, v: Verdict): (r: i32)
    requires Terminal(v)
    ensures Passes(h, Sext64(r)) <==> v == Accept
    ensures Drops(h, Sext64(r)) <==> v == Drop
  {
    match h
    case Xdp => if v == Accept then 2 else 1
    case TcIngress | TcEgress => if v == Accept then 0 else 2
    case _ => if v == Accept then 1 else 0
  }

  function CountCode(index: int): (c: Code)
    ensures |c| == 3
  {
    [T(Mov32Imm(1, ToI32(index))), T(Ldx(DW, 2, 10, PKT_SIZE)), Tagged(CallRel(0), UpdateCounters)]
  }

  function ReturnCode(h: Hook, v: Verdict): (c: Code)
    requires Terminal(v)
  {
    [T(Mov64Imm(0, VerdictCode(h, v))), T(Exit)]
  }

  function ActionCode(h: Hook, r: Rule): (c: Code)
  {
    (if r.counters then CountCode(r.index) else [])
    + (if Terminal(r.verdict) then ReturnCode(h, r.verdict) else [])
  }

  function RuleCode(h: Hook, r: Rule, sets: seq<Set>): (c: Result<Code>)
    requires PayloadsOk(r.matchers)
  {
    match MatchersCode(r.matchers, sets)
    case Ok(code) => Ok(code + ActionCode(h, r))
    case Err(e) => Err(e)
  }

  // ----- prologue -----

  /** Count the packet as an error and accept it. `slot` is the error counter. */
  function ErrorExit(h: Hook, slot: int): (c: Code)
    ensures |c| == 5
  {
    CountCode(slot) + ReturnCode(h, Accept)
  }

  function DynptrStub(h: Hook, slot: int): (c: Code)
  {
    [ T(Mov64Imm(2, 0)), T(Mov64Reg(3, 10)), T(Alu64Imm(Add, 3, DYNPTR)),
      T(CallKfunc(if h == Xdp then DynptrFromXdp else DynptrFromSkb)), T(JmpImm(Jeq, 0, 0, 5)) ]
    + ErrorExit(h, slot)
  }

  function L2Stub(h: Hook, slot: int): (c: Code)
  {
    [ T(Mov64Reg(1, 10)), T(Alu64Imm(Add, 1, DYNPTR)), T(Mov64Imm(2, 0)),
      T(Mov64Reg(3, 10)), T(Alu64Imm(Add, 3, L2)), T(Mov64Imm(4, ETH_HLEN)),
      T(CallKfunc(DynptrSlice)), T(JmpImm(Jne, 0, 0, 5)) ]
    + ErrorExit(h, slot)
    + [T(Stx(DW, 10, 0, L2_HDR)), T(Ldx(H, 7, 0, 12)), T(St(W, 10, L3_OFFSET, ETH_HLEN))]
  }

  /** Slice the header of r4 bytes at the offset stored in `offset`, with buffer `buf`; store its address in `hdr`. */
  function SliceStub(h: Hook, slot: int, offset: i16, buf: i16, hdr: i16): (c: Code)
    ensures |c| == 13
  {
    [ T(Mov64Reg(1, 10)), T(Alu64Imm(Add, 1, DYNPTR)), T(Ldx(W, 2, 10, offset)),
      T(Mov64Reg(3, 10)), T(Alu64Imm(Add, 3, buf)),
      T(CallKfunc(DynptrSlice)), T(JmpImm(Jne, 0, 0, 5)) ]
    + ErrorExit(h, slot)
    + [T(Stx(DW, 10, 0, hdr))]
  }

  function L3SizeSwitch(): (c: Code)
  {
    SwitchCode(7, [Case(Swap16(ETH_P_IP), [Mov64Imm(4, 20)]), Case(Swap16(ETH_P_IPV6), [Mov64Imm(4, 40)])],
               Some([Mov64Imm(7, 0)]))
  }

  function Ip4NextCode(): (c: seq<Insn>)
  {
    [ Ldx(B, 1, 0, 0), Alu64Imm(Conj, 1, 0x0f), Alu64Imm(Lsh, 1, 2), Ldx(W, 2, 10, L3_OFFSET),
      Alu64Reg(Add, 1, 2), Stx(W, 10, 1, L4_OFFSET), Ldx(B, 8, 0, 9) ]
  }

  function Ip6NextCode(): (c: seq<Insn>)
  {
    [ Mov64Imm(1, 40), Ldx(W, 2, 10, L3_OFFSET), Alu64Reg(Add, 1, 2), Stx(W, 10, 1, L4_OFFSET), Ldx(B, 8, 0, 6) ]
  }

  function L3NextSwitch(): (c: Code)
  {
    SwitchCode(7, [Case(Swap16(ETH_P_IP), Ip4NextCode()), Case(Swap16(ETH_P_IPV6), Ip6NextCode())], None)
  }

  function L3Stub(h: Hook, slot: int): (c: Code)
  {
    var body := SliceStub(h, slot, L3_OFFSET, L2, L3_HDR) + L3NextSwitch();
    L3SizeSwitch() + [T(JmpImm(Jeq, 7, 0, ToI16(|body|)))] + body
  }

  function L4SizeSwitch(): (c: Code)
  {
    SwitchCode(8, [Case(IPPROTO_TCP, [Mov64Imm(4, 20)]), Case(IPPROTO_UDP, [Mov64Imm(4, 8)]),
                   Case(IPPROTO_ICMP, [Mov64Imm(4, 8)]), Case(IPPROTO_ICMPV6, [Mov64Imm(4, 8)])],
               Some([Mov64Imm(8, 0)]))
  }

  function L4Stub(h: Hook, slot: int): (c: Code)
  {
    var body := SliceStub(h, slot, L4_OFFSET, L4, L4_HDR);
    L4SizeSwitch() + [T(JmpImm(Jeq, 8, 0, ToI16(|body|)))] + body
  }

  /** Translate the address family in `reg` to an ethertype in r7. */
  function FamilySwitch(reg: Reg): (c: Code)
  {
    SwitchCode(reg, [Case(AF_INET, [Mov64Imm(7, Swap16(ETH_P_IP))]), Case(AF_INET6, [Mov64Imm(7, Swap16(ETH_P_IPV6))])],
               Some([Mov64Imm(7, 0)]))
  }

  predicate IsTc(h: Hook) { h == TcIngress || h == TcEgress }
  predicate IsCgroup(h: Hook) { h == CgroupIngress || h == CgroupEgress }
  predicate IsNf(h: Hook) { h != Xdp && !IsTc(h) && !IsCgroup(h) }
  predicate IsNfIngress(h: Hook) { h == NfPreRouting || h == NfLocalIn || h == NfForward }

  function XdpPrologue(): (c: Code)
  {
    [ T(Ldx(W, 2, 1, 0)), T(Ldx(W, 3, 1, 4)), T(Alu64Reg(Sub, 3, 2)), T(Stx(DW, 10, 3, PKT_SIZE)),
      T(Ldx(W, 2, 1, 12)), T(Stx(W, 10, 2, IFINDEX)) ]
  }

  function TcPrologue(btf: Btf): (c: Code)
  {
    [ T(Ldx(W, 2, 1, 76)), T(Ldx(W, 3, 1, 80)), T(Alu64Reg(Sub, 3, 2)), T(Stx(DW, 10, 3, PKT_SIZE)),
      T(Ldx(W, 2, 1, btf.skbIfindex)), T(Stx(W, 10, 2, IFINDEX)) ]
  }

  function CgroupPrologue(btf: Btf): (c: Code)
  {
    [ T(Ldx(W, 2, 1, 76)), T(Ldx(W, 3, 1, 80)), T(Alu64Reg(Sub, 3, 2)), T(Alu64Imm(Add, 3, ETH_HLEN)),
      T(Stx(DW, 10, 3, PKT_SIZE)),
      T(Ldx(W, 2, 1, btf.skbIfindex)), T(Stx(W, 10, 2, IFINDEX)), T(Ldx(W, 2, 1, btf.skbFamily)) ]
    + FamilySwitch(2) + [T(St(W, 10, L3_OFFSET, 0))]
  }

  function NfPrologue(h: Hook, btf: Btf): (c: Code)
  {
    [ T(Ldx(DW, 2, 1, btf.nfState)), T(Ldx(DW, 3, 2, if IsNfIngress(h) then btf.stateIn else btf.stateOut)),
      T(Ldx(W, 4, 3, btf.devIfindex)), T(Stx(W, 10, 4, IFINDEX)), T(Ldx(B, 3, 2, btf.statePf)) ]
    + FamilySwitch(3)
    + [ T(St(W, 10, L3_OFFSET, 0)), T(Ldx(DW, 1, 1, btf.nfSkb)), T(Ldx(W, 2, 1, btf.skbLen)),
        T(Alu64Imm(Add, 2, ETH_HLEN)), T(Stx(DW, 10, 2, PKT_SIZE)) ]
  }

  /** What the hook tells about the packet, stored into the context. */
  function HookPrologue(h: Hook, btf: Btf): (c: Code)
  {
    if h == Xdp then XdpPrologue()
    else if IsTc(h) then TcPrologue(btf)
    else if IsCgroup(h) then CgroupPrologue(btf)
    else NfPrologue(h, btf)
  }

  function StartCode(): (c: Code)
  {
    [T(Stx(DW, 10, 1, ARG)), T(Mov64Imm(7, 0)), T(Mov64Imm(8, 0))]
  }

  predicate HasL2(h: Hook) { h == Xdp || IsTc(h) }

  function Prologue(h: Hook, btf: Btf, slot: int): (c: Code)
  {
    HookPrologue(h, btf) + DynptrStub(h, slot)
    + (if HasL2(h) then L2Stub(h, slot) else []) + L3Stub(h, slot) + L4Stub(h, slot)
  }

  // ----- whole programs -----

  /** Store the arguments of the subroutine and prepare the lookup of its counter. */
  function SubArgsCode(): (c: Code)
    ensures |c| == 6
  {
    [ T(Stx(W, 10, 1, SCRATCH)), T(Stx(DW, 10, 2, SCRATCH + 8)),
      Tagged(LdMapFd(1, 0), CountersFd), T(LdHi),
      T(Mov64Reg(2, 10)), T(Alu64Imm(Add, 2, SCRATCH)) ]
  }

  /** Add the packet to the counter r0 points to. */
  function SubAddCode(): (c: Code)
    ensures |c| == 9
  {
    [ T(Ldx(DW, 1, 0, 0)), T(Alu64Imm(Add, 1, 1)), T(Stx(DW, 0, 1, 0)),
      T(Ldx(DW, 1, 0, 8)), T(Ldx(DW, 2, 10, SCRATCH + 8)), T(Alu64Reg(Add, 1, 2)), T(Stx(DW, 0, 1, 8)),
      T(Mov32Imm(0, 0)), T(Exit) ]
  }

  /** The counter update subroutine: r1 is the counter's index, r2 the packet's size. */
  function SubCode(): (c: Code)
    ensures |c| == 19
  {
    SubArgsCode()
    + ([T(CallHelper(MapLookupElem)), T(JmpImm(Jne, 0, 0, 2)), T(Mov32Imm(0, 1)), T(Exit)] + SubAddCode())
  }

  /** Point every pending jump at the slot after the code. */
  function LinkNext(code: Code): (c: Code)
    ensures |c| == |code|
  {
    seq(|code|, i requires 0 <= i < |code| =>
      if code[i].tag == NextRule then T(SetOff(code[i].insn, |code| - i - 1)) else code[i])
  }

  /** Every pending jump is close enough to the end of the code for its 16-bit offset. */
  predicate ShortJumps(code: Code)
  {
    forall i :: 0 <= i < |code| && code[i].tag == NextRule ==> |code| - i - 1 < 0x8000
  }

  function SetOff(insn: Insn, off: int): (r: Insn)
  {
    match insn
    case JmpImm(op, d, imm, _) => JmpImm(op, d, imm, ToI16(off))
    case JmpReg(op, d, s, _) => JmpReg(op, d, s, ToI16(off))
    case Ja(_) => Ja(ToI16(off))
    case _ => insn
  }

  predicate RulesOk(rules: seq<Rule>)
  {
    forall r :: r in rules ==> PayloadsOk(r.matchers)
  }

  predicate RulesShort(h: Hook, rules: seq<Rule>, sets: seq<Set>)
    requires RulesOk(rules)
  {
    forall r :: r in rules ==> RuleCode(h, r, sets).Ok? ==> ShortJumps(RuleCode(h, r, sets).value)
  }

  function RulesCode(h: Hook, rules: seq<Rule>, sets: seq<Set>): (c: Result<Code>)
    requires RulesOk(rules)
  {
    if rules == [] then Ok([])
    else match RuleCode(h, rules[0], sets)
      case Err(e) => Err(e)
      case Ok(code) => Append(LinkNext(code), RulesCode(h, rules[1..], sets))
  }

  /** Everything but the subroutine; calls and map descriptors are not linked. */
  function BodyCode(chain: Chain, btf: Btf): (c: Result<Code>)
    requires RulesOk(chain.rules) && Terminal(chain.policy)
  {
    match RulesCode(chain.hook, chain.rules, chain.sets)
    case Err(e) => Err(e)
    case Ok(rules) =>
      Ok(StartCode() + Prologue(chain.hook, btf, |chain.rules| + 1) + rules
         + CountCode(|chain.rules|) + ReturnCode(chain.hook, chain.policy))
  }
}
