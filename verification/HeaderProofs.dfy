/** The L3 and L4 stubs, and the prologue as a whole. */
module HeaderProofs {
  import opened Bytes
  import opened Bpf
  import opened Model
  import opened Machine
  import opened Fragment
  import opened Codegen
  import opened Spec
  import opened Simulation
  import opened SwitchProofs
  import opened MatcherProofs
  import opened SetProofs
  import opened PrologueProofs
  import opened ParserProofs
  import Shape

  // ----- L3 -----

  lemma CaseImm(x: u16)
    ensures Sext64(ToI32(x)) == x
  {
  }

  lemma L3SizeExec(env: Env, st: State, ethertype: u16)
    requires st.regs[7] == Num(Swap16(ethertype))
    ensures Exec(L3SizeSwitch(), 0, env, st) ==
            Off(0, if ethertype == ETH_P_IP then With(st, 4, Num(20))
                   else if ethertype == ETH_P_IPV6 then With(st, 4, Num(40))
                   else With(st, 7, Num(0)))
  {
    hide Exec, Block, SwitchCode, LoadMem, StoreMem, MapLookup, MakeDynptr, Slice, Swap16, ToI32;
    CaseImm(Swap16(ETH_P_IP));
    CaseImm(Swap16(ETH_P_IPV6));
    var a, b := Case(Swap16(ETH_P_IP), [Mov64Imm(4, 20)]), Case(Swap16(ETH_P_IPV6), [Mov64Imm(4, 40)]);
    SwapEq(ethertype, ETH_P_IP);
    SwapEq(ethertype, ETH_P_IPV6);
    Pick2(a, b, Swap16(ethertype));
    BodiesLen2(a, b);
    Block1(Mov64Imm(4, 20), env, st);
    Block1(Mov64Imm(4, 40), env, st);
    Block1(Mov64Imm(7, 0), env, st);
    SwitchExec(7, [a, b], Some([Mov64Imm(7, 0)]), env, st, Swap16(ethertype));
  }

  /** The low nibble times 4, as the code computes it. */
  lemma Ihl(x: byte)
    ensures And(x, 0x0f) == x % 16 && Shl(x % 16, 2) == 4 * (x % 16)
  {
    assert Pow2(4) == 16;
    AndSplit(4, x % 16, x / 16, 15, 0);
    AndOnes(4, x % 16);
    AndZero(x / 16);
    ShlIsMul(x / 16, 4);
    ShlIsMul(0, 4);
    ShlIsMul(x % 16, 2);
    assert Pow2(2) == 4;
  }

  /** The L4 offset is stored and the L4 protocol is in r8. */
  predicate Advanced(st: State, s: State, proto: byte, o: nat)
  {
    && s.depth == st.depth && s.counters == st.counters && s.regs[7] == st.regs[7] && s.regs[10] == st.regs[10]
    && s.regs[8] == Num(proto) && s.frame == Write(st.frame, L4_OFFSET, ByteCells(ToLE(o, 4)))
  }

  /** r1 := r1 + L3 offset, stored as the L4 offset; r8 := the protocol byte. */
  lemma NextTailExec(env: Env, st: State, hdr: seq<byte>, x: nat, off: nat, k: i16) returns (s: State)
    requires st.depth == 0 && st.regs[10] == Ptr(Stack(0), 0) && HdrAt(env, st.frame, st.regs[0], hdr)
    requires x <= 60 && off <= 14 && st.regs[1] == Num(x) && Load(st.frame, L3_OFFSET, 4) == Num(off)
    requires 0 <= k < |hdr|
    ensures Exec(Untagged([Ldx(W, 2, 10, L3_OFFSET), Alu64Reg(Add, 1, 2), Stx(W, 10, 1, L4_OFFSET), Ldx(B, 8, 0, k)]), 0, env, st) == Off(0, s)
    ensures Advanced(st, s, hdr[k], off + x)
  {
    hide Exec, Load, Write, ToLE, HdrAt, Do, LoadMem, ByteCells;
    var insns := [Ldx(W, 2, 10, L3_OFFSET), Alu64Reg(Add, 1, 2), Stx(W, 10, 1, L4_OFFSET), Ldx(B, 8, 0, k)];
    var c := Untagged(insns);
    var s1 := With(st, 2, Num(off));
    LoadStack(env, st, L3_OFFSET, 4);
    Ld(c, 0, env, st, W, 2, 10, L3_OFFSET, Num(off));
    var s2 := With(s1, 1, Num(off + x));
    AluReg(c, 1, env, s1, Add, 1, 2, Num(off + x));
    var s3 := Stored(s2, L4_OFFSET, ToLE(off + x, 4));
    Sto(c, 2, env, s2, W, 1, L4_OFFSET, ByteCells(ToLE(off + x, 4)));
    HdrBelow(env, st.frame, st.regs[0], hdr, ByteCells(ToLE(off + x, 4)));
    LoadHdr(env, s3, s3.regs[0], hdr, k, 1);
    LE1(hdr, k);
    s := With(s3, 8, Num(hdr[k]));
    Ld(c, 3, env, s3, B, 8, 0, k, Num(hdr[k]));
    End(c, env, s);
  }

  lemma HdrBelow(env: Env, f: Frame, p: Value, hdr: seq<byte>, c: seq<Cell>)
    requires HdrAt(env, f, p, hdr) && |c| == 4
    ensures HdrAt(env, Write(f, L4_OFFSET, c), p, hdr)
  {
    hide Write;
    if p.region == Stack(0) {
      WriteOther(f, L4_OFFSET, c, p.off, |hdr|);
    }
  }

  /** IPv4: offset from the IHL nibble, protocol in byte 9. */
  lemma Ip4NextExec(env: Env, st: State, hdr: seq<byte>, off: nat) returns (s: State)
    requires st.depth == 0 && st.regs[10] == Ptr(Stack(0), 0) && |hdr| == 20 && HdrAt(env, st.frame, st.regs[0], hdr)
    requires off <= 14 && Load(st.frame, L3_OFFSET, 4) == Num(off)
    ensures Exec(Untagged(Ip4NextCode()), 0, env, st) == Off(0, s)
    ensures Advanced(st, s, hdr[9], off + 4 * (hdr[0] % 16))
  {
    hide Exec, Load, Write, ToLE, HdrAt, And, Shl, Untagged, LoadMem, StoreMem, MapLookup, MakeDynptr, Slice;
    var a, z := [Ldx(B, 1, 0, 0), Alu64Imm(Conj, 1, 0x0f), Alu64Imm(Lsh, 1, 2)], [Ldx(W, 2, 10, L3_OFFSET), Alu64Reg(Add, 1, 2), Stx(W, 10, 1, L4_OFFSET), Ldx(B, 8, 0, 9)];
    assert Ip4NextCode() == a + z;
    assert Untagged(Ip4NextCode()) == Untagged(a) + Untagged(z);
    LoadHdr(env, st, st.regs[0], hdr, 0, 1);
    LE1(hdr, 0);
    var c := Untagged(a);
    var s1 := With(st, 1, Num(hdr[0]));
    Plain(c, 0, env, st, s1);
    Ihl(hdr[0]);
    var s2 := With(s1, 1, Num(hdr[0] % 16));
    Plain(c, 1, env, s1, s2);
    var s3 := With(s2, 1, Num(4 * (hdr[0] % 16)));
    Plain(c, 2, env, s2, s3);
    End(c, env, s3);
    Seq(c, Untagged(z), env, st, s3);
    s := NextTailExec(env, s3, hdr, 4 * (hdr[0] % 16), off, 9);
  }

  /** IPv6: a fixed header, next header in byte 6. */
  lemma Ip6NextExec(env: Env, st: State, hdr: seq<byte>, off: nat) returns (s: State)
    requires st.depth == 0 && st.regs[10] == Ptr(Stack(0), 0) && |hdr| == 40 && HdrAt(env, st.frame, st.regs[0], hdr)
    requires off <= 14 && Load(st.frame, L3_OFFSET, 4) == Num(off)
    ensures Exec(Untagged(Ip6NextCode()), 0, env, st) == Off(0, s)
    ensures Advanced(st, s, hdr[6], off + 40)
  {
    hide Exec, Load, Write, ToLE, HdrAt, Untagged;
    var a, z := [Mov64Imm(1, 40)], [Ldx(W, 2, 10, L3_OFFSET), Alu64Reg(Add, 1, 2), Stx(W, 10, 1, L4_OFFSET), Ldx(B, 8, 0, 6)];
    assert Ip6NextCode() == a + z;
    assert Untagged(Ip6NextCode()) == Untagged(a) + Untagged(z);
    var c := Untagged(a);
    var s1 := With(st, 1, Num(40));
    Plain(c, 0, env, st, s1);
    End(c, env, s1);
    Seq(c, Untagged(z), env, st, s1);
    s := NextTailExec(env, s1, hdr, 40, off, 6);
  }

  lemma L3NextExec(env: Env, st: State, l3: L3View, off: nat) returns (s: State)
    requires st.depth == 0 && st.regs[10] == Ptr(Stack(0), 0) && st.regs[7] == Num(Swap16(L3Num(l3)))
    requires L3Valid(l3) && !l3.NoL3? && HdrAt(env, st.frame, st.regs[0], l3.hdr)
    requires off <= 14 && Load(st.frame, L3_OFFSET, 4) == Num(off)
    ensures Exec(L3NextSwitch(), 0, env, st) == Off(0, s)
    ensures Advanced(st, s, AfterL3(l3, off).0, AfterL3(l3, off).1)
  {
    hide Exec, Load, Write, ToLE, HdrAt, Block, SwitchCode, Do, ToI32, Ip4NextCode, Ip6NextCode;
    CaseImm(Swap16(ETH_P_IP));
    CaseImm(Swap16(ETH_P_IPV6));
    var a, b := Case(Swap16(ETH_P_IP), Ip4NextCode()), Case(Swap16(ETH_P_IPV6), Ip6NextCode());
    var x := Swap16(L3Num(l3));
    NextPlain();
    Pick2(a, b, x);
    BodiesLen2(a, b);
    SwitchExec(7, [a, b], None, env, st, x);
    if l3.Ip4? {
      s := Ip4NextExec(env, st, l3.hdr, off);
      BlockExec(Ip4NextCode(), env, st);
    } else {
      s := Ip6NextExec(env, st, l3.hdr, off);
      BlockExec(Ip6NextCode(), env, st);
    }
  }

  lemma NextPlain()
    ensures AllPlain(Ip4NextCode()) && AllPlain(Ip6NextCode()) && |Ip4NextCode()| == 7 && |Ip6NextCode()| == 5
  {
  }

  /** After the L3 stub. */
  predicate L3Done(env: Env, st: State, l3: L3View, off: nat)
  {
    && L3Valid(l3) && st.depth == 0 && st.regs[10] == Ptr(Stack(0), 0) && HasDynptr(st.frame)
    && PacketSize(env) < TWO64 && Load(st.frame, PKT_SIZE, 8) == Num(PacketSize(env))
    && Load(st.frame, IFINDEX, 2) == Num(PacketIfindex(env) % 0x1_0000)
    && st.regs[7] == Num(Swap16(L3Num(l3))) && st.regs[8] == Num(AfterL3(l3, off).0)
    && AfterL3(l3, off).1 < 0x1_0000_0000
    && (!l3.NoL3? ==>
          Load(st.frame, L4_OFFSET, 4) == Num(AfterL3(l3, off).1) && Load(st.frame, L3_HDR, 8) == SlicePtr(env, off, L2)
          && HdrAt(env, st.frame, SlicePtr(env, off, L2), l3.hdr))
  }

  lemma L3BodyExec(env: Env, slot: u32, st: State, l3: L3View, off: nat, len: byte)
    requires Ready(env, st) && HasDynptr(st.frame) && off <= 14 && Located(env, st, L3Num(l3), off)
    requires st.regs[4] == Num(len) && len <= 40 && Fits(env.packet, off, len)
    requires L3Valid(l3) && !l3.NoL3? && l3.hdr == env.packet[off..off + len]
    ensures var x := Exec(SliceStub(env.hook, slot, L3_OFFSET, L2, L3_HDR) + L3NextSwitch(), 0, env, st);
            x.Off? && x.k == 0 && L3Done(env, x.st, l3, off) && x.st.counters == st.counters
  {
    hide Exec, Load, Write, ToLE, HdrAt, HasDynptr, SliceStub, L3NextSwitch, HeaderFrame, SlicePtr, Bump;
    var a, b := SliceStub(env.hook, slot, L3_OFFSET, L2, L3_HDR), L3NextSwitch();
    var f := HeaderFrame(env, st.frame, off, len, L2, L3_HDR);
    SliceStubExec(env, slot, st, L3_OFFSET, L2, L3_HDR, off, len);
    var s1 := st.(regs := Clobber(st.regs, SlicePtr(env, off, L2)), frame := f);
    Seq(a, b, env, st, s1);
    HeaderSelf(env, st.frame, off, len, L2, L3_HDR);
    HeaderOtherLoad(env, st.frame, off, len, L2, L3_HDR, L3_OFFSET, 4);
    var s2 := L3NextExec(env, s1, l3, off);
    L3Slots(env, st.frame, off, len, AfterL3(l3, off).1);
    HdrBelow(env, f, SlicePtr(env, off, L2), l3.hdr, ByteCells(ToLE(AfterL3(l3, off).1, 4)));
  }

  lemma L3Slots(env: Env, f: Frame, off: nat, len: byte, o: u32)
    requires Fits(env.packet, off, len) && len <= 40
    ensures var h := HeaderFrame(env, f, off, len, L2, L3_HDR);
            var g := Write(h, L4_OFFSET, ByteCells(ToLE(o, 4)));
            Load(g, PKT_SIZE, 8) == Load(f, PKT_SIZE, 8) && Load(g, IFINDEX, 2) == Load(f, IFINDEX, 2)
            && Load(g, L4_OFFSET, 4) == Num(o) && Load(g, L3_HDR, 8) == Load(h, L3_HDR, 8) && (HasDynptr(f) ==> HasDynptr(g))
  {
    hide Load, Write, ToLE, ByteCells, HeaderFrame, Dynptr;
    var h, c := HeaderFrame(env, f, off, len, L2, L3_HDR), ByteCells(ToLE(o, 4));
    HeaderOtherLoad(env, f, off, len, L2, L3_HDR, PKT_SIZE, 8);
    HeaderOtherLoad(env, f, off, len, L2, L3_HDR, IFINDEX, 2);
    HeaderOther(env, f, off, len, L2, L3_HDR, DYNPTR, 16);
    OtherSlot(h, L4_OFFSET, c, PKT_SIZE, 8);
    OtherSlot(h, L4_OFFSET, c, IFINDEX, 2);
    OtherSlot(h, L4_OFFSET, c, L3_HDR, 8);
    WriteOther(h, L4_OFFSET, c, DYNPTR, 16);
    assert Pow256(4) == 0x1_0000_0000;
    NumOfToLE(o, 4);
    WrittenSlot(h, L4_OFFSET, ToLE(o, 4));
  }

  lemma BodyLens(h: Hook, slot: int)
    ensures |SliceStub(h, slot, L3_OFFSET, L2, L3_HDR) + L3NextSwitch()| < 0x8000
  {
    hide SliceStub, SwitchCode;
    Shape.NextLen();
  }

  lemma L3Exec(env: Env, slot: u32, st: State, ethertype: u16, off: nat)
    requires Ready(env, st) && HasDynptr(st.frame) && off <= 14 && Located(env, st, ethertype, off)
    ensures var x := Exec(L3Stub(env.hook, slot), 0, env, st);
            match ParseL3(env.packet, off, ethertype)
            case None => Failed(env, st, slot, x)
            case Some(l3) => x.Off? && x.k == 0 && L3Done(env, x.st, l3, off) && x.st.counters == st.counters
  {
    hide Exec, Load, HdrAt, HasDynptr, SliceStub, L3NextSwitch, L3SizeSwitch, Bump, ToI16, SlicePtr;
    var a, b := SliceStub(env.hook, slot, L3_OFFSET, L2, L3_HDR), L3NextSwitch();
    var w, j := L3SizeSwitch(), [T(JmpImm(Jeq, 7, 0, ToI16(|a + b|)))];
    BodyLens(env.hook, slot);
    Assoc(w, j, a + b);
    L3SizeExec(env, st, ethertype);
    var known := ethertype == ETH_P_IP || ethertype == ETH_P_IPV6;
    var len: byte := if ethertype == ETH_P_IP then 20 else 40;
    var s1 := if known then With(st, 4, Num(len)) else With(st, 7, Num(0));
    Seq(w, j + (a + b), env, st, s1);
    var c := j + (a + b);
    Jumps(c, 0, env, s1, !known);
    if !known {
      End(c, env, s1);
    } else {
      ExecShift(j, a + b, 1, env, s1);
      if Fits(env.packet, off, len) {
        L3BodyExec(env, slot, s1, ParseL3(env.packet, off, ethertype).value, off, len);
      } else {
        SliceStubExec(env, slot, s1, L3_OFFSET, L2, L3_HDR, off, len);
        SeqOut(a, b, env, s1);
      }
    }
  }

  // ----- L4 -----

  lemma L4SizeExec(env: Env, st: State, proto: byte)
    requires st.regs[8] == Num(proto)
    ensures Exec(L4SizeSwitch(), 0, env, st) ==
            Off(0, if L4Len(proto) > 0 then With(st, 4, Num(L4Len(proto))) else With(st, 8, Num(0)))
  {
    hide Exec, Block, SwitchCode, Pick, BodiesLen, LoadMem, StoreMem, MapLookup, MakeDynptr, Slice;
    var cases := [Case(IPPROTO_TCP, [Mov64Imm(4, 20)]), Case(IPPROTO_UDP, [Mov64Imm(4, 8)]),
                  Case(IPPROTO_ICMP, [Mov64Imm(4, 8)]), Case(IPPROTO_ICMPV6, [Mov64Imm(4, 8)])];
    var d := Some([Mov64Imm(8, 0)]);
    L4CasesOk(cases);
    Block1(Mov64Imm(4, 20), env, st);
    Block1(Mov64Imm(4, 8), env, st);
    Block1(Mov64Imm(8, 0), env, st);
    assert SwitchOk(cases, d);
    assert Chosen(cases, d, proto) == if L4Len(proto) > 0 then [Mov64Imm(4, L4Len(proto))] else [Mov64Imm(8, 0)] by {
      var p := Pick(cases, proto);
      if p.None? {
        assert Sext64(ToI32(cases[0].imm)) != proto && Sext64(ToI32(cases[1].imm)) != proto;
        assert Sext64(ToI32(cases[2].imm)) != proto && Sext64(ToI32(cases[3].imm)) != proto;
      }
    }
    SwitchExec(8, cases, d, env, st, proto);
  }

  lemma L4CasesOk(cases: seq<Case>)
    requires |cases| == 4 && forall c :: c in cases ==> |c.body| == 1
    ensures BodiesLen(cases) == 8
  {
    assert cases[1..][1..] == cases[2..];
    assert cases[2..][1..] == cases[3..];
    assert cases[3..][1..] == [];
    assert BodiesLen(cases[3..]) == 2;
    assert BodiesLen(cases[2..]) == 4;
  }

  lemma L4Exec(env: Env, slot: u32, st: State, l3: L3View, off: nat)
    requires L3Done(env, st, l3, off) && off <= 14
    ensures var x := Exec(L4Stub(env.hook, slot), 0, env, st);
            match ParseL4(env.packet, AfterL3(l3, off).1, AfterL3(l3, off).0)
            case None => Failed(env, st, slot, x)
            case Some(l4) =>
              x.Off? && x.k == 0 && x.st.counters == st.counters
              && Holds(env, View(l3, l4, PacketIfindex(env), PacketSize(env)), x.st)
  {
    hide Exec, Load, HdrAt, HasDynptr, SliceStub, L4SizeSwitch, Bump, ToI16, HeaderFrame;
    var a := SliceStub(env.hook, slot, L4_OFFSET, L4, L4_HDR);
    var w, j := L4SizeSwitch(), [T(JmpImm(Jeq, 8, 0, ToI16(|a|)))];
    var proto, o := AfterL3(l3, off).0, AfterL3(l3, off).1;
    var len := L4Len(proto);
    Assoc(w, j, a);
    L4SizeExec(env, st, proto);
    var s1 := if len > 0 then With(st, 4, Num(len)) else With(st, 8, Num(0));
    Seq(w, j + a, env, st, s1);
    var c := j + a;
    Jumps(c, 0, env, s1, len == 0);
    if len == 0 {
      End(c, env, s1);
    } else {
      ExecShift(j, a, 1, env, s1);
      SliceStubExec(env, slot, s1, L4_OFFSET, L4, L4_HDR, o, len);
      if Fits(env.packet, o, len) {
        L4Slots(env, st.frame, l3, off, o, len);
      }
    }
  }

  /** The L4 header's buffer is away from what the context holds so far. */
  lemma L4Slots(env: Env, f: Frame, l3: L3View, off: nat, o: nat, len: nat)
    requires Fits(env.packet, o, len) && len <= 20 && L3Valid(l3) && !l3.NoL3?
    requires HdrAt(env, f, SlicePtr(env, off, L2), l3.hdr) && Load(f, L3_HDR, 8) == SlicePtr(env, off, L2)
    ensures var g := HeaderFrame(env, f, o, len, L4, L4_HDR);
            Load(g, PKT_SIZE, 8) == Load(f, PKT_SIZE, 8) && Load(g, IFINDEX, 2) == Load(f, IFINDEX, 2)
            && HdrAt(env, g, Load(g, L3_HDR, 8), l3.hdr) && HdrAt(env, g, Load(g, L4_HDR, 8), env.packet[o..o + len])
  {
    hide Load, HeaderFrame;
    HeaderOtherLoad(env, f, o, len, L4, L4_HDR, PKT_SIZE, 8);
    HeaderOtherLoad(env, f, o, len, L4, L4_HDR, IFINDEX, 2);
    HeaderOtherLoad(env, f, o, len, L4, L4_HDR, L3_HDR, 8);
    HeaderSelf(env, f, o, len, L4, L4_HDR);
    HeaderOther(env, f, o, len, L4, L4_HDR, L2, |l3.hdr|);
  }

  // ----- the prologue -----

  lemma StartExec(env: Env, st: State) returns (s: State)
    requires st.depth == 0 && st.regs[10] == Ptr(Stack(0), 0) && st.regs[1] == Ptr(Ctx, 0)
    ensures Exec(StartCode(), 0, env, st) == Off(0, s)
    ensures Fresh(s) && s.counters == st.counters
  {
    hide Exec, Write, Fragments;
    var c := StartCode();
    var s1 := st.(frame := Write(st.frame, ARG, Fragments(st.regs[1])));
    Plain(c, 0, env, st, s1);
    var s2 := With(s1, 7, Num(0));
    Plain(c, 1, env, s1, s2);
    s := With(s2, 8, Num(0));
    Plain(c, 2, env, s2, s);
    End(c, env, s);
  }

  lemma L2OrNotExec(env: Env, slot: u32, st: State)
    requires Ready(env, st) && HasDynptr(st.frame) && EnvOk(env)
    requires !HasL2(env.hook) ==> Located(env, st, FamilyProto(env.family), 0)
    ensures var x := Exec(if HasL2(env.hook) then L2Stub(env.hook, slot) else [], 0, env, st);
            match L3Start(env)
            case None => Failed(env, st, slot, x)
            case Some(start) =>
              x.Off? && x.k == 0 && Ready(env, x.st) && HasDynptr(x.st.frame) && x.st.counters == st.counters
              && Located(env, x.st, start.0, start.1)
  {
    hide Exec, L2Stub, Ready, HasDynptr, Located, Bump;
    if HasL2(env.hook) {
      L2Exec(env, slot, st);
    } else {
      End([], env, st);
    }
  }

  /** From the dynptr on. */
  lemma HeadersExec(env: Env, slot: u32, st: State, s0: State)
    requires EnvOk(env) && Started(env, s0, st)
    ensures var c := DynptrStub(env.hook, slot) + ((if HasL2(env.hook) then L2Stub(env.hook, slot) else []) + (L3Stub(env.hook, slot) + L4Stub(env.hook, slot)));
            var x := Exec(c, 0, env, st);
            match Parse(env)
            case None => Failed(env, st, slot, x)
            case Some(v) => x.Off? && x.k == 0 && x.st.counters == st.counters && Holds(env, v, x.st)
  {
    hide Exec, Ready, Located, L3Done, Holds, HasDynptr, DynptrStub, L2Stub, L3Stub, L4Stub, Load, Bump, AfterL3, ParseL3, ParseL4;
    var d, b, c, e := DynptrStub(env.hook, slot), if HasL2(env.hook) then L2Stub(env.hook, slot) else [], L3Stub(env.hook, slot), L4Stub(env.hook, slot);
    DynptrExec(env, slot, st, s0);
    if !env.dynptrOk {
      SeqOut(d, b + (c + e), env, st);
      return;
    }
    var s1 := Exec(d, 0, env, st).st;
    Seq(d, b + (c + e), env, st, s1);
    LocatedKept(env, st, s1);
    L2OrNotExec(env, slot, s1);
    var start := L3Start(env);
    if start.None? {
      SeqOut(b, c + e, env, s1);
      return;
    }
    var et, off := start.value.0, start.value.1;
    var s2 := Exec(b, 0, env, s1).st;
    Seq(b, c + e, env, s1, s2);
    L3Exec(env, slot, s2, et, off);
    var l3 := ParseL3(env.packet, off, et);
    if l3.None? {
      SeqOut(c, e, env, s2);
      return;
    }
    var s3 := Exec(c, 0, env, s2).st;
    Seq(c, e, env, s2, s3);
    L4Exec(env, slot, s3, l3.value, off);
  }

  lemma LocatedKept(env: Env, s: State, t: State)
    requires t.regs[7] == s.regs[7] && Load(t.frame, L3_OFFSET, 4) == Load(s.frame, L3_OFFSET, 4)
    ensures !HasL2(env.hook) && Located(env, s, FamilyProto(env.family), 0) ==> Located(env, t, FamilyProto(env.family), 0)
  {
  }

  /**
   * After the prologue the machine holds the view a simple byte parser gives, or the program has
   * accepted the packet on the error counter because the parser rejects it.
   */
  lemma PrologueExec(env: Env, slot: u32, st: State)
    requires EnvOk(env) && st.depth == 0 && st.regs[10] == Ptr(Stack(0), 0) && st.regs[1] == Ptr(Ctx, 0)
    ensures var x := Exec(StartCode() + Prologue(env.hook, env.btf, slot), 0, env, st);
            PacketSize(env) < TWO64 &&
            match Parse(env)
            case None => Failed(env, st, slot, x)
            case Some(v) => x.Off? && x.k == 0 && x.st.counters == st.counters && Holds(env, v, x.st)
  {
    hide Exec, Started, Holds, DynptrStub, L2Stub, L3Stub, L4Stub, HookPrologue, StartCode, Parse, EnvOk, Bump;
    SizeFits(env);
    var h := HookPrologue(env.hook, env.btf);
    var d, b, c, e := DynptrStub(env.hook, slot), if HasL2(env.hook) then L2Stub(env.hook, slot) else [], L3Stub(env.hook, slot), L4Stub(env.hook, slot);
    var z := d + (b + (c + e));
    assert Prologue(env.hook, env.btf, slot) == h + z by {
      Assoc(h + d, b, c);
      Assoc(h + d, b + c, e);
      Assoc(b, c, e);
      Assoc(h, d, b + (c + e));
    }
    var s0 := StartExec(env, st);
    Seq(StartCode(), h + z, env, st, s0);
    var s1 := HookExec(env, s0);
    Seq(h, z, env, s0, s1);
    StartedCounters(env, s0, s1);
    HeadersExec(env, slot, s1, s0);
  }

  lemma StartedCounters(env: Env, st: State, s: State)
    requires Started(env, st, s)
    ensures s.counters == st.counters
  {
  }

  lemma SizeFits(env: Env)
    requires EnvOk(env)
    ensures PacketSize(env) < TWO64
  {
  }
}
