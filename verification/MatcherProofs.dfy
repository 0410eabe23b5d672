/** The code of every matcher decides what `Accepts` says. */
module MatcherProofs {
  import opened Bytes
  import opened Bpf
  import opened Model
  import opened Machine
  import opened Fragment
  import opened Codegen
  import opened Spec
  import opened Simulation
  import opened SwitchProofs

  // ----- common pieces -----

  lemma SwapEq(a: u16, b: u16)
    ensures Swap16(a) == Swap16(b) <==> a == b
  {
    SwapSwap(a);
    SwapSwap(b);
  }

  lemma GuardL3Exec(proto: u16, env: Env, v: View, st: State)
    requires Holds(env, v, st)
    ensures Exec(GuardL3(proto), 0, env, st) ==
            if L3Num(v.l3) == proto then Off(0, With(st, 6, Load(st.frame, L3_HDR, 8))) else Next(st)
  {
    hide Exec, Load, HdrAt;
    var c := GuardL3(proto);
    SwapEq(L3Num(v.l3), proto);
    Leaves(c, 0, env, st, L3Num(v.l3) != proto);
    if L3Num(v.l3) == proto {
      var s := With(st, 6, Load(st.frame, L3_HDR, 8));
      Plain(c, 1, env, st, s);
      End(c, env, s);
    }
  }

  lemma GuardL4Exec(proto: byte, env: Env, v: View, st: State)
    requires Holds(env, v, st)
    ensures Exec(GuardL4(proto), 0, env, st) ==
            if L4Num(v.l4) == proto then Off(0, With(st, 6, Load(st.frame, L4_HDR, 8))) else Next(st)
  {
    hide Exec, Load, HdrAt;
    var c := GuardL4(proto);
    Leaves(c, 0, env, st, L4Num(v.l4) != proto);
    if L4Num(v.l4) == proto {
      var s := With(st, 6, Load(st.frame, L4_HDR, 8));
      Plain(c, 1, env, st, s);
      End(c, env, s);
    }
  }

  /** Load of a header field into a register. */
  lemma FieldExec(size: Size, d: Reg, r: Reg, k: i16, env: Env, st: State, bytes: seq<byte>)
    requires d != 10 && st.depth == 0 && HdrAt(env, st.frame, st.regs[r], bytes) && 0 <= k && k + size.Len() <= |bytes|
    ensures Exec([T(Ldx(size, d, r, k))], 0, env, st) == Off(0, With(st, d, NumOf(bytes[k..k + size.Len()])))
  {
    hide Exec, HdrAt, LoadMem;
    var c := [T(Ldx(size, d, r, k))];
    LoadHdr(env, st, st.regs[r], bytes, k, size.Len());
    var s := With(st, d, NumOf(bytes[k..k + size.Len()]));
    Plain(c, 0, env, st, s);
    End(c, env, s);
  }

  /** A port in network order in r1 against the payload. */
  lemma PortTestExec(op: MatcherOp, p: seq<byte>, port: u16, env: Env, st: State)
    requires |p| >= if op == Range then 4 else 2
    requires PortTest(op, p).Ok? && st.regs[1] == Num(Swap16(port))
    ensures Exec(PortTest(op, p).value, 0, env, st) == if PortCmp(op, p, port) then Off(0, st) else Next(st)
  {
    hide Exec, U16At;
    var c := PortTest(op, p).value;
    var w := Swap16(port);
    var lo := U16At(p, 0);
    SwapEq(port, lo);
    if op == Range {
      var hi := U16At(p, 2);
      Leaves(c, 0, env, st, w < Swap16(lo));
      Leaves(c, 1, env, st, w > Swap16(hi));
    } else {
      Leaves(c, 0, env, st, (op == Eq) != (port == lo));
    }
    End(c, env, st);
  }

  lemma L4PortExec(m: Matcher, env: Env, keys: set<seq<byte>>, v: View, st: State)
    requires PayloadOk(m) && Holds(env, v, st) && m.kind in {TcpSport, TcpDport, UdpSport, UdpDport}
    requires L4Code(m).Ok?
    ensures Decided(st, Exec(L4Code(m).value, 0, env, st), Accepts(m, keys, v))
  {
    hide Exec, HdrAt, Load, PortTest, U16At, PortCmp;
    var a, l, t := GuardL4(PortProto(m.kind)), [T(Ldx(H, 1, 6, PortOff(m.kind)))], PortTest(m.op, m.payload).value;
    assert L4Code(m).value == a + l + t;
    GuardL4Exec(PortProto(m.kind), env, v, st);
    if L4Num(v.l4) == PortProto(m.kind) {
      var s := With(st, 6, Load(st.frame, L4_HDR, 8));
      Seq(a, l, env, st, s);
      FieldExec(H, 1, 6, PortOff(m.kind), env, s, v.l4.hdr);
      LEIsSwappedBE(v.l4.hdr[PortOff(m.kind)..PortOff(m.kind) + 2]);
      var port := PortAt(v.l4.hdr, PortOff(m.kind));
      var s2 := With(s, 1, Num(Swap16(port)));
      Seq(a + l, t, env, st, s2);
      PortTestExec(m.op, m.payload, port, env, s2);
    } else {
      SeqOut(a, l, env, st);
      SeqOut(a + l, t, env, st);
    }
  }

  lemma L4FlagsExec(m: Matcher, env: Env, keys: set<seq<byte>>, v: View, st: State)
    requires PayloadOk(m) && Holds(env, v, st) && m.kind == TcpFlags
    requires L4Code(m).Ok?
    ensures Decided(st, Exec(L4Code(m).value, 0, env, st), Accepts(m, keys, v))
  {
    hide Exec, HdrAt, Load, FlagsTest, FlagsCmp;
    var a, l, t := GuardL4(IPPROTO_TCP), [T(Ldx(B, 1, 6, 13))], FlagsTest(m.op, m.payload[0]).value;
    assert L4Code(m).value == a + l + t;
    GuardL4Exec(IPPROTO_TCP, env, v, st);
    if L4Num(v.l4) == IPPROTO_TCP {
      var s := With(st, 6, Load(st.frame, L4_HDR, 8));
      Seq(a, l, env, st, s);
      FieldExec(B, 1, 6, 13, env, s, v.l4.hdr);
      LE1(v.l4.hdr, 13);
      var s2 := With(s, 1, Num(v.l4.hdr[13]));
      Seq(a + l, t, env, st, s2);
      FlagsTestExec(m.op, m.payload[0], v.l4.hdr[13], env, s2);
    } else {
      SeqOut(a, l, env, st);
      SeqOut(a + l, t, env, st);
    }
  }

  lemma LE1(bs: seq<byte>, k: nat)
    requires k < |bs|
    ensures LE(bs[k..k + 1]) == bs[k]
  {
    assert bs[k..k + 1] == [bs[k]];
    assert [bs[k]][1..] == [];
  }

  lemma FlagsTestExec(op: MatcherOp, want: byte, flags: byte, env: Env, st: State)
    requires FlagsTest(op, want).Ok? && st.regs[1] == Num(flags)
    ensures Decided(st, Exec(FlagsTest(op, want).value, 0, env, st), FlagsCmp(op, want, flags))
  {
    hide Exec, And;
    var c := FlagsTest(op, want).value;
    if op == Eq || op == Ne {
      Leaves(c, 0, env, st, (op == Eq) != (flags == want));
      End(c, env, st);
    } else {
      var s := With(st, 1, Num(And(flags, want)));
      Plain(c, 0, env, st, s);
      Leaves(c, 1, env, s, !FlagsCmp(op, want, flags));
      End(c, env, s);
    }
  }

  // ----- meta -----

  lemma SextEq(x: u32, y: u16)
    ensures Sext64(ToI32(x)) == y <==> x == y
  {
  }

  lemma IfindexExec(m: Matcher, env: Env, keys: set<seq<byte>>, v: View, st: State)
    requires PayloadOk(m) && Holds(env, v, st) && m.kind == MetaIfindex
    ensures MetaCode(m).Ok?
    ensures Decided(st, Exec(MetaCode(m).value, 0, env, st), Accepts(m, keys, v))
  {
    hide Exec, HdrAt, Load, ToI32, Sext64, U32At, LoadMem;
    var c := MetaCode(m).value;
    var x: u16 := v.ifindex % 0x1_0000;
    var s := With(st, 1, Num(x));
    LoadSlot(st, env, IFINDEX, 2);
    Plain(c, 0, env, st, s);
    SextEq(U32At(m.payload, 0), x);
    Leaves(c, 1, env, s, !Accepts(m, keys, v));
    End(c, env, s);
  }

  lemma ProtoExec(m: Matcher, env: Env, keys: set<seq<byte>>, v: View, st: State)
    requires PayloadOk(m) && Holds(env, v, st) && m.kind in {MetaL3Proto, MetaL4Proto}
    ensures MetaCode(m).Ok?
    ensures Decided(st, Exec(MetaCode(m).value, 0, env, st), Accepts(m, keys, v))
  {
    hide Exec, HdrAt, Load, Sext64, U16At;
    var c := MetaCode(m).value;
    if m.kind == MetaL3Proto {
      SwapEq(L3Num(v.l3), U16At(m.payload, 0));
      SextSmall(Swap16(U16At(m.payload, 0)));
    } else {
      SextSmall(m.payload[0]);
    }
    Leaves(c, 0, env, st, !Accepts(m, keys, v));
    End(c, env, st);
  }

  lemma SextSmall(x: u16)
    ensures Sext64(x) == x
  {
  }

  /** The port of a TCP or UDP packet in r1, or 0. */
  lemma PortSwitchExec(off: i16, env: Env, v: View, st: State)
    requires Holds(env, v, st) && (off == 0 || off == 2)
    ensures var o := Exec(PortSwitch(off), 0, env, st);
            var port := if IsPortProto(v.l4) then PortAt(v.l4.hdr, off) else 0;
            var s := With(With(st, 6, Load(st.frame, L4_HDR, 8)), 1, Num(Swap16(port)));
            o == if port == 0 then Next(s) else Off(0, s)
  {
    hide Exec, HdrAt, Load, SwitchCode, LoadMem, PortAt;
    var tcp, udp := Case(IPPROTO_TCP, [Ldx(H, 1, 6, off)]), Case(IPPROTO_UDP, [Ldx(H, 1, 6, off)]);
    var cases, d := [tcp, udp], [Mov64Imm(1, 0)];
    var a, w, z := [T(Ldx(DW, 6, 10, L4_HDR))], SwitchCode(8, cases, Some(d)), [N(JmpImm(Jeq, 1, 0, 0))];
    var port := if IsPortProto(v.l4) then PortAt(v.l4.hdr, off) else 0;
    var s1 := With(st, 6, Load(st.frame, L4_HDR, 8));
    var s2 := With(s1, 1, Num(Swap16(port)));
    assert Exec(a, 0, env, st) == Off(0, s1) by {
      LoadSlot(st, env, L4_HDR, 8);
      Plain(a, 0, env, st, s1);
      End(a, env, s1);
    }
    Seq(a, w, env, st, s1);
    PortCasesExec(off, env, v, s1);
    Seq(a + w, z, env, st, s2);
    Leaves(z, 0, env, s2, port == 0);
    End(z, env, s2);
  }

  lemma PortCasesExec(off: i16, env: Env, v: View, st: State)
    requires ViewOk(v) && st.depth == 0 && st.regs[8] == Num(L4Num(v.l4)) && (off == 0 || off == 2)
    requires IsPortProto(v.l4) ==> HdrAt(env, st.frame, st.regs[6], v.l4.hdr)
    ensures var cases := [Case(IPPROTO_TCP, [Ldx(H, 1, 6, off)]), Case(IPPROTO_UDP, [Ldx(H, 1, 6, off)])];
            Exec(SwitchCode(8, cases, Some([Mov64Imm(1, 0)])), 0, env, st) ==
            Off(0, With(st, 1, Num(Swap16(if IsPortProto(v.l4) then PortAt(v.l4.hdr, off) else 0))))
  {
    hide Exec, HdrAt, Block, SwitchCode, Chosen, LoadMem, SwitchOk;
    var cases, d := [Case(IPPROTO_TCP, [Ldx(H, 1, 6, off)]), Case(IPPROTO_UDP, [Ldx(H, 1, 6, off)])], [Mov64Imm(1, 0)];
    PortCases(off, env, st, L4Num(v.l4));
    SwitchExec(8, cases, Some(d), env, st, L4Num(v.l4));
    if IsPortProto(v.l4) {
      LoadHdr(env, st, st.regs[6], v.l4.hdr, off, 2);
      LEIsSwappedBE(v.l4.hdr[off..off + 2]);
    }
  }

  lemma LoadSlot(st: State, env: Env, off: i16, n: nat)
    requires st.regs[10] == Ptr(Stack(0), 0) && st.depth == 0 && 1 <= n <= 8 && OnStack(off, n)
    ensures LoadMem(env, st, st.regs[10], off, n) == Some(Load(st.frame, off, n))
  {
  }

  lemma PortCases(off: i16, env: Env, st: State, x: byte)
    ensures var tcp, udp := Case(IPPROTO_TCP, [Ldx(H, 1, 6, off)]), Case(IPPROTO_UDP, [Ldx(H, 1, 6, off)]);
            var i := if x == IPPROTO_TCP || x == IPPROTO_UDP then Ldx(H, 1, 6, off) else Mov64Imm(1, 0);
            SwitchOk([tcp, udp], Some([Mov64Imm(1, 0)]))
            && Chosen([tcp, udp], Some([Mov64Imm(1, 0)]), x) == [i] && AllPlain([i])
            && Block([i], env, st) == Do(i, env, st)
  {
    hide Do, Block;
    var tcp, udp := Case(IPPROTO_TCP, [Ldx(H, 1, 6, off)]), Case(IPPROTO_UDP, [Ldx(H, 1, 6, off)]);
    Pick2(tcp, udp, x);
    BodiesLen2(tcp, udp);
    Block1(if x == IPPROTO_TCP || x == IPPROTO_UDP then Ldx(H, 1, 6, off) else Mov64Imm(1, 0), env, st);
  }

  lemma BodiesLen2(a: Case, b: Case)
    ensures BodiesLen([a, b]) == |a.body| + |b.body| + 2
  {
    assert [a, b][1..] == [b];
    assert [b][1..] == [];
    assert BodiesLen([b]) == |b.body| + 1;
  }

  lemma MetaPortExec(m: Matcher, env: Env, keys: set<seq<byte>>, v: View, st: State)
    requires PayloadOk(m) && Holds(env, v, st) && m.kind in {MetaSport, MetaDport} && MetaCode(m).Ok?
    ensures Decided(st, Exec(MetaCode(m).value, 0, env, st), Accepts(m, keys, v))
  {
    hide Exec, HdrAt, Load, PortSwitch, PortTest, PortCmp, PortAt;
    var a, t := PortSwitch(PortOff(m.kind)), PortTest(m.op, m.payload).value;
    assert MetaCode(m).value == a + t;
    PortSwitchExec(PortOff(m.kind), env, v, st);
    var port := if IsPortProto(v.l4) then PortAt(v.l4.hdr, PortOff(m.kind)) else 0;
    var s := With(With(st, 6, Load(st.frame, L4_HDR, 8)), 1, Num(Swap16(port)));
    if port == 0 {
      SeqOut(a, t, env, st);
    } else {
      Seq(a, t, env, st, s);
      PortTestExec(m.op, m.payload, port, env, s);
    }
  }

  // ----- IPv4 -----

  /** Unsigned value of a 32-bit immediate. */
  lemma ZextU32(x: u32)
    ensures Zext32(ToI32(x)) == x
  {
  }

  lemma Ip4MaskExec(mask: u32, a: u32, b: u32, env: Env, st: State)
    requires st.regs[1] == Num(a) && st.regs[2] == Num(b)
    ensures Exec(Ip4MaskCode(mask), 0, env, st) ==
            Off(0, With(With(With(st, 3, Num(mask)), 1, Num(And(a, mask))), 2, Num(And(b, mask))))
  {
    hide Exec, And, ToI32, Zext32, Or, Shl, LoadMem, StoreMem, MapLookup, MakeDynptr, Slice;
    var c := Ip4MaskCode(mask);
    ZextU32(mask);
    var s1 := With(st, 3, Num(mask));
    Plain(c, 0, env, st, s1);
    var s2 := With(s1, 1, Num(And(a, mask)));
    AndReg(c, 1, env, s1, 1, a, mask);
    var s3 := With(s2, 2, Num(And(b, mask)));
    AndReg(c, 2, env, s2, 2, b, mask);
    End(c, env, s3);
  }

  lemma AndReg(c: Code, i: nat, env: Env, st: State, d: Reg, a: u32, mask: u32)
    requires i < |c| && c[i] == T(Alu32Reg(Conj, d, 3)) && d < 3 && st.regs[d] == Num(a) && st.regs[3] == Num(mask)
    ensures Exec(c, i, env, st) == Exec(c, i + 1, env, With(st, d, Num(And(a, mask))))
  {
    hide Exec, And;
    Plain(c, i, env, st, With(st, d, Num(And(a, mask))));
  }

  /** 32-bit masked comparison is the bytewise one; an all-ones mask changes nothing. */
  lemma MaskedEq32(x: seq<byte>, addr: seq<byte>, mask: seq<byte>)
    requires |x| == |addr| == |mask| == 4
    ensures MaskedEq(x, addr, mask) <==> And(LE(x), LE(mask)) == And(LE(addr), LE(mask))
    ensures LE(mask) == 0xffff_ffff ==> (MaskedEq(x, addr, mask) <==> LE(x) == LE(addr))
  {
    hide LE, And;
    AndLE(x, mask);
    AndLE(addr, mask);
    if LE(AndBytes(x, mask)) == LE(AndBytes(addr, mask)) {
      LEInjective(AndBytes(x, mask), AndBytes(addr, mask));
    }
    if LE(mask) == 0xffff_ffff {
      Ones32();
      LEInjective(mask, [0xff, 0xff, 0xff, 0xff]);
      AndBytesOnes(x, mask);
      AndBytesOnes(addr, mask);
      if LE(x) == LE(addr) {
        LEInjective(x, addr);
      }
    }
  }

  lemma Ones32()
    ensures LE([0xff, 0xff, 0xff, 0xff]) == 0xffff_ffff
  {
    var b: seq<byte> := [0xff, 0xff, 0xff, 0xff];
    LE2(b[..2]);
    LE2(b[2..]);
    assert b == b[..2] + b[2..];
    LEAppend(b[..2], b[2..]);
    assert ShlBytes(0xffff, 2) == 0xffff_0000;
  }

  lemma AndBytesOnes(x: seq<byte>, mask: seq<byte>)
    requires |x| == |mask| && forall i :: 0 <= i < |mask| ==> mask[i] == 0xff
    ensures AndBytes(x, mask) == x
  {
    hide And;
    forall i | 0 <= i < |x| ensures AndBytes(x, mask)[i] == x[i] {
      AndAllOnes(x[i]);
    }
  }

  /** The address of an IPv4 packet in r1 against the payload. */
  lemma Ip4AddrExec(m: Matcher, env: Env, st: State, hdr: seq<byte>)
    requires |m.payload| >= 8 && m.kind in {Ip4SrcAddr, Ip4DstAddr} && m.op in {Eq, Ne}
    requires st.depth == 0 && |hdr| == 20 && HdrAt(env, st.frame, st.regs[6], hdr)
    ensures Decided(st, Exec(Ip4AddrCode(m), 0, env, st),
                    (m.op == Eq) == MaskedEq(hdr[AddrOff(m.kind)..AddrOff(m.kind) + 4], m.payload[0..4], m.payload[4..8]))
  {
    hide Exec, HdrAt, And, LE, ToI32, Zext32, MaskedEq, Do, LoadMem, Ip4MaskCode;
    var k := AddrOff(m.kind);
    var x := hdr[k..k + 4];
    var addr, mask := U32At(m.payload, 0), U32At(m.payload, 4);
    var a, b := [T(Ldx(W, 1, 6, k))], [T(Mov32Imm(2, ToI32(addr)))];
    var c := if mask == 0xffff_ffff then [] else Ip4MaskCode(mask);
    var z := [N(JmpReg(if m.op == Eq then Jne else Jeq, 1, 2, 0))];
    assert Ip4AddrCode(m) == a + b + c + z;
    FieldExec(W, 1, 6, k, env, st, hdr);
    var s1 := With(st, 1, Num(LE(x)));
    Seq(a, b, env, st, s1);
    Mov32Exec(2, addr, env, s1);
    var s2 := With(s1, 2, Num(addr));
    Seq(a + b, c, env, st, s2);
    MaskedEq32(x, m.payload[0..4], m.payload[4..8]);
    if mask == 0xffff_ffff {
      End(c, env, s2);
      Seq(a + b + c, z, env, st, s2);
      CompareExec(m.op, env, s2, MaskedEq(x, m.payload[0..4], m.payload[4..8]));
    } else {
      Ip4MaskExec(mask, LE(x), addr, env, s2);
      var s3 := With(With(With(s2, 3, Num(mask)), 1, Num(And(LE(x), mask))), 2, Num(And(addr, mask)));
      Seq(a + b + c, z, env, st, s3);
      CompareExec(m.op, env, s3, MaskedEq(x, m.payload[0..4], m.payload[4..8]));
    }
  }

  lemma Mov32Exec(d: Reg, x: u32, env: Env, st: State)
    requires d != 10
    ensures Exec([T(Mov32Imm(d, ToI32(x)))], 0, env, st) == Off(0, With(st, d, Num(x)))
  {
    hide Exec, ToI32, Zext32;
    var c := [T(Mov32Imm(d, ToI32(x)))];
    ZextU32(x);
    Plain(c, 0, env, st, With(st, d, Num(x)));
    End(c, env, With(st, d, Num(x)));
  }

  lemma CompareExec(op: MatcherOp, env: Env, st: State, eq: bool)
    requires st.regs[1].Num? && st.regs[2].Num? && op in {Eq, Ne}
    requires eq <==> st.regs[1].n == st.regs[2].n
    ensures Exec([N(JmpReg(if op == Eq then Jne else Jeq, 1, 2, 0))], 0, env, st) ==
            if (op == Eq) == eq then Off(0, st) else Next(st)
  {
    hide Exec;
    var c := [N(JmpReg(if op == Eq then Jne else Jeq, 1, 2, 0))];
    Leaves(c, 0, env, st, (op == Eq) != eq);
    End(c, env, st);
  }

  lemma Ip4ProtoExec(m: Matcher, env: Env, st: State, hdr: seq<byte>)
    requires PayloadOk(m) && m.kind == Ip4Proto
    requires st.depth == 0 && |hdr| == 20 && HdrAt(env, st.frame, st.regs[6], hdr)
    ensures Decided(st, Exec([T(Ldx(B, 1, 6, 9)), N(JmpImm(if m.op == Eq then Jne else Jeq, 1, m.payload[0], 0))], 0, env, st),
                    (m.op == Eq) == (hdr[9] == m.payload[0]))
  {
    hide Exec, HdrAt, Do, LoadMem;
    var a, z := [T(Ldx(B, 1, 6, 9))], [N(JmpImm(if m.op == Eq then Jne else Jeq, 1, m.payload[0], 0))];
    FieldExec(B, 1, 6, 9, env, st, hdr);
    LE1(hdr, 9);
    var s := With(st, 1, Num(hdr[9]));
    Seq(a, z, env, st, s);
    Leaves(z, 0, env, s, (m.op == Eq) != (hdr[9] == m.payload[0]));
    End(z, env, s);
    assert a + z == [T(Ldx(B, 1, 6, 9)), N(JmpImm(if m.op == Eq then Jne else Jeq, 1, m.payload[0], 0))];
  }

  // ----- IPv6 -----

  lemma LoadImm64Exec(b: seq<byte>, env: Env, st: State)
    requires |b| == 8
    ensures Exec(LoadImm64(b), 0, env, st) ==
            Off(0, With(With(st, 3, NumOf(b)), 4, NumOf(b[0..4])))
  {
    hide Exec, And, Or, Shl, LE, ToI32, Zext32;
    var c := LoadImm64(b);
    var hi, lo := LE(b[4..8]), LE(b[0..4]);
    OrOfHalves(b);
    ZextU32(hi);
    ZextU32(lo);
    var s1 := With(st, 3, Num(hi));
    Plain(c, 0, env, st, s1);
    var s2 := With(s1, 3, Num(Shl(hi, 32)));
    Plain(c, 1, env, s1, s2);
    var s3 := With(s2, 4, Num(lo));
    Plain(c, 2, env, s2, s3);
    var s4 := With(s3, 3, Num(LE(b)));
    Plain(c, 3, env, s3, s4);
    End(c, env, s4);
    assert s4.regs == st.regs[3 := NumOf(b)][4 := NumOf(b[0..4])];
  }

  /** Apply one half of the mask to the address half in `r`. */
  lemma MaskHalfExec(r: Reg, x: seq<byte>, mask: seq<byte>, env: Env, st: State)
    requires |x| == |mask| == 8 && (r == 1 || r == 2) && st.regs[r] == NumOf(x)
    ensures Exec(LoadImm64(mask) + [T(Alu64Reg(Conj, r, 3))], 0, env, st) ==
            Off(0, With(With(With(st, 3, NumOf(mask)), 4, NumOf(mask[0..4])), r, NumOf(AndBytes(x, mask))))
  {
    hide Exec, And, LE, LoadImm64;
    var a, z := LoadImm64(mask), [T(Alu64Reg(Conj, r, 3))];
    LoadImm64Exec(mask, env, st);
    var s1 := With(With(st, 3, NumOf(mask)), 4, NumOf(mask[0..4]));
    Seq(a, z, env, st, s1);
    AndLE(x, mask);
    var s2 := With(s1, r, NumOf(AndBytes(x, mask)));
    Plain(z, 0, env, s1, s2);
    End(z, env, s2);
  }

  /** r1 and r2 hold the halves of `x`, and nothing rules rely on differs from `st`. */
  predicate HoldsAddr(st: State, s: State, x: seq<byte>)
    requires |x| == 16
  {
    Kept(st, s) && s.regs[1] == NumOf(x[0..8]) && s.regs[2] == NumOf(x[8..16])
  }

  lemma Ip6MaskExec(mask: seq<byte>, x: seq<byte>, env: Env, st: State) returns (s: State)
    requires |mask| == |x| == 16 && HoldsAddr(st, st, x)
    ensures Exec(Ip6MaskCode(mask), 0, env, st) == Off(0, s)
    ensures HoldsAddr(st, s, if mask[15] == 0xff then x else AndBytes(x, mask))
  {
    hide Exec, LE, And, LoadImm64;
    if mask[15] == 0xff {
      End([], env, st);
      s := st;
    } else {
      var lo, hi := mask[0..8], mask[8..16];
      var a, b := LoadImm64(lo) + [T(Alu64Reg(Conj, 1, 3))], LoadImm64(hi) + [T(Alu64Reg(Conj, 2, 3))];
      assert Ip6MaskCode(mask) == a + b;
      MaskHalfExec(1, x[0..8], lo, env, st);
      var s1 := With(With(With(st, 3, NumOf(lo)), 4, NumOf(lo[0..4])), 1, NumOf(AndBytes(x[0..8], lo)));
      Seq(a, b, env, st, s1);
      MaskHalfExec(2, x[8..16], hi, env, s1);
      s := With(With(With(s1, 3, NumOf(hi)), 4, NumOf(hi[0..4])), 2, NumOf(AndBytes(x[8..16], hi)));
      assert AndBytes(x, mask)[0..8] == AndBytes(x[0..8], lo);
      assert AndBytes(x, mask)[8..16] == AndBytes(x[8..16], hi);
    }
  }

  lemma HalvesEq(x: seq<byte>, y: seq<byte>)
    requires |x| == |y| == 16
    ensures x == y <==> x[0..8] == y[0..8] && x[8..16] == y[8..16]
  {
    assert x == x[0..8] + x[8..16] && y == y[0..8] + y[8..16];
  }

  lemma NumEq(x: seq<byte>, y: seq<byte>)
    requires |x| == |y| <= 8
    ensures NumOf(x) == NumOf(y) <==> x == y
  {
    if LE(x) == LE(y) {
      LEInjective(x, y);
    }
  }

  /** Equality: leave the rule at the first half that differs. */
  lemma Ip6EqExec(want: seq<byte>, x: seq<byte>, env: Env, st: State, s: State)
    requires |want| == |x| == 16 && HoldsAddr(st, s, x)
    ensures Decided(st, Exec(Ip6Test(Eq, want), 0, env, s), x == want)
  {
    hide Exec, LE, LoadImm64;
    var a, j0, b, j1 := LoadImm64(want[0..8]), [N(JmpReg(Jne, 1, 3, 0))], LoadImm64(want[8..16]), [N(JmpReg(Jne, 2, 3, 0))];
    assert Ip6Test(Eq, want) == a + j0 + b + j1;
    HalvesEq(x, want);
    NumEq(x[0..8], want[0..8]);
    NumEq(x[8..16], want[8..16]);
    var s1 := With(With(s, 3, NumOf(want[0..8])), 4, NumOf(want[0..8][0..4]));
    LoadImm64Exec(want[0..8], env, s);
    Seq(a, j0, env, s, s1);
    Leaves(j0, 0, env, s1, x[0..8] != want[0..8]);
    End(j0, env, s1);
    if x[0..8] == want[0..8] {
      Seq(a + j0, b, env, s, s1);
      LoadImm64Exec(want[8..16], env, s1);
      var s2 := With(With(s1, 3, NumOf(want[8..16])), 4, NumOf(want[8..16][0..4]));
      Seq(a + j0 + b, j1, env, s, s2);
      Leaves(j1, 0, env, s2, x[8..16] != want[8..16]);
      End(j1, env, s2);
    } else {
      SeqOut(a + j0, b, env, s);
      SeqOut(a + j0 + b, j1, env, s);
    }
  }

  /** Inequality: the first half that differs jumps over the jump to the next rule. */
  lemma Ip6NeExec(op: MatcherOp, want: seq<byte>, x: seq<byte>, env: Env, st: State, s: State)
    requires |want| == |x| == 16 && HoldsAddr(st, s, x) && op != Eq
    ensures Decided(st, Exec(Ip6Test(op, want), 0, env, s), x != want)
  {
    hide Exec, LE, LoadImm64;
    var a, j0, b := LoadImm64(want[0..8]), [T(JmpReg(Jne, 1, 3, 6))], LoadImm64(want[8..16]);
    var z := [T(JmpReg(Jne, 2, 3, 1)), N(Ja(0))];
    assert Ip6Test(op, want) == a + (j0 + (b + z));
    HalvesEq(x, want);
    NumEq(x[0..8], want[0..8]);
    NumEq(x[8..16], want[8..16]);
    var s1 := With(With(s, 3, NumOf(want[0..8])), 4, NumOf(want[0..8][0..4]));
    LoadImm64Exec(want[0..8], env, s);
    Seq(a, j0 + (b + z), env, s, s1);
    var c := j0 + (b + z);
    Jumps(c, 0, env, s1, x[0..8] != want[0..8]);
    if x[0..8] != want[0..8] {
      End(c, env, s1);
    } else {
      ExecShift(j0, b + z, 1, env, s1);
      LoadImm64Exec(want[8..16], env, s1);
      var s2 := With(With(s1, 3, NumOf(want[8..16])), 4, NumOf(want[8..16][0..4]));
      Seq(b, z, env, s1, s2);
      Jumps(z, 0, env, s2, x[8..16] != want[8..16]);
      End(z, env, s2);
      Leaves(z, 1, env, s2, true);
    }
  }

  lemma LoadAddrExec(k: i16, env: Env, st: State, hdr: seq<byte>) returns (s: State)
    requires st.depth == 0 && |hdr| == 40 && HdrAt(env, st.frame, st.regs[6], hdr) && 0 <= k <= 24
    ensures Exec([T(Ldx(DW, 1, 6, k)), T(Ldx(DW, 2, 6, k + 8))], 0, env, st) == Off(0, s)
    ensures s.frame == st.frame && s.regs[3..] == st.regs[3..] && HoldsAddr(st, s, hdr[k..k + 16])
    ensures HoldsAddr(s, s, hdr[k..k + 16])
  {
    hide Exec, LE, HdrAt, LoadMem, Do;
    var a, b := [T(Ldx(DW, 1, 6, k))], [T(Ldx(DW, 2, 6, k + 8))];
    var x := hdr[k..k + 16];
    assert [T(Ldx(DW, 1, 6, k)), T(Ldx(DW, 2, 6, k + 8))] == a + b;
    FieldExec(DW, 1, 6, k, env, st, hdr);
    assert hdr[k..k + 8] == x[0..8] && hdr[k + 8..k + 16] == x[8..16];
    var s1 := With(st, 1, NumOf(x[0..8]));
    Seq(a, b, env, st, s1);
    FieldExec(DW, 2, 6, k + 8, env, s1, hdr);
    s := With(s1, 2, NumOf(x[8..16]));
  }

  /** The IPv6 matcher, for both operators and every mask. */
  lemma Ip6Exec(m: Matcher, env: Env, keys: set<seq<byte>>, v: View, st: State)
    requires PayloadOk(m) && Holds(env, v, st) && m.kind in {Ip6Saddr, Ip6Daddr}
    ensures Decided(st, Exec(Ip6Code(m), 0, env, st), Accepts(m, keys, v))
  {
    hide Exec, LE, And, HdrAt, Load, GuardL3, Ip6MaskCode, Ip6Test;
    var k := AddrOff(m.kind);
    var addr, mask := m.payload[0..16], m.payload[16..32];
    var want := AndBytes(addr, mask);
    var g, l, c, z := GuardL3(ETH_P_IPV6), [T(Ldx(DW, 1, 6, k)), T(Ldx(DW, 2, 6, k + 8))], Ip6MaskCode(mask), Ip6Test(m.op, want);
    assert Ip6Code(m) == g + (l + (c + z));
    GuardL3Exec(ETH_P_IPV6, env, v, st);
    if L3Num(v.l3) == ETH_P_IPV6 {
      var x := v.l3.hdr[k..k + 16];
      var s0 := With(st, 6, Load(st.frame, L3_HDR, 8));
      Seq(g, l + (c + z), env, st, s0);
      var s1 := LoadAddrExec(k, env, s0, v.l3.hdr);
      Seq(l, c + z, env, s0, s1);
      var s2 := Ip6MaskExec(mask, x, env, s1);
      Seq(c, z, env, s1, s2);
      var y := if mask[15] == 0xff then x else AndBytes(x, mask);
      if m.op == Eq {
        Ip6EqExec(want, y, env, st, s2);
      } else {
        Ip6NeExec(m.op, want, y, env, st, s2);
      }
    } else {
      SeqOut(g, l + (c + z), env, st);
    }
  }
}
