/** The prologue refines the packet parser. */
module PrologueProofs {
  import opened Bytes
  import opened Bpf
  import opened Model
  import opened Machine
  import opened Fragment
  import opened Codegen
  import opened Spec
  import opened Simulation
  import opened SwitchProofs
  import opened MatcherProofs
  import opened SetProofs
  import opened RuleProofs

  // ----- stack slots -----

  lemma NumOfToLE(x: nat, n: nat)
    requires n <= 8 && x < Pow256(n)
    ensures x < TWO64 && NumOf(ToLE(x, n)) == Num(x)
  {
    LEOfToLE(x, n);
    Pow256Mono(n, 8);
  }

  lemma WrittenSlot(f: Frame, off: int, bs: seq<byte>)
    requires 1 <= |bs| <= 8 && OnStack(off, |bs|)
    ensures Load(Write(f, off, ByteCells(bs)), off, |bs|) == NumOf(bs)
  {
    WriteSame(f, off, ByteCells(bs));
    LoadCells(Write(f, off, ByteCells(bs)), off, bs);
  }

  lemma OtherSlot(f: Frame, off: int, c: seq<Cell>, o: int, n: nat)
    requires OnStack(off, |c|) && OnStack(o, n) && 1 <= n <= 8 && (o + n <= off || off + |c| <= o)
    ensures Load(Write(f, off, c), o, n) == Load(f, o, n)
  {
    WriteOther(f, off, c, o, n);
  }

  /** The low half of a 32-bit slot. */
  lemma LowHalf(f: Frame, off: int, x: u32)
    requires OnStack(off, 4)
    ensures Load(Write(f, off, ByteCells(ToLE(x, 4))), off, 2) == Num(x % 0x1_0000)
  {
    hide LE, ToLE, Write, Load, ByteCells;
    var bs := ToLE(x, 4);
    var g := Write(f, off, ByteCells(bs));
    var i := STACK_SIZE + off;
    WriteSame(f, off, ByteCells(bs));
    SubSlice(g, i, 4, 0, 2);
    CellsSlice(bs, 0, 2);
    LoadCells(g, off, bs[0..2]);
    LELow2(bs);
    LEOfToLE(x, 4);
    assert bs[..2] == bs[0..2];
  }

  /** Store of a number in a slot of the context. */
  lemma StoreNumExec(size: Size, r: Reg, off: i16, env: Env, st: State, x: nat)
    requires st.regs[10] == Ptr(Stack(0), 0) && st.depth == 0 && OnStack(off, size.Len())
    requires x < Pow256(size.Len()) && x < TWO64 && st.regs[r] == Num(x)
    ensures Exec([T(Stx(size, 10, r, off))], 0, env, st) == Off(0, Stored(st, off, ToLE(x, size.Len())))
  {
    hide Exec, ToLE;
    NumOfToLE(x, size.Len());
    StoreExec(size, r, off, env, st, ToLE(x, size.Len()));
  }

  // ----- what the prologue has established so far -----

  /** The hook's information is in the context and no L4 protocol is known. */
  predicate Ready(env: Env, st: State)
  {
    && st.depth == 0 && st.regs[10] == Ptr(Stack(0), 0) && st.regs[8] == Num(0)
    && PacketSize(env) < TWO64 && Load(st.frame, PKT_SIZE, 8) == Num(PacketSize(env))
    && Load(st.frame, IFINDEX, 2) == Num(PacketIfindex(env) % 0x1_0000)
  }

  /** The L3 protocol is in r7 and the offset of its header in the context. */
  predicate Located(env: Env, st: State, ethertype: u16, off: nat)
  {
    && off < TWO64 && st.regs[7] == Num(Swap16(ethertype)) && Load(st.frame, L3_OFFSET, 4) == Num(off)
  }

  predicate HasDynptr(f: Frame)
  {
    f[STACK_SIZE + DYNPTR..STACK_SIZE + DYNPTR + 16] == Dynptr()
  }

  /** The packet was counted as an error and accepted. */
  predicate Failed(env: Env, st: State, slot: u32, o: Out)
    requires PacketSize(env) < TWO64
  {
    && o.Return? && o.r0 == Sext64(VerdictCode(env.hook, Accept))
    && o.st.counters == Bump(st.counters, slot, PacketSize(env))
  }

  lemma ErrorExitExec(env: Env, slot: u32, st: State)
    requires st.depth == 0 && st.regs[10] == Ptr(Stack(0), 0)
    requires PacketSize(env) < TWO64 && Load(st.frame, PKT_SIZE, 8) == Num(PacketSize(env))
    ensures Failed(env, st, slot, Exec(ErrorExit(env.hook, slot), 0, env, st))
  {
    hide Exec, Load, CountCode, ReturnCode, Bump;
    var s := CountExec(slot, env, st, PacketSize(env));
    Seq(CountCode(slot), ReturnCode(env.hook, Accept), env, st, s);
    ReturnExec(env.hook, Accept, env, s);
  }

  // ----- hooks -----

  function FamilyProto(family: byte): (r: u16)
  {
    if family == AF_INET then ETH_P_IP else if family == AF_INET6 then ETH_P_IPV6 else 0
  }

  lemma FamilySwitchExec(reg: Reg, env: Env, st: State)
    requires st.regs[reg] == Num(env.family)
    ensures Exec(FamilySwitch(reg), 0, env, st) == Off(0, With(st, 7, Num(Swap16(FamilyProto(env.family)))))
  {
    hide Exec, Block, SwitchCode, LoadMem, StoreMem, MapLookup, MakeDynptr, Slice, Swap16;
    var a, b := Case(AF_INET, [Mov64Imm(7, Swap16(ETH_P_IP))]), Case(AF_INET6, [Mov64Imm(7, Swap16(ETH_P_IPV6))]);
    var i := Mov64Imm(7, Swap16(FamilyProto(env.family)));
    Pick2(a, b, env.family);
    BodiesLen2(a, b);
    Block1(i, env, st);
    Block1(a.body[0], env, st);
    Block1(b.body[0], env, st);
    Block1(Mov64Imm(7, 0), env, st);
    SwitchExec(reg, [a, b], Some([Mov64Imm(7, 0)]), env, st, env.family);
  }

  /** Size and interface of the packet, read from `xdp_md` or `__sk_buff`. */
  lemma SizeExec(env: Env, st: State, data: i16, end: i16)
    requires st.regs[1] == Ptr(Ctx, 0) && st.regs[10] == Ptr(Stack(0), 0) && st.depth == 0 && env.linear < 0x8000_0000
    requires CtxField(env, data, 4) == Some(Ptr(Packet, 0)) && CtxField(env, end, 4) == Some(Ptr(Packet, env.linear))
    ensures Exec([T(Ldx(W, 2, 1, data)), T(Ldx(W, 3, 1, end)), T(Alu64Reg(Sub, 3, 2))], 0, env, st) ==
            Off(0, With(With(st, 2, Ptr(Packet, 0)), 3, Num(env.linear)))
  {
    hide Exec, CtxField, Do;
    var c := [T(Ldx(W, 2, 1, data)), T(Ldx(W, 3, 1, end)), T(Alu64Reg(Sub, 3, 2))];
    var s1 := With(st, 2, Ptr(Packet, 0));
    Ld(c, 0, env, st, W, 2, 1, data, Ptr(Packet, 0));
    var s2 := With(s1, 3, Ptr(Packet, env.linear));
    Ld(c, 1, env, s1, W, 3, 1, end, Ptr(Packet, env.linear));
    var s3 := With(s1, 3, Num(env.linear));
    assert s3.regs == s2.regs[3 := Num(env.linear)];
    AluReg(c, 2, env, s2, Sub, 3, 2, Num(env.linear));
    End(c, env, s3);
  }

  lemma CtxLoadExec(d: Reg, off: i16, env: Env, st: State, x: u32)
    requires d != 10 && st.regs[1] == Ptr(Ctx, 0) && CtxField(env, off, 4) == Some(Num(x))
    ensures Exec([T(Ldx(W, d, 1, off))], 0, env, st) == Off(0, With(st, d, Num(x)))
  {
    hide Exec, CtxField;
    var c := [T(Ldx(W, d, 1, off))];
    Plain(c, 0, env, st, With(st, d, Num(x)));
    End(c, env, With(st, d, Num(x)));
  }

  /** The slots filled with the size and the interface. */
  lemma ContextFilled(env: Env, f: Frame, size: nat, ifindex: u32)
    requires size < TWO64
    ensures var g := Write(Write(f, PKT_SIZE, ByteCells(ToLE(size, 8))), IFINDEX, ByteCells(ToLE(ifindex, 4)));
            Load(g, PKT_SIZE, 8) == Num(size) && Load(g, IFINDEX, 2) == Num(ifindex % 0x1_0000)
  {
    hide Load, Write, ToLE;
    var g := Write(f, PKT_SIZE, ByteCells(ToLE(size, 8)));
    WrittenSlot(f, PKT_SIZE, ToLE(size, 8));
    assert Pow256(8) == TWO64;
    NumOfToLE(size, 8);
    OtherSlot(g, IFINDEX, ByteCells(ToLE(ifindex, 4)), PKT_SIZE, 8);
    LowHalf(g, IFINDEX, ifindex);
  }

  predicate Started(env: Env, st: State, s: State)
  {
    && Ready(env, s) && s.regs[1] == Ptr(SkbRegion(env.hook), 0) && s.counters == st.counters
    && (!HasL2(env.hook) ==> Located(env, s, FamilyProto(env.family), 0))
  }

  predicate Fresh(st: State)
  {
    && st.depth == 0 && st.regs[10] == Ptr(Stack(0), 0) && st.regs[1] == Ptr(Ctx, 0)
    && st.regs[7] == Num(0) && st.regs[8] == Num(0)
  }

  lemma L2HookExec(env: Env, st: State, data: i16, end: i16, ifi: i16, x: u32) returns (s: State)
    requires EnvOk(env) && Fresh(st) && HasL2(env.hook) && x == PacketIfindex(env)
    requires CtxField(env, data, 4) == Some(Ptr(Packet, 0)) && CtxField(env, end, 4) == Some(Ptr(Packet, env.linear))
    requires CtxField(env, ifi, 4) == Some(Num(x))
    ensures var c := [ T(Ldx(W, 2, 1, data)), T(Ldx(W, 3, 1, end)), T(Alu64Reg(Sub, 3, 2)), T(Stx(DW, 10, 3, PKT_SIZE)),
                       T(Ldx(W, 2, 1, ifi)), T(Stx(W, 10, 2, IFINDEX)) ];
            Exec(c, 0, env, st) == Off(0, s)
    ensures Started(env, st, s)
  {
    hide Exec, Load, CtxField, Write, ToLE, Do;
    var a, b := [T(Ldx(W, 2, 1, data)), T(Ldx(W, 3, 1, end)), T(Alu64Reg(Sub, 3, 2))], [T(Stx(DW, 10, 3, PKT_SIZE))];
    var c, d := [T(Ldx(W, 2, 1, ifi))], [T(Stx(W, 10, 2, IFINDEX))];
    SizeExec(env, st, data, end);
    var s1 := With(With(st, 2, Ptr(Packet, 0)), 3, Num(env.linear));
    assert Pow256(8) == TWO64 && Pow256(4) == 0x1_0000_0000;
    StoreNumExec(DW, 3, PKT_SIZE, env, s1, env.linear);
    var s2 := Stored(s1, PKT_SIZE, ToLE(env.linear, 8));
    CtxLoadExec(2, ifi, env, s2, x);
    var s3 := With(s2, 2, Num(x));
    StoreNumExec(W, 2, IFINDEX, env, s3, x);
    s := Stored(s3, IFINDEX, ToLE(x, 4));
    Seq(c, d, env, s2, s3);
    Seq(b, c + d, env, s1, s2);
    Seq(a, b + (c + d), env, st, s1);
    assert [ T(Ldx(W, 2, 1, data)), T(Ldx(W, 3, 1, end)), T(Alu64Reg(Sub, 3, 2)), T(Stx(DW, 10, 3, PKT_SIZE)),
             T(Ldx(W, 2, 1, ifi)), T(Stx(W, 10, 2, IFINDEX)) ] == a + (b + (c + d));
    ContextFilled(env, st.frame, env.linear, x);
  }

  /** The ethertype from the address family, and the L3 header at the start of the packet. */
  lemma FamilyExec(reg: Reg, env: Env, st: State)
    requires st.regs[reg] == Num(env.family) && st.regs[10] == Ptr(Stack(0), 0) && st.depth == 0
    ensures Exec(FamilySwitch(reg) + [T(St(W, 10, L3_OFFSET, 0))], 0, env, st) ==
            Off(0, Stored(With(st, 7, Num(Swap16(FamilyProto(env.family)))), L3_OFFSET, ToLE(0, 4)))
  {
    hide Exec, FamilySwitch, Write, ToLE;
    var z := [T(St(W, 10, L3_OFFSET, 0))];
    var s1 := With(st, 7, Num(Swap16(FamilyProto(env.family))));
    FamilySwitchExec(reg, env, st);
    Seq(FamilySwitch(reg), z, env, st, s1);
    var s2 := Stored(s1, L3_OFFSET, ToLE(0, 4));
    Plain(z, 0, env, s1, s2);
    End(z, env, s2);
  }

  lemma OffsetSlot(f: Frame, x: u32)
    ensures Load(Write(f, L3_OFFSET, ByteCells(ToLE(x, 4))), L3_OFFSET, 4) == Num(x)
  {
    hide Load, Write, ToLE;
    assert Pow256(4) == 0x1_0000_0000;
    NumOfToLE(x, 4);
    WrittenSlot(f, L3_OFFSET, ToLE(x, 4));
  }

  /** The packet's size, with the length of the Ethernet header the hook does not show. */
  lemma CgroupSizeExec(env: Env, st: State, rest: Code)
    requires EnvOk(env) && Fresh(st) && IsCgroup(env.hook)
    ensures var c := [T(Ldx(W, 2, 1, 76)), T(Ldx(W, 3, 1, 80)), T(Alu64Reg(Sub, 3, 2))]
                     + ([T(Alu64Imm(Add, 3, ETH_HLEN))] + ([T(Stx(DW, 10, 3, PKT_SIZE))] + rest));
            var s := With(With(st, 2, Ptr(Packet, 0)), 3, Num(env.linear + ETH_HLEN));
            Exec(c, 0, env, st) == Exec(rest, 0, env, Stored(s, PKT_SIZE, ToLE(env.linear + ETH_HLEN, 8)))
  {
    hide Exec, CtxField, Write, ToLE, Do;
    var a, a2, b := [T(Ldx(W, 2, 1, 76)), T(Ldx(W, 3, 1, 80)), T(Alu64Reg(Sub, 3, 2))], [T(Alu64Imm(Add, 3, ETH_HLEN))], [T(Stx(DW, 10, 3, PKT_SIZE))];
    CgroupFields(env);
    SizeExec(env, st, 76, 80);
    var s0 := With(st, 2, Ptr(Packet, 0));
    var s1 := With(s0, 3, Num(env.linear));
    var s2 := With(s0, 3, Num(env.linear + ETH_HLEN));
    AddHlenExec(3, env.linear, env, s1);
    assert With(s1, 3, Num(env.linear + ETH_HLEN)) == s2;
    assert Pow256(8) == TWO64;
    StoreNumExec(DW, 3, PKT_SIZE, env, s2, env.linear + ETH_HLEN);
    Seq(b, rest, env, s2, Stored(s2, PKT_SIZE, ToLE(env.linear + ETH_HLEN, 8)));
    Seq(a2, b + rest, env, s1, s2);
    Seq(a, a2 + (b + rest), env, st, s1);
  }

  lemma CgroupExec(env: Env, st: State) returns (s: State)
    requires EnvOk(env) && Fresh(st) && IsCgroup(env.hook)
    ensures Exec(CgroupPrologue(env.btf), 0, env, st) == Off(0, s)
    ensures Started(env, st, s)
  {
    hide Exec, Load, CtxField, Write, ToLE, FamilySwitch, Do, EnvOk;
    CgroupSize(env);
    var s3 := Stored(With(With(st, 2, Ptr(Packet, 0)), 3, Num(env.linear + ETH_HLEN)), PKT_SIZE, ToLE(env.linear + ETH_HLEN, 8));
    s := CgroupRestExec(env, s3);
    CgroupSizeExec(env, st, CgroupRest(env.btf));
    CgroupParts(env.btf);
    ContextFilled(env, st.frame, env.linear + ETH_HLEN, env.ifindex);
    var f := Write(s3.frame, IFINDEX, ByteCells(ToLE(env.ifindex, 4)));
    OtherSlot(f, L3_OFFSET, ByteCells(ToLE(0, 4)), PKT_SIZE, 8);
    OtherSlot(f, L3_OFFSET, ByteCells(ToLE(0, 4)), IFINDEX, 2);
    OffsetSlot(f, 0);
  }

  lemma CgroupSize(env: Env)
    requires EnvOk(env) && IsCgroup(env.hook)
    ensures PacketSize(env) == env.linear + ETH_HLEN < TWO64 && PacketIfindex(env) == env.ifindex
  {
  }

  function CgroupRest(btf: Btf): (c: Code)
  {
    [T(Ldx(W, 2, 1, btf.skbIfindex))] + ([T(Stx(W, 10, 2, IFINDEX))]
    + ([T(Ldx(W, 2, 1, btf.skbFamily))] + (FamilySwitch(2) + [T(St(W, 10, L3_OFFSET, 0))])))
  }

  lemma CgroupRestExec(env: Env, st: State) returns (s: State)
    requires EnvOk(env) && IsCgroup(env.hook) && st.depth == 0 && st.regs[1] == Ptr(Ctx, 0) && st.regs[10] == Ptr(Stack(0), 0)
    ensures Exec(CgroupRest(env.btf), 0, env, st) == Off(0, s)
    ensures s == Stored(With(Stored(With(st, 2, Num(env.family)), IFINDEX, ToLE(env.ifindex, 4)), 7, Num(Swap16(FamilyProto(env.family)))), L3_OFFSET, ToLE(0, 4))
  {
    hide Exec, CtxField, Write, ToLE, FamilySwitch, Do;
    var c, d, e := [T(Ldx(W, 2, 1, env.btf.skbIfindex))], [T(Stx(W, 10, 2, IFINDEX))], [T(Ldx(W, 2, 1, env.btf.skbFamily))];
    var f := FamilySwitch(2) + [T(St(W, 10, L3_OFFSET, 0))];
    CgroupFields(env);
    CtxLoadExec(2, env.btf.skbIfindex, env, st, env.ifindex);
    var s4 := With(st, 2, Num(env.ifindex));
    assert Pow256(4) == 0x1_0000_0000;
    StoreNumExec(W, 2, IFINDEX, env, s4, env.ifindex);
    var s5 := Stored(s4, IFINDEX, ToLE(env.ifindex, 4));
    CtxLoadExec(2, env.btf.skbFamily, env, s5, env.family);
    var s6 := With(s5, 2, Num(env.family));
    FamilyExec(2, env, s6);
    s := Stored(With(s6, 7, Num(Swap16(FamilyProto(env.family)))), L3_OFFSET, ToLE(0, 4));
    Seq(e, f, env, s5, s6);
    Seq(d, e + f, env, s4, s5);
    Seq(c, d + (e + f), env, st, s4);
    assert s6.regs == st.regs[2 := Num(env.family)];
  }

  lemma CgroupParts(btf: Btf)
    ensures CgroupPrologue(btf) ==
            [T(Ldx(W, 2, 1, 76)), T(Ldx(W, 3, 1, 80)), T(Alu64Reg(Sub, 3, 2))] +
            ([T(Alu64Imm(Add, 3, ETH_HLEN))] + ([T(Stx(DW, 10, 3, PKT_SIZE))] + CgroupRest(btf)))
  {
    hide FamilySwitch;
  }

  lemma CgroupFields(env: Env)
    requires EnvOk(env) && (IsCgroup(env.hook) || IsTc(env.hook))
    ensures CtxField(env, 76, 4) == Some(Ptr(Packet, 0)) && CtxField(env, 80, 4) == Some(Ptr(Packet, env.linear))
    ensures CtxField(env, env.btf.skbIfindex, 4) == Some(Num(env.ifindex))
    ensures CtxField(env, env.btf.skbFamily, 4) == Some(Num(env.family))
  {
  }

  lemma AddHlenExec(r: Reg, x: nat, env: Env, st: State)
    requires r != 10 && x < 0x8000_0000 && st.regs[r] == Num(x)
    ensures Exec([T(Alu64Imm(Add, r, ETH_HLEN))], 0, env, st) == Off(0, With(st, r, Num(x + ETH_HLEN)))
  {
    hide Exec;
    var c := [T(Alu64Imm(Add, r, ETH_HLEN))];
    Plain(c, 0, env, st, With(st, r, Num(x + ETH_HLEN)));
    End(c, env, With(st, r, Num(x + ETH_HLEN)));
  }

  // ----- Netfilter -----

  /** The interface and the address family, through `bpf_nf_ctx.state`. */
  lemma NfStateExec(env: Env, st: State)
    requires EnvOk(env) && Fresh(st) && IsNf(env.hook)
    ensures var dev := if IsNfIngress(env.hook) then env.btf.stateIn else env.btf.stateOut;
            Exec([T(Ldx(DW, 2, 1, env.btf.nfState)), T(Ldx(DW, 3, 2, dev)), T(Ldx(W, 4, 3, env.btf.devIfindex))], 0, env, st) ==
            Off(0, With(With(With(st, 2, Ptr(NfState, 0)), 3, Ptr(NetDev(!IsNfIngress(env.hook)), 0)), 4, Num(PacketIfindex(env))))
  {
    hide Exec;
    var dev := if IsNfIngress(env.hook) then env.btf.stateIn else env.btf.stateOut;
    var c := [T(Ldx(DW, 2, 1, env.btf.nfState)), T(Ldx(DW, 3, 2, dev)), T(Ldx(W, 4, 3, env.btf.devIfindex))];
    var s1 := With(st, 2, Ptr(NfState, 0));
    Plain(c, 0, env, st, s1);
    var s2 := With(s1, 3, Ptr(NetDev(!IsNfIngress(env.hook)), 0));
    Plain(c, 1, env, s1, s2);
    var s3 := With(s2, 4, Num(PacketIfindex(env)));
    Plain(c, 2, env, s2, s3);
    End(c, env, s3);
  }

  lemma NfFamilyExec(env: Env, st: State)
    requires st.regs[2] == Ptr(NfState, 0)
    ensures Exec([T(Ldx(B, 3, 2, env.btf.statePf))], 0, env, st) == Off(0, With(st, 3, Num(env.family)))
  {
    hide Exec;
    var c := [T(Ldx(B, 3, 2, env.btf.statePf))];
    Plain(c, 0, env, st, With(st, 3, Num(env.family)));
    End(c, env, With(st, 3, Num(env.family)));
  }

  lemma NfSkbExec(env: Env, st: State)
    requires EnvOk(env) && IsNf(env.hook) && st.regs[1] == Ptr(Ctx, 0)
    ensures Exec([T(Ldx(DW, 1, 1, env.btf.nfSkb)), T(Ldx(W, 2, 1, env.btf.skbLen))], 0, env, st) ==
            Off(0, With(With(st, 1, Ptr(Skb, 0)), 2, Num(|env.packet|)))
  {
    hide Exec;
    var c := [T(Ldx(DW, 1, 1, env.btf.nfSkb)), T(Ldx(W, 2, 1, env.btf.skbLen))];
    var s1 := With(st, 1, Ptr(Skb, 0));
    Plain(c, 0, env, st, s1);
    var s2 := With(s1, 2, Num(|env.packet|));
    Plain(c, 1, env, s1, s2);
    End(c, env, s2);
  }

  lemma NfExec(env: Env, st: State) returns (s: State)
    requires EnvOk(env) && Fresh(st) && IsNf(env.hook)
    ensures Exec(NfPrologue(env.hook, env.btf), 0, env, st) == Off(0, s)
    ensures Started(env, st, s)
  {
    hide Exec, Load, CtxField, Write, ToLE, FamilySwitch, Do;
    var dev := if IsNfIngress(env.hook) then env.btf.stateIn else env.btf.stateOut;
    var n := |env.packet|;
    var a := [T(Ldx(DW, 2, 1, env.btf.nfState)), T(Ldx(DW, 3, 2, dev)), T(Ldx(W, 4, 3, env.btf.devIfindex))];
    var b, c, d := [T(Stx(W, 10, 4, IFINDEX))], [T(Ldx(B, 3, 2, env.btf.statePf))], FamilySwitch(3) + [T(St(W, 10, L3_OFFSET, 0))];
    var e, f, g := [T(Ldx(DW, 1, 1, env.btf.nfSkb)), T(Ldx(W, 2, 1, env.btf.skbLen))], [T(Alu64Imm(Add, 2, ETH_HLEN))], [T(Stx(DW, 10, 2, PKT_SIZE))];
    var ifi := PacketIfindex(env);
    NfStateExec(env, st);
    var s1 := With(With(With(st, 2, Ptr(NfState, 0)), 3, Ptr(NetDev(!IsNfIngress(env.hook)), 0)), 4, Num(ifi));
    assert Pow256(8) == TWO64 && Pow256(4) == 0x1_0000_0000;
    StoreNumExec(W, 4, IFINDEX, env, s1, ifi);
    var s2 := Stored(s1, IFINDEX, ToLE(ifi, 4));
    NfFamilyExec(env, s2);
    var s3 := With(s2, 3, Num(env.family));
    FamilyExec(3, env, s3);
    var s4 := Stored(With(s3, 7, Num(Swap16(FamilyProto(env.family)))), L3_OFFSET, ToLE(0, 4));
    NfSkbExec(env, s4);
    var s5 := With(With(s4, 1, Ptr(Skb, 0)), 2, Num(n));
    AddHlenExec(2, n, env, s5);
    var s6 := With(s5, 2, Num(n + ETH_HLEN));
    StoreNumExec(DW, 2, PKT_SIZE, env, s6, n + ETH_HLEN);
    s := Stored(s6, PKT_SIZE, ToLE(n + ETH_HLEN, 8));
    Seq(f, g, env, s5, s6);
    Seq(e, f + g, env, s4, s5);
    Seq(d, e + (f + g), env, s3, s4);
    Seq(c, d + (e + (f + g)), env, s2, s3);
    Seq(b, c + (d + (e + (f + g))), env, s1, s2);
    Seq(a, b + (c + (d + (e + (f + g)))), env, st, s1);
    NfParts(env.hook, env.btf);
    NfSlots(st.frame, ifi, n + ETH_HLEN);
  }

  lemma NfSlots(f: Frame, ifi: u32, size: nat)
    requires size < TWO64
    ensures var g := Write(Write(Write(f, IFINDEX, ByteCells(ToLE(ifi, 4))), L3_OFFSET, ByteCells(ToLE(0, 4))), PKT_SIZE, ByteCells(ToLE(size, 8)));
            Load(g, PKT_SIZE, 8) == Num(size) && Load(g, IFINDEX, 2) == Num(ifi % 0x1_0000) && Load(g, L3_OFFSET, 4) == Num(0)
  {
    hide Load, Write, ToLE, ByteCells;
    var g1 := Write(f, IFINDEX, ByteCells(ToLE(ifi, 4)));
    var g2 := Write(g1, L3_OFFSET, ByteCells(ToLE(0, 4)));
    LowHalf(f, IFINDEX, ifi);
    OtherSlot(g1, L3_OFFSET, ByteCells(ToLE(0, 4)), IFINDEX, 2);
    OffsetSlot(g1, 0);
    OtherSlot(g2, PKT_SIZE, ByteCells(ToLE(size, 8)), IFINDEX, 2);
    OtherSlot(g2, PKT_SIZE, ByteCells(ToLE(size, 8)), L3_OFFSET, 4);
    assert Pow256(8) == TWO64;
    NumOfToLE(size, 8);
    WrittenSlot(g2, PKT_SIZE, ToLE(size, 8));
  }

  lemma NfParts(h: Hook, btf: Btf)
    ensures NfPrologue(h, btf) ==
            [T(Ldx(DW, 2, 1, btf.nfState)), T(Ldx(DW, 3, 2, if IsNfIngress(h) then btf.stateIn else btf.stateOut)), T(Ldx(W, 4, 3, btf.devIfindex))] +
            ([T(Stx(W, 10, 4, IFINDEX))] + ([T(Ldx(B, 3, 2, btf.statePf))] + ((FamilySwitch(3) + [T(St(W, 10, L3_OFFSET, 0))]) +
            ([T(Ldx(DW, 1, 1, btf.nfSkb)), T(Ldx(W, 2, 1, btf.skbLen))] + ([T(Alu64Imm(Add, 2, ETH_HLEN))] + [T(Stx(DW, 10, 2, PKT_SIZE))])))))
  {
    hide FamilySwitch;
  }

  lemma HookExec(env: Env, st: State) returns (s: State)
    requires EnvOk(env) && Fresh(st)
    ensures Exec(HookPrologue(env.hook, env.btf), 0, env, st) == Off(0, s)
    ensures Started(env, st, s)
  {
    hide Exec, Started, NfPrologue, CgroupPrologue;
    if env.hook == Xdp {
      s := L2HookExec(env, st, 0, 4, 12, env.ifindex);
    } else if IsTc(env.hook) {
      CgroupFields(env);
      s := L2HookExec(env, st, 76, 80, env.btf.skbIfindex, env.ifindex);
    } else if IsCgroup(env.hook) {
      s := CgroupExec(env, st);
    } else {
      s := NfExec(env, st);
    }
  }
}
