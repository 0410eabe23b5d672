/** The header stubs of the prologue: dynptr, L2, L3 and L4. */
module ParserProofs {
  import opened Bytes
  import opened Bpf
  import opened Model
  import opened Machine
  import opened Fragment
  import opened Codegen
  import opened Spec
  import opened Simulation
  import opened MatcherProofs
  import opened SetProofs
  import opened PrologueProofs

  // ----- dynptr -----

  /** The dynptr is created, or the packet counts as an error. */
  lemma DynptrExec(env: Env, slot: u32, st: State, s0: State)
    requires Started(env, s0, st)
    ensures var o := Exec(DynptrStub(env.hook, slot), 0, env, st);
            if env.dynptrOk then
              o.Off? && o.k == 0 && o.st.regs[7] == st.regs[7] && Ready(env, o.st) && o.st.counters == st.counters
              && HasDynptr(o.st.frame) && Load(o.st.frame, L3_OFFSET, 4) == Load(st.frame, L3_OFFSET, 4)
            else Failed(env, st, slot, o)
  {
    hide Exec, Load, Write, ErrorExit, Bump, Located, LoadMem, StoreMem, MapLookup, Slice, Dynptr;
    var kf := if env.hook == Xdp then DynptrFromXdp else DynptrFromSkb;
    var a := [T(Mov64Imm(2, 0)), T(Mov64Reg(3, 10)), T(Alu64Imm(Add, 3, DYNPTR)), T(CallKfunc(kf)), T(JmpImm(Jeq, 0, 0, 5))];
    var e := ErrorExit(env.hook, slot);
    var c := a + e;
    var s1 := With(st, 2, Num(0));
    Plain(c, 0, env, st, s1);
    var s2 := With(s1, 3, Ptr(Stack(0), 0));
    Plain(c, 1, env, s1, s2);
    var s3 := With(s2, 3, Ptr(Stack(0), DYNPTR));
    Plain(c, 2, env, s2, s3);
    var s4 := MakeDynptr(env, s3, SkbRegion(env.hook)).value;
    Plain(c, 3, env, s3, s4);
    Jumps(c, 4, env, s4, env.dynptrOk);
    if env.dynptrOk {
      End(c, env, s4);
      DynptrSlots(st.frame);
    } else {
      ExecShift(a, e, 5, env, s4);
      ErrorExitExec(env, slot, s4);
    }
  }

  lemma DynptrSlots(f: Frame)
    ensures var g := Write(f, DYNPTR, Dynptr());
            HasDynptr(g) && Load(g, PKT_SIZE, 8) == Load(f, PKT_SIZE, 8) && Load(g, IFINDEX, 2) == Load(f, IFINDEX, 2)
            && Load(g, L3_OFFSET, 4) == Load(f, L3_OFFSET, 4)
  {
    hide Load, Write, Dynptr;
    WriteSame(f, DYNPTR, Dynptr());
    OtherSlot(f, DYNPTR, Dynptr(), PKT_SIZE, 8);
    OtherSlot(f, DYNPTR, Dynptr(), IFINDEX, 2);
    OtherSlot(f, DYNPTR, Dynptr(), L3_OFFSET, 4);
  }

  // ----- slices -----

  /** Address of the header at offset `o`. */
  function SlicePtr(env: Env, o: nat, buf: int): (p: Value)
  {
    if o in env.copied then Ptr(Stack(0), buf) else Ptr(Packet, o)
  }

  function SliceFrame(env: Env, f: Frame, o: nat, len: nat, buf: int): (g: Frame)
    requires Fits(env.packet, o, len) && OnStack(buf, len)
  {
    if o in env.copied then Write(f, buf, ByteCells(env.packet[o..o + len])) else f
  }

  /** A slice call whose arguments are in place. */
  predicate SliceArgs(st: State, o: nat, len: nat, buf: int)
  {
    && o < TWO64 && len < TWO64 && st.depth == 0 && HasDynptr(st.frame) && OnStack(buf, len)
    && st.regs[1] == Ptr(Stack(0), DYNPTR) && st.regs[2] == Num(o) && st.regs[3] == Ptr(Stack(0), buf) && st.regs[4] == Num(len)
  }

  function Sliced(env: Env, st: State, o: nat, len: nat, buf: int): (s: State)
    requires OnStack(buf, len)
  {
    if Fits(env.packet, o, len)
    then st.(regs := Clobber(st.regs, SlicePtr(env, o, buf)), frame := SliceFrame(env, st.frame, o, len, buf))
    else st.(regs := Clobber(st.regs, Num(0)))
  }

  lemma SliceDo(env: Env, st: State, o: nat, len: nat, buf: int)
    requires SliceArgs(st, o, len, buf)
    ensures Slice(env, st) == Some(Sliced(env, st, o, len, buf))
  {
    hide Write;
  }

  /** The call, its check and the error path; the header's address ends up in r0. */
  lemma SliceCheckExec(env: Env, slot: u32, st: State, o: nat, len: nat, buf: int)
    requires SliceArgs(st, o, len, buf) && st.regs[10] == Ptr(Stack(0), 0)
    requires PacketSize(env) < TWO64 && Load(st.frame, PKT_SIZE, 8) == Num(PacketSize(env))
    ensures var c := [T(CallKfunc(DynptrSlice)), T(JmpImm(Jne, 0, 0, 5))] + ErrorExit(env.hook, slot);
            if Fits(env.packet, o, len) then Exec(c, 0, env, st) == Off(0, Sliced(env, st, o, len, buf))
            else Failed(env, st, slot, Exec(c, 0, env, st))
  {
    hide Exec, Load, ErrorExit, Bump, Slice, SliceFrame;
    var a, e := [T(CallKfunc(DynptrSlice)), T(JmpImm(Jne, 0, 0, 5))], ErrorExit(env.hook, slot);
    var c := a + e;
    var s := Sliced(env, st, o, len, buf);
    SliceDo(env, st, o, len, buf);
    Plain(c, 0, env, st, s);
    Jumps(c, 1, env, s, Fits(env.packet, o, len));
    if Fits(env.packet, o, len) {
      End(c, env, s);
    } else {
      ExecShift(a, e, 2, env, s);
      ErrorExitExec(env, slot, s);
    }
  }

  /** The arguments of a slice: the dynptr, the offset in slot `off` and the buffer. */
  lemma ArgsExec(env: Env, st: State, off: i16, buf: i16, o: u32)
    requires st.depth == 0 && st.regs[10] == Ptr(Stack(0), 0) && OnStack(off, 4) && Load(st.frame, off, 4) == Num(o)
    requires OnStack(buf, 0)
    ensures Exec([T(Mov64Reg(1, 10)), T(Alu64Imm(Add, 1, DYNPTR)), T(Ldx(W, 2, 10, off)), T(Mov64Reg(3, 10)), T(Alu64Imm(Add, 3, buf))], 0, env, st) ==
            Off(0, With(With(With(st, 1, Ptr(Stack(0), DYNPTR)), 2, Num(o)), 3, Ptr(Stack(0), buf)))
  {
    hide Exec, Load, Do, LoadMem;
    var c := [T(Mov64Reg(1, 10)), T(Alu64Imm(Add, 1, DYNPTR)), T(Ldx(W, 2, 10, off)), T(Mov64Reg(3, 10)), T(Alu64Imm(Add, 3, buf))];
    var t1 := With(st, 1, Ptr(Stack(0), 0));
    Mov(c, 0, env, st, 1, 10);
    var s1 := With(st, 1, Ptr(Stack(0), DYNPTR));
    assert t1.regs[1 := Ptr(Stack(0), DYNPTR)] == s1.regs;
    AluImm(c, 1, env, t1, Add, 1, DYNPTR, Ptr(Stack(0), DYNPTR));
    var s2 := With(s1, 2, Num(o));
    LoadStack(env, s1, off, 4);
    Ld(c, 2, env, s1, W, 2, 10, off, Num(o));
    var t3 := With(s2, 3, Ptr(Stack(0), 0));
    Mov(c, 3, env, s2, 3, 10);
    var s3 := With(s2, 3, Ptr(Stack(0), buf));
    assert t3.regs[3 := Ptr(Stack(0), buf)] == s3.regs;
    AluImm(c, 4, env, t3, Add, 3, buf, Ptr(Stack(0), buf));
    End(c, env, s3);
  }

  lemma StorePtrExec(off: i16, env: Env, st: State)
    requires st.depth == 0 && st.regs[10] == Ptr(Stack(0), 0) && OnStack(off, 8) && st.regs[0].Ptr?
    ensures Exec([T(Stx(DW, 10, 0, off))], 0, env, st) == Off(0, st.(frame := Write(st.frame, off, Fragments(st.regs[0]))))
  {
    hide Exec, Write, Fragments;
    var c := [T(Stx(DW, 10, 0, off))];
    var s := st.(frame := Write(st.frame, off, Fragments(st.regs[0])));
    Plain(c, 0, env, st, s);
    End(c, env, s);
  }

  /** The stack after a header at `o` was sliced into `buf` and its address stored in `hdr`. */
  function HeaderFrame(env: Env, f: Frame, o: nat, len: nat, buf: int, hdr: int): (g: Frame)
    requires Fits(env.packet, o, len) && OnStack(buf, len) && OnStack(hdr, 8)
  {
    Write(SliceFrame(env, f, o, len, buf), hdr, Fragments(SlicePtr(env, o, buf)))
  }

  /** Slots away from the buffer and the address slot keep their value. */
  lemma HeaderOther(env: Env, f: Frame, o: nat, len: nat, buf: int, hdr: int, off: int, n: nat)
    requires Fits(env.packet, o, len) && OnStack(buf, len) && OnStack(hdr, 8) && OnStack(off, n)
    requires off + n <= buf || buf + len <= off
    requires off + n <= hdr || hdr + 8 <= off
    ensures HeaderFrame(env, f, o, len, buf, hdr)[STACK_SIZE + off..STACK_SIZE + off + n] == f[STACK_SIZE + off..STACK_SIZE + off + n]
  {
    hide Write, Fragments, ByteCells;
    var g := SliceFrame(env, f, o, len, buf);
    WriteOther(g, hdr, Fragments(SlicePtr(env, o, buf)), off, n);
    if o in env.copied {
      WriteOther(f, buf, ByteCells(env.packet[o..o + len]), off, n);
    }
  }

  lemma HeaderOtherLoad(env: Env, f: Frame, o: nat, len: nat, buf: int, hdr: int, off: int, n: nat)
    requires Fits(env.packet, o, len) && OnStack(buf, len) && OnStack(hdr, 8) && OnStack(off, n) && 1 <= n <= 8
    requires off + n <= buf || buf + len <= off
    requires off + n <= hdr || hdr + 8 <= off
    ensures Load(HeaderFrame(env, f, o, len, buf, hdr), off, n) == Load(f, off, n)
  {
    hide HeaderFrame;
    HeaderOther(env, f, o, len, buf, hdr, off, n);
  }

  /** The address slot points at the bytes of the header. */
  lemma HeaderSelf(env: Env, f: Frame, o: nat, len: nat, buf: int, hdr: int)
    requires Fits(env.packet, o, len) && OnStack(buf, len) && OnStack(hdr, 8)
    requires hdr + 8 <= L2 <= buf && buf + len <= SCRATCH
    ensures var g := HeaderFrame(env, f, o, len, buf, hdr);
            Load(g, hdr, 8) == SlicePtr(env, o, buf) && HdrAt(env, g, SlicePtr(env, o, buf), env.packet[o..o + len])
  {
    hide Write, Fragments, ByteCells, Load;
    var g1 := SliceFrame(env, f, o, len, buf);
    var p := SlicePtr(env, o, buf);
    WriteSame(g1, hdr, Fragments(p));
    LoadFragments(Write(g1, hdr, Fragments(p)), hdr, p);
    if o in env.copied {
      WriteSame(f, buf, ByteCells(env.packet[o..o + len]));
      WriteOther(g1, hdr, Fragments(p), buf, len);
    }
  }

  /** A whole slice stub. */
  lemma SliceStubExec(env: Env, slot: u32, st: State, off: i16, buf: i16, hdr: i16, o: u32, len: byte)
    requires st.depth == 0 && st.regs[10] == Ptr(Stack(0), 0) && HasDynptr(st.frame)
    requires OnStack(off, 4) && Load(st.frame, off, 4) == Num(o) && st.regs[4] == Num(len)
    requires OnStack(buf, len) && OnStack(hdr, 8)
    requires PacketSize(env) < TWO64 && Load(st.frame, PKT_SIZE, 8) == Num(PacketSize(env))
    ensures var x := Exec(SliceStub(env.hook, slot, off, buf, hdr), 0, env, st);
            if Fits(env.packet, o, len) then
              x == Off(0, st.(regs := Clobber(st.regs, SlicePtr(env, o, buf)), frame := HeaderFrame(env, st.frame, o, len, buf, hdr)))
            else Failed(env, st, slot, x)
  {
    hide Exec, Load, ErrorExit, Bump, SliceFrame, Fragments, Write, HasDynptr, Do;
    var a := [T(Mov64Reg(1, 10)), T(Alu64Imm(Add, 1, DYNPTR)), T(Ldx(W, 2, 10, off)), T(Mov64Reg(3, 10)), T(Alu64Imm(Add, 3, buf))];
    var b, z := [T(CallKfunc(DynptrSlice)), T(JmpImm(Jne, 0, 0, 5))] + ErrorExit(env.hook, slot), [T(Stx(DW, 10, 0, hdr))];
    SliceParts(env.hook, slot, off, buf, hdr);
    ArgsExec(env, st, off, buf, o);
    var s1 := With(With(With(st, 1, Ptr(Stack(0), DYNPTR)), 2, Num(o)), 3, Ptr(Stack(0), buf));
    Seq(a, b + z, env, st, s1);
    SliceCheckExec(env, slot, s1, o, len, buf);
    if Fits(env.packet, o, len) {
      var s2 := Sliced(env, s1, o, len, buf);
      Seq(b, z, env, s1, s2);
      StorePtrExec(hdr, env, s2);
      assert s2.regs == Clobber(st.regs, SlicePtr(env, o, buf));
    } else {
      SeqOut(b, z, env, s1);
    }
  }

  lemma SliceParts(h: Hook, slot: u32, off: i16, buf: i16, hdr: i16)
    ensures SliceStub(h, slot, off, buf, hdr) ==
            [T(Mov64Reg(1, 10)), T(Alu64Imm(Add, 1, DYNPTR)), T(Ldx(W, 2, 10, off)), T(Mov64Reg(3, 10)), T(Alu64Imm(Add, 3, buf))]
            + (([T(CallKfunc(DynptrSlice)), T(JmpImm(Jne, 0, 0, 5))] + ErrorExit(h, slot)) + [T(Stx(DW, 10, 0, hdr))])
  {
    hide ErrorExit;
  }

  // ----- L2 -----

  lemma L2ArgsExec(env: Env, st: State)
    requires st.depth == 0 && st.regs[10] == Ptr(Stack(0), 0)
    ensures Exec([T(Mov64Reg(1, 10)), T(Alu64Imm(Add, 1, DYNPTR)), T(Mov64Imm(2, 0)), T(Mov64Reg(3, 10)), T(Alu64Imm(Add, 3, L2)), T(Mov64Imm(4, ETH_HLEN))], 0, env, st) ==
            Off(0, With(With(With(With(st, 1, Ptr(Stack(0), DYNPTR)), 2, Num(0)), 3, Ptr(Stack(0), L2)), 4, Num(ETH_HLEN)))
  {
    hide Exec, Do;
    var c := [T(Mov64Reg(1, 10)), T(Alu64Imm(Add, 1, DYNPTR)), T(Mov64Imm(2, 0)), T(Mov64Reg(3, 10)), T(Alu64Imm(Add, 3, L2)), T(Mov64Imm(4, ETH_HLEN))];
    var t1 := With(st, 1, Ptr(Stack(0), 0));
    Mov(c, 0, env, st, 1, 10);
    var s1 := With(st, 1, Ptr(Stack(0), DYNPTR));
    assert t1.regs[1 := Ptr(Stack(0), DYNPTR)] == s1.regs;
    AluImm(c, 1, env, t1, Add, 1, DYNPTR, Ptr(Stack(0), DYNPTR));
    var s2 := With(s1, 2, Num(0));
    MovImm(c, 2, env, s1, 2, 0);
    var t3 := With(s2, 3, Ptr(Stack(0), 0));
    Mov(c, 3, env, s2, 3, 10);
    var s3 := With(s2, 3, Ptr(Stack(0), L2));
    assert t3.regs[3 := Ptr(Stack(0), L2)] == s3.regs;
    AluImm(c, 4, env, t3, Add, 3, L2, Ptr(Stack(0), L2));
    var s4 := With(s3, 4, Num(ETH_HLEN));
    MovImm(c, 5, env, s3, 4, ETH_HLEN);
    End(c, env, s4);
  }

  lemma StOffsetExec(env: Env, st: State)
    requires st.depth == 0 && st.regs[10] == Ptr(Stack(0), 0)
    ensures Exec([T(St(W, 10, L3_OFFSET, ETH_HLEN))], 0, env, st) == Off(0, Stored(st, L3_OFFSET, ToLE(ETH_HLEN, 4)))
  {
    hide Exec, Write, ToLE;
    var c := [T(St(W, 10, L3_OFFSET, ETH_HLEN))];
    var s := Stored(st, L3_OFFSET, ToLE(ETH_HLEN, 4));
    Plain(c, 0, env, st, s);
    End(c, env, s);
  }

  lemma L2Parts(h: Hook, slot: u32)
    ensures L2Stub(h, slot) ==
            [T(Mov64Reg(1, 10)), T(Alu64Imm(Add, 1, DYNPTR)), T(Mov64Imm(2, 0)), T(Mov64Reg(3, 10)), T(Alu64Imm(Add, 3, L2)), T(Mov64Imm(4, ETH_HLEN))]
            + (([T(CallKfunc(DynptrSlice)), T(JmpImm(Jne, 0, 0, 5))] + ErrorExit(h, slot))
            + ([T(Stx(DW, 10, 0, L2_HDR))] + ([T(Ldx(H, 7, 0, 12))] + [T(St(W, 10, L3_OFFSET, ETH_HLEN))])))
  {
    hide ErrorExit;
  }

  lemma L2Exec(env: Env, slot: u32, st: State)
    requires Ready(env, st) && HasDynptr(st.frame) && EnvOk(env) && HasL2(env.hook)
    ensures var x := Exec(L2Stub(env.hook, slot), 0, env, st);
            match L3Start(env)
            case None => Failed(env, st, slot, x)
            case Some(start) =>
              x.Off? && x.k == 0 && Ready(env, x.st) && HasDynptr(x.st.frame) && x.st.counters == st.counters
              && Located(env, x.st, start.0, start.1)
  {
    hide Exec, Load, ErrorExit, Bump, SliceFrame, Fragments, Write, HasDynptr, Do, ToLE, HdrAt, SlicePtr;
    var a := [T(Mov64Reg(1, 10)), T(Alu64Imm(Add, 1, DYNPTR)), T(Mov64Imm(2, 0)), T(Mov64Reg(3, 10)), T(Alu64Imm(Add, 3, L2)), T(Mov64Imm(4, ETH_HLEN))];
    var b := [T(CallKfunc(DynptrSlice)), T(JmpImm(Jne, 0, 0, 5))] + ErrorExit(env.hook, slot);
    var c, d, e := [T(Stx(DW, 10, 0, L2_HDR))], [T(Ldx(H, 7, 0, 12))], [T(St(W, 10, L3_OFFSET, ETH_HLEN))];
    L2Parts(env.hook, slot);
    L2ArgsExec(env, st);
    var s1 := With(With(With(With(st, 1, Ptr(Stack(0), DYNPTR)), 2, Num(0)), 3, Ptr(Stack(0), L2)), 4, Num(ETH_HLEN));
    Seq(a, b + (c + (d + e)), env, st, s1);
    SliceCheckExec(env, slot, s1, 0, ETH_HLEN, L2);
    if Fits(env.packet, 0, ETH_HLEN) {
      var s2 := Sliced(env, s1, 0, ETH_HLEN, L2);
      Seq(b, c + (d + e), env, s1, s2);
      SlicePtrIsPtr(env, 0, L2);
      StorePtrExec(L2_HDR, env, s2);
      var s3 := s2.(frame := HeaderFrame(env, st.frame, 0, ETH_HLEN, L2, L2_HDR));
      Seq(c, d + e, env, s2, s3);
      HeaderSelf(env, st.frame, 0, ETH_HLEN, L2, L2_HDR);
      FieldExec(H, 7, 0, 12, env, s3, env.packet[0..ETH_HLEN]);
      SubSlice(env.packet, 0, ETH_HLEN, 12, 2);
      LEIsSwappedBE(env.packet[12..14]);
      var s4 := With(s3, 7, Num(Swap16(BE(env.packet[12..14]))));
      Seq(d, e, env, s3, s4);
      StOffsetExec(env, s4);
      L2Slots(env, st.frame);
    } else {
      SeqOut(b, c + (d + e), env, s1);
    }
  }

  lemma SlicePtrIsPtr(env: Env, o: nat, buf: int)
    ensures SlicePtr(env, o, buf).Ptr?
  {
  }

  lemma L2Slots(env: Env, f: Frame)
    requires Fits(env.packet, 0, ETH_HLEN)
    ensures var g := Write(HeaderFrame(env, f, 0, ETH_HLEN, L2, L2_HDR), L3_OFFSET, ByteCells(ToLE(ETH_HLEN, 4)));
            Load(g, PKT_SIZE, 8) == Load(f, PKT_SIZE, 8) && Load(g, IFINDEX, 2) == Load(f, IFINDEX, 2)
            && Load(g, L3_OFFSET, 4) == Num(ETH_HLEN) && (HasDynptr(f) ==> HasDynptr(g))
  {
    hide Load, Write, ToLE, ByteCells, HeaderFrame, Dynptr;
    var h := HeaderFrame(env, f, 0, ETH_HLEN, L2, L2_HDR);
    var c := ByteCells(ToLE(ETH_HLEN, 4));
    HeaderOtherLoad(env, f, 0, ETH_HLEN, L2, L2_HDR, PKT_SIZE, 8);
    HeaderOtherLoad(env, f, 0, ETH_HLEN, L2, L2_HDR, IFINDEX, 2);
    HeaderOther(env, f, 0, ETH_HLEN, L2, L2_HDR, DYNPTR, 16);
    OtherSlot(h, L3_OFFSET, c, PKT_SIZE, 8);
    OtherSlot(h, L3_OFFSET, c, IFINDEX, 2);
    WriteOther(h, L3_OFFSET, c, DYNPTR, 16);
    OffsetSlot(h, ETH_HLEN);
  }
}
