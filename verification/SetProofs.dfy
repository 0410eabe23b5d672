/** Set matchers: the key they build in the scratch area and its lookup. */
module SetProofs {
  import opened Bytes
  import opened Bpf
  import opened Model
  import opened Machine
  import opened Fragment
  import opened Codegen
  import opened Spec
  import opened Simulation
  import opened SwitchProofs
  import opened MatcherProofs

  function Stored(st: State, off: int, bs: seq<byte>): (s: State)
    requires OnStack(off, |bs|)
  {
    st.(frame := Write(st.frame, off, ByteCells(bs)))
  }

  lemma StoreExec(size: Size, r: Reg, off: i16, env: Env, st: State, bs: seq<byte>)
    requires st.regs[10] == Ptr(Stack(0), 0) && st.depth == 0
    requires |bs| == size.Len() && OnStack(off, |bs|) && st.regs[r] == NumOf(bs)
    ensures Exec([T(Stx(size, 10, r, off))], 0, env, st) == Off(0, Stored(st, off, bs))
  {
    hide Exec, LE, Write;
    var c := [T(Stx(size, 10, r, off))];
    ToLEOfLE(bs);
    Plain(c, 0, env, st, Stored(st, off, bs));
    End(c, env, Stored(st, off, bs));
  }

  /** `key` is in the scratch area. */
  predicate HasKey(f: Frame, key: seq<byte>)
    requires |key| <= 64
  {
    f[STACK_SIZE + SCRATCH..STACK_SIZE + SCRATCH + |key|] == ByteCells(key)
  }

  /** Lookup of the key in set 0, whatever set the matcher names. */
  lemma SetTailExec(index: nat, key: seq<byte>, env: Env, st: State)
    requires EnvOk(env) && st.regs[10] == Ptr(Stack(0), 0) && st.depth == 0
    requires |key| <= 64 && HasKey(st.frame, key) && env.sets != [] && env.sets[0].keySize <= |key|
    ensures Decided(st, Exec(SetTail(index), 0, env, st), Hit(SetKeys(env), key))
  {
    hide Exec, Load, LoadMem, StoreMem, MapLookup, MakeDynptr, Slice, HasKey, Hit, SetKeys;
    var c := SetTail(index);
    var fd := env.sets[0].fd;
    var s1 := With(st, 1, Ptr(MapFd(fd), 0));
    assert Exec(c, 0, env, st) == Exec(c, 2, env, s1) by { LdFd(c, env, st, s1); }
    var s2 := With(s1, 2, Ptr(Stack(0), 0));
    Mov(c, 2, env, s1, 2, 10);
    var s3 := With(s2, 2, Ptr(Stack(0), SCRATCH));
    AluImm(c, 3, env, s2, Add, 2, SCRATCH, Ptr(Stack(0), SCRATCH));
    var s4 := s3.(regs := Clobber(s3.regs, if Hit(SetKeys(env), key) then Ptr(SetSlot, 0) else Num(0)));
    Lookup(key, env, s3);
    Plain(c, 4, env, s3, s4);
    Leaves(c, 5, env, s4, !Hit(SetKeys(env), key));
    End(c, env, s4);
  }

  /** The stack bytes after a key of `n` bytes that a map with keys of `size` bytes looks at. */
  function AfterKey(f: Frame, n: nat, size: nat): (r: seq<Cell>)
    requires n <= size <= 64
  {
    f[STACK_SIZE + SCRATCH + n..STACK_SIZE + SCRATCH + size]
  }

  /**
   * If set 0 has longer keys, the lookup goes on with what earlier code left after the key; the
   * machine is stuck iff some of it was never written as bytes.
   */
  lemma LongKeyExec(index: nat, key: seq<byte>, env: Env, st: State)
    requires EnvOk(env) && st.regs[10] == Ptr(Stack(0), 0) && st.depth == 0
    requires env.sets != [] && |key| < env.sets[0].keySize <= 64 && HasKey(st.frame, key)
    ensures var rest := AfterKey(st.frame, |key|, env.sets[0].keySize);
            if AllBytes(rest) then Decided(st, Exec(SetTail(index), 0, env, st), Hit(SetKeys(env), key + CellBytes(rest)))
            else Exec(SetTail(index), 0, env, st) == Stuck
  {
    hide Exec, SetTail, Hit, Decided, SetKeys;
    var rest := AfterKey(st.frame, |key|, env.sets[0].keySize);
    if AllBytes(rest) {
      LongerKey(st.frame, key, env.sets[0].keySize);
      SetTailExec(index, key + CellBytes(rest), env, st);
    } else {
      LongKeyStuck(index, |key|, env, st);
    }
  }

  lemma LongerKey(f: Frame, key: seq<byte>, size: nat)
    requires |key| < size <= 64 && HasKey(f, key) && AllBytes(AfterKey(f, |key|, size))
    ensures HasKey(f, key + CellBytes(AfterKey(f, |key|, size)))
  {
    var i := STACK_SIZE + SCRATCH;
    var full := key + CellBytes(AfterKey(f, |key|, size));
    forall j | 0 <= j < size ensures f[i..i + size][j] == ByteCells(full)[j] {
      if j < |key| {
        assert f[i..i + |key|][j] == ByteCells(key)[j];
      } else {
        assert AfterKey(f, |key|, size)[j - |key|] == f[i + j];
      }
    }
  }

  lemma LongKeyStuck(index: nat, n: nat, env: Env, st: State)
    requires EnvOk(env) && st.regs[10] == Ptr(Stack(0), 0) && st.depth == 0
    requires env.sets != [] && n < env.sets[0].keySize <= 64 && !AllBytes(AfterKey(st.frame, n, env.sets[0].keySize))
    ensures Exec(SetTail(index), 0, env, st) == Stuck
  {
    hide Exec, Load, LoadMem, StoreMem, MapLookup, MakeDynptr, Slice, AfterKey;
    var c := SetTail(index);
    var s1 := With(st, 1, Ptr(MapFd(env.sets[0].fd), 0));
    LdFd(c, env, st, s1);
    var s2 := With(s1, 2, Ptr(Stack(0), 0));
    Mov(c, 2, env, s1, 2, 10);
    var s3 := With(s2, 2, Ptr(Stack(0), SCRATCH));
    AluImm(c, 3, env, s2, Add, 2, SCRATCH, Ptr(Stack(0), SCRATCH));
    NoLookup(n, env, s3);
    Blocked(c, 4, env, s3);
  }

  lemma NoLookup(n: nat, env: Env, st: State)
    requires EnvOk(env) && st.depth == 0 && env.sets != [] && n < env.sets[0].keySize <= 64
    requires !AllBytes(AfterKey(st.frame, n, env.sets[0].keySize))
    requires st.regs[1] == Ptr(MapFd(env.sets[0].fd), 0) && st.regs[2] == Ptr(Stack(0), SCRATCH)
    ensures MapLookup(env, st) == None
  {
    assert env.sets[0] in env.sets;
    var i, size := STACK_SIZE + SCRATCH, env.sets[0].keySize;
    assert st.frame[i..i + size][n..] == AfterKey(st.frame, n, size);
  }

  lemma Blocked(c: Code, i: nat, env: Env, st: State)
    requires i < |c| && c[i].insn == CallHelper(MapLookupElem) && MapLookup(env, st) == None
    ensures Exec(c, i, env, st) == Stuck
  {
    hide MapLookup;
  }

  lemma LdFd(c: Code, env: Env, st: State, s: State)
    requires |c| > 1 && c[0].insn.LdMapFd? && c[0].insn.dst != 10 && c[0].tag.SetFd? && env.sets != []
    requires s == With(st, c[0].insn.dst, Ptr(MapFd(env.sets[0].fd), 0))
    ensures Exec(c, 0, env, st) == Exec(c, 2, env, s)
  {
    hide Do;
  }

  lemma Lookup(key: seq<byte>, env: Env, st: State)
    requires EnvOk(env) && st.depth == 0 && |key| <= 64 && HasKey(st.frame, key)
    requires env.sets != [] && env.sets[0].keySize <= |key|
    requires st.regs[1] == Ptr(MapFd(env.sets[0].fd), 0) && st.regs[2] == Ptr(Stack(0), SCRATCH)
    ensures MapLookup(env, st) ==
            Some(st.(regs := Clobber(st.regs, if Hit(SetKeys(env), key) then Ptr(SetSlot, 0) else Num(0))))
  {
    hide Hit, SetKeys, ByteCells, CellBytes;
    assert env.sets[0] in env.sets;
    var n := env.sets[0].keySize;
    KeyPrefix(st.frame, key, n);
    CellsRoundTrip(key[..n]);
    HitIs(env, key);
  }

  /** The bytes a lookup in a map with shorter keys reads. */
  lemma KeyPrefix(f: Frame, key: seq<byte>, n: nat)
    requires |key| <= 64 && HasKey(f, key) && n <= |key|
    ensures f[STACK_SIZE + SCRATCH..STACK_SIZE + SCRATCH + n] == ByteCells(key[..n])
  {
    var i := STACK_SIZE + SCRATCH;
    SubSlice(f, i, |key|, 0, n);
    assert ByteCells(key)[0..n] == ByteCells(key[..n]);
  }

  lemma HitIs(env: Env, key: seq<byte>)
    requires env.sets != [] && env.sets[0].keySize <= |key|
    ensures Hit(SetKeys(env), key) <==> key[..env.sets[0].keySize] in env.sets[0].keys
  {
    var n := env.sets[0].keySize;
    if key[..n] in env.sets[0].keys {
      assert key[..n] in SetKeys(env) && key[..n] <= key;
    }
    if k :| k in SetKeys(env) && k <= key {
      assert k == key[..n];
    }
  }

  // ----- IPv4 -----

  lemma Ip4SetExec(m: Matcher, k: nat, env: Env, st: State, hdr: seq<byte>)
    requires m.kind in {Ip4SrcAddr, Ip4DstAddr} && m.op == In && KeyFits(m, env) && EnvOk(env)
    requires st.regs[10] == Ptr(Stack(0), 0) && st.depth == 0 && |hdr| == 20 && HdrAt(env, st.frame, st.regs[6], hdr)
    ensures Decided(st, Exec([T(Ldx(W, 2, 6, AddrOff(m.kind))), T(Stx(W, 10, 2, SCRATCH))] + SetTail(k), 0, env, st),
                    Hit(SetKeys(env), hdr[AddrOff(m.kind)..AddrOff(m.kind) + 4]))
  {
    hide Exec, HdrAt, LE, Do, LoadMem, SetTail;
    var o := AddrOff(m.kind);
    var x := hdr[o..o + 4];
    var a, b, z := [T(Ldx(W, 2, 6, o))], [T(Stx(W, 10, 2, SCRATCH))], SetTail(k);
    assert [T(Ldx(W, 2, 6, o)), T(Stx(W, 10, 2, SCRATCH))] + z == a + b + z;
    FieldExec(W, 2, 6, o, env, st, hdr);
    var s1 := With(st, 2, NumOf(x));
    Seq(a, b, env, st, s1);
    StoreExec(W, 2, SCRATCH, env, s1, x);
    var s2 := Stored(s1, SCRATCH, x);
    Seq(a + b, z, env, st, s2);
    WriteSame(s1.frame, SCRATCH, ByteCells(x));
    ScratchWrite(s1.frame, SCRATCH, ByteCells(x));
    SetTailExec(k, x, env, s2);
  }

  lemma Ip4Exec(m: Matcher, sets: seq<Set>, env: Env, v: View, st: State)
    requires PayloadOk(m) && Holds(env, v, st) && m.kind in {Ip4SrcAddr, Ip4DstAddr, Ip4Proto}
    requires EnvOk(env) && KeyFits(m, env) && Ip4Code(m, sets).Ok?
    ensures Decided(st, Exec(Ip4Code(m, sets).value, 0, env, st), Accepts(m, SetKeys(env), v))
  {
    hide Exec, HdrAt, Load, LE, GuardL3, SetTail, Ip4AddrCode, U32At, MaskedEq;
    var g := GuardL3(ETH_P_IP);
    var z := Ip4Code(m, sets).value[|g|..];
    assert Ip4Code(m, sets).value == g + z;
    GuardL3Exec(ETH_P_IP, env, v, st);
    if L3Num(v.l3) == ETH_P_IP {
      var s := With(st, 6, Load(st.frame, L3_HDR, 8));
      Seq(g, z, env, st, s);
      if m.kind == Ip4Proto {
        Ip4ProtoExec(m, env, s, v.l3.hdr);
      } else if m.op == In {
        Ip4SetExec(m, U32At(m.payload, 0), env, s, v.l3.hdr);
      } else {
        Ip4AddrExec(m, env, s, v.l3.hdr);
      }
    } else {
      SeqOut(g, z, env, st);
    }
  }

  // ----- IPv6 -----

  /** The two halves of an address stored in the scratch area. */
  lemma StoreAddrExec(env: Env, st: State, x: seq<byte>)
    requires |x| == 16 && HoldsAddr(st, st, x) && st.regs[10] == Ptr(Stack(0), 0) && st.depth == 0
    ensures var s := Stored(Stored(st, SCRATCH, x[0..8]), SCRATCH + 8, x[8..16]);
            Exec([T(Stx(DW, 10, 1, SCRATCH)), T(Stx(DW, 10, 2, SCRATCH + 8))], 0, env, st) == Off(0, s)
            && HasKey(s.frame, x) && Kernel(s.frame) == Kernel(st.frame)
  {
    hide Exec, LE, Do;
    var a, b := [T(Stx(DW, 10, 1, SCRATCH))], [T(Stx(DW, 10, 2, SCRATCH + 8))];
    assert [T(Stx(DW, 10, 1, SCRATCH)), T(Stx(DW, 10, 2, SCRATCH + 8))] == a + b;
    StoreExec(DW, 1, SCRATCH, env, st, x[0..8]);
    var s1 := Stored(st, SCRATCH, x[0..8]);
    Seq(a, b, env, st, s1);
    StoreExec(DW, 2, SCRATCH + 8, env, s1, x[8..16]);
    KeyOf(st.frame, x[0..8], x[8..16]);
    assert x == x[0..8] + x[8..16];
  }

  lemma KeyOf(f: Frame, a: seq<byte>, b: seq<byte>)
    requires |a| + |b| <= 64
    ensures var g := Write(Write(f, SCRATCH, ByteCells(a)), SCRATCH + |a|, ByteCells(b));
            HasKey(g, a + b) && Kernel(g) == Kernel(f)
  {
    var g1 := Write(f, SCRATCH, ByteCells(a));
    var g := Write(g1, SCRATCH + |a|, ByteCells(b));
    ScratchWrite(f, SCRATCH, ByteCells(a));
    ScratchWrite(g1, SCRATCH + |a|, ByteCells(b));
    WriteSame(f, SCRATCH, ByteCells(a));
    ExtendKey(g1, a, b);
  }

  lemma ExtendKey(f: Frame, a: seq<byte>, b: seq<byte>)
    requires |a| + |b| <= 64 && HasKey(f, a)
    ensures HasKey(Write(f, SCRATCH + |a|, ByteCells(b)), a + b)
  {
    var i := STACK_SIZE + SCRATCH;
    var g := Write(f, SCRATCH + |a|, ByteCells(b));
    WriteSame(f, SCRATCH + |a|, ByteCells(b));
    WriteOther(f, SCRATCH + |a|, ByteCells(b), SCRATCH, |a|);
    assert ByteCells(a + b) == ByteCells(a) + ByteCells(b);
    assert g[i..i + |a| + |b|] == g[i..i + |a|] + g[i + |a|..i + |a| + |b|];
  }

  lemma SetIp6Exec(m: Matcher, env: Env, v: View, st: State)
    requires PayloadOk(m) && Holds(env, v, st) && m.kind == SetSrcIp6 && EnvOk(env) && KeyFits(m, env)
    ensures Decided(st, Exec(SetCode(m), 0, env, st), Accepts(m, SetKeys(env), v))
  {
    hide Exec, LE, HdrAt, Load, GuardL3, SetTail, U32At;
    var k := U32At(m.payload, 0);
    var g, l := GuardL3(ETH_P_IPV6), [T(Ldx(DW, 1, 6, 8)), T(Ldx(DW, 2, 6, 16))];
    var w, z := [T(Stx(DW, 10, 1, SCRATCH)), T(Stx(DW, 10, 2, SCRATCH + 8))], SetTail(k);
    assert SetCode(m) == g + (l + (w + z));
    GuardL3Exec(ETH_P_IPV6, env, v, st);
    if L3Num(v.l3) == ETH_P_IPV6 {
      var x := v.l3.hdr[8..24];
      var s0 := With(st, 6, Load(st.frame, L3_HDR, 8));
      Seq(g, l + (w + z), env, st, s0);
      var s1 := LoadAddrExec(8, env, s0, v.l3.hdr);
      Seq(l, w + z, env, s0, s1);
      StoreAddrExec(env, s1, x);
      var s2 := Stored(Stored(s1, SCRATCH, x[0..8]), SCRATCH + 8, x[8..16]);
      Seq(w, z, env, s1, s2);
      SetTailExec(k, x, env, s2);
    } else {
      SeqOut(g, l + (w + z), env, st);
    }
  }

  // ----- IPv6 address and port -----

  function PortKeyCases(): (c: seq<Case>)
  {
    [Case(IPPROTO_TCP, [Ldx(H, 3, 6, 0)]), Case(IPPROTO_TCP, [Ldx(H, 3, 6, 0)])]
  }

  /** r3 gets the source port of a TCP packet, and 0 for anything else, UDP included. */
  lemma TcpPortExec(env: Env, v: View, st: State)
    requires ViewOk(v) && st.depth == 0 && st.regs[8] == Num(L4Num(v.l4))
    requires !v.l4.NoL4? ==> HdrAt(env, st.frame, st.regs[6], v.l4.hdr)
    ensures Exec(SwitchCode(8, PortKeyCases(), Some([Mov64Imm(3, 0)])), 0, env, st) ==
            Off(0, With(st, 3, if L4Num(v.l4) == IPPROTO_TCP then NumOf(v.l4.hdr[0..2]) else Num(0)))
  {
    hide Exec, HdrAt, Block, SwitchCode, LoadMem, LE;
    var x := L4Num(v.l4);
    var c := PortKeyCases();
    var i := if x == IPPROTO_TCP then Ldx(H, 3, 6, 0) else Mov64Imm(3, 0);
    Pick2(c[0], c[1], x);
    BodiesLen2(c[0], c[1]);
    Block1(i, env, st);
    Block1(Ldx(H, 3, 6, 0), env, st);
    Block1(Mov64Imm(3, 0), env, st);
    SwitchExec(8, c, Some([Mov64Imm(3, 0)]), env, st, x);
    if x == IPPROTO_TCP {
      LoadHdr(env, st, st.regs[6], v.l4.hdr, 0, 2);
    }
  }

  /** The key: the address of the L3 header at the slot, then the port in r3. */
  lemma PortKeyExec(env: Env, v: View, st: State, port: seq<byte>) returns (s: State)
    requires Holds(env, v, st) && v.l3.Ip6? && |port| == 2 && st.regs[3] == NumOf(port) && LE(port) != 0
    ensures Exec(Ip6PortKeyCode(), 0, env, st) == Off(0, s)
    ensures Kept(st, s) && HasKey(s.frame, v.l3.hdr[8..24] + port)
  {
    hide Exec, LE, HdrAt, Load, Do;
    var j, g, l := [N(JmpImm(Jeq, 3, 0, 0))], [T(Ldx(DW, 6, 10, L3_HDR))], [T(Ldx(DW, 1, 6, 8)), T(Ldx(DW, 2, 6, 16))];
    var w, p := [T(Stx(DW, 10, 1, SCRATCH)), T(Stx(DW, 10, 2, SCRATCH + 8))], [T(Stx(H, 10, 3, SCRATCH + 16))];
    var x := v.l3.hdr[8..24];
    assert Ip6PortKeyCode() == j + (g + (l + (w + p)));
    Leaves(j, 0, env, st, false);
    End(j, env, st);
    Seq(j, g + (l + (w + p)), env, st, st);
    var s0 := With(st, 6, Load(st.frame, L3_HDR, 8));
    LoadHdrSlot(env, st);
    Seq(g, l + (w + p), env, st, s0);
    var s1 := LoadAddrExec(8, env, s0, v.l3.hdr);
    Seq(l, w + p, env, s0, s1);
    StoreAddrExec(env, s1, x);
    var s2 := Stored(Stored(s1, SCRATCH, x[0..8]), SCRATCH + 8, x[8..16]);
    Seq(w, p, env, s1, s2);
    assert s2.regs[3] == s1.regs[3..][0] == s0.regs[3..][0] == st.regs[3];
    StoreExec(H, 3, SCRATCH + 16, env, s2, port);
    s := Stored(s2, SCRATCH + 16, port);
    ExtendKey(s2.frame, x, port);
    ScratchWrite(s2.frame, SCRATCH + 16, ByteCells(port));
  }

  lemma LoadHdrSlot(env: Env, st: State)
    requires st.regs[10] == Ptr(Stack(0), 0) && st.depth == 0
    ensures Exec([T(Ldx(DW, 6, 10, L3_HDR))], 0, env, st) == Off(0, With(st, 6, Load(st.frame, L3_HDR, 8)))
  {
    hide Exec, Load;
    var c := [T(Ldx(DW, 6, 10, L3_HDR))];
    Plain(c, 0, env, st, With(st, 6, Load(st.frame, L3_HDR, 8)));
    End(c, env, With(st, 6, Load(st.frame, L3_HDR, 8)));
  }

  lemma GuardPortExec(env: Env, v: View, st: State)
    requires Holds(env, v, st)
    ensures Exec([N(JmpImm(Jne, 7, Swap16(ETH_P_IPV6), 0)), T(Ldx(DW, 6, 10, L4_HDR))], 0, env, st) ==
            if v.l3.Ip6? then Off(0, With(st, 6, Load(st.frame, L4_HDR, 8))) else Next(st)
  {
    hide Exec, Load, HdrAt;
    var c := [N(JmpImm(Jne, 7, Swap16(ETH_P_IPV6), 0)), T(Ldx(DW, 6, 10, L4_HDR))];
    SwapEq(L3Num(v.l3), ETH_P_IPV6);
    Leaves(c, 0, env, st, !v.l3.Ip6?);
    if v.l3.Ip6? {
      var s := With(st, 6, Load(st.frame, L4_HDR, 8));
      Plain(c, 1, env, st, s);
      End(c, env, s);
    }
  }

  lemma SetIp6PortExec(m: Matcher, env: Env, v: View, st: State)
    requires PayloadOk(m) && Holds(env, v, st) && m.kind == SetSrcIp6Port && EnvOk(env) && KeyFits(m, env)
    ensures Decided(st, Exec(SetCode(m), 0, env, st), Accepts(m, SetKeys(env), v))
  {
    hide Exec, LE, HdrAt, Load, SetTail, U32At, SwitchCode, Ip6PortKeyCode, BE;
    var k := U32At(m.payload, 0);
    var g := [N(JmpImm(Jne, 7, Swap16(ETH_P_IPV6), 0)), T(Ldx(DW, 6, 10, L4_HDR))];
    var w, y, z := SwitchCode(8, PortKeyCases(), Some([Mov64Imm(3, 0)])), Ip6PortKeyCode(), SetTail(k);
    assert SetCode(m) == g + (w + (y + z));
    GuardPortExec(env, v, st);
    if v.l3.Ip6? {
      var tcp := L4Num(v.l4) == IPPROTO_TCP;
      var s0 := With(st, 6, Load(st.frame, L4_HDR, 8));
      Seq(g, w + (y + z), env, st, s0);
      TcpPortExec(env, v, s0);
      var s1 := With(s0, 3, if tcp then NumOf(v.l4.hdr[0..2]) else Num(0));
      Seq(w, y + z, env, s0, s1);
      HoldsKept(env, v, st, s1);
      if tcp {
        LEIsSwappedBE(v.l4.hdr[0..2]);
      }
      if tcp && LE(v.l4.hdr[0..2]) != 0 {
        var s2 := PortKeyExec(env, v, s1, v.l4.hdr[0..2]);
        Seq(y, z, env, s1, s2);
        SetTailExec(k, v.l3.hdr[8..24] + v.l4.hdr[0..2], env, s2);
      } else {
        NoPort(env, s1, z);
      }
    } else {
      SeqOut(g, w + (y + z), env, st);
    }
  }

  lemma NoPort(env: Env, st: State, z: Code)
    requires st.regs[3] == Num(0)
    ensures Exec(Ip6PortKeyCode() + z, 0, env, st) == Next(st)
  {
    hide Exec;
    var c := Ip6PortKeyCode() + z;
    assert c[0] == N(JmpImm(Jeq, 3, 0, 0));
    Leaves(c, 0, env, st, true);
  }

  // ----- all matchers -----

  /** The code of any matcher continues with the rule exactly if the packet passes it. */
  lemma MatcherExec(m: Matcher, sets: seq<Set>, env: Env, v: View, st: State)
    requires PayloadOk(m) && Holds(env, v, st) && EnvOk(env) && KeyFits(m, env) && MatcherCode(m, sets).Ok?
    ensures Decided(st, Exec(MatcherCode(m, sets).value, 0, env, st), Accepts(m, SetKeys(env), v))
  {
    hide Exec, Holds, Accepts, Decided, MetaCode, Ip4Code, Ip6Code, L4Code, SetCode;
    var keys := SetKeys(env);
    match m.kind
    case MetaIfindex => IfindexExec(m, env, keys, v, st);
    case MetaL3Proto | MetaL4Proto => ProtoExec(m, env, keys, v, st);
    case MetaSport | MetaDport => MetaPortExec(m, env, keys, v, st);
    case Ip4SrcAddr | Ip4DstAddr | Ip4Proto => Ip4Exec(m, sets, env, v, st);
    case Ip6Saddr | Ip6Daddr => Ip6Exec(m, env, keys, v, st);
    case TcpFlags => L4FlagsExec(m, env, keys, v, st);
    case TcpSport | TcpDport | UdpSport | UdpDport => L4PortExec(m, env, keys, v, st);
    case SetSrcIp6Port => SetIp6PortExec(m, env, v, st);
    case SetSrcIp6 => SetIp6Exec(m, env, v, st);
  }
}
