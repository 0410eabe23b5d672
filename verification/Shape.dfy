/** The static shape of generated code: forward jumps that stay inside, wide loads in pairs, tags where they belong. */
module Shape {
  import opened Bytes
  import opened Bpf
  import opened Model
  import opened Machine
  import opened Fragment
  import opened Codegen

  /** Slot `i` is well formed; jumps may go up to `slack` slots past the end of the code. */
  predicate SlotOk(code: Code, i: nat, slack: nat)
    requires i < |code|
  {
    var t := code[i];
    && (t.tag == NextRule ==> IsJump(t.insn))
    && (t.tag == UpdateCounters <==> t.insn.CallRel?)
    && (t.tag.SetFd? || t.tag.CountersFd? <==> t.insn.LdMapFd?)
    && (IsJump(t.insn) && t.tag == Done ==>
          0 <= t.insn.off && i + 1 + t.insn.off <= |code| + slack
          && (i + 1 + t.insn.off < |code| ==> !code[i + 1 + t.insn.off].insn.LdHi?))
    && (t.insn.LdMapFd? ==> i + 1 < |code| && code[i + 1].insn.LdHi?)
    && (t.insn.LdHi? ==> i > 0 && code[i - 1].insn.LdMapFd?)
  }

  predicate Within(code: Code, slack: nat)
  {
    forall i :: 0 <= i < |code| ==> SlotOk(code, i, slack)
  }

  predicate NoWide(code: Code)
  {
    forall i :: 0 <= i < |code| ==> !code[i].insn.LdHi?
  }

  predicate Closed(code: Code)
  {
    Within(code, 0)
  }

  lemma ClosedAppend(a: Code, b: Code)
    requires Closed(a) && Closed(b)
    ensures Closed(a + b)
  {
    var c := a + b;
    forall i | 0 <= i < |c| ensures SlotOk(c, i, 0) {
      if i < |a| {
        assert SlotOk(a, i, 0);
        if |b| > 0 {
          assert SlotOk(b, 0, 0);
        }
      } else {
        assert SlotOk(b, i - |a|, 0);
      }
    }
  }

  lemma WithinAppend(a: Code, b: Code, slack: nat)
    requires Within(a, |b| + slack) && Within(b, slack) && NoWide(a) && NoWide(b)
    ensures Within(a + b, slack) && NoWide(a + b)
  {
    var c := a + b;
    forall i | 0 <= i < |c| ensures SlotOk(c, i, slack) {
      if i < |a| {
        assert SlotOk(a, i, |b| + slack);
      } else {
        assert SlotOk(b, i - |a|, slack);
      }
    }
  }

  lemma Weaken(code: Code, s: nat, t: nat)
    requires Within(code, s) && s <= t
    ensures Within(code, t)
  {
    forall i | 0 <= i < |code| ensures SlotOk(code, i, t) {
      assert SlotOk(code, i, s);
    }
  }

  /** Instructions that neither jump nor take two slots. */
  predicate Flat(code: Code)
  {
    forall i :: 0 <= i < |code| ==>
      (code[i].tag == Done && (IsPlain(code[i].insn) || code[i].insn.Exit?))
      || (code[i].tag == NextRule && IsJump(code[i].insn))
      || (code[i].tag == UpdateCounters && code[i].insn.CallRel?)
  }

  lemma FlatWithin(code: Code, slack: nat)
    requires Flat(code)
    ensures Within(code, slack) && NoWide(code)
  {
  }

  // ----- switch -----

  predicate PlainInsns(insns: seq<Insn>)
  {
    forall i :: i in insns ==> IsPlain(i)
  }

  predicate PlainBodies(cases: seq<Case>)
  {
    forall c :: c in cases ==> PlainInsns(c.body)
  }

  lemma {:induction false} JumpsWithin(reg: Reg, cases: seq<Case>, after: nat, slack: nat)
    requires |cases| + after + BodiesLen(cases) < 0x8000 && after + BodiesLen(cases) <= slack
    ensures Within(CaseJumps(reg, cases, after), slack) && NoWide(CaseJumps(reg, cases, after))
    decreases |cases|
  {
    if cases != [] {
      var rest := CaseJumps(reg, cases[1..], after + |cases[0].body| + 1);
      JumpsWithin(reg, cases[1..], after + |cases[0].body| + 1, slack);
      WithinAppend([T(JmpImm(Jeq, reg, ToI32(cases[0].imm), ToI16(|cases| - 1 + after)))], rest, slack);
    }
  }

  lemma {:induction false} BodiesWithin(cases: seq<Case>, dl: nat)
    requires PlainBodies(cases) && BodiesLen(cases) + dl < 0x8000
    ensures Within(CaseBodies(cases, dl), dl) && NoWide(CaseBodies(cases, dl))
    decreases |cases|
  {
    hide Untagged, Within, NoWide, ToI16;
    if cases == [] {
      FlatWithin([], dl);
    } else {
      var body, ja, rest := Untagged(cases[0].body), [T(Ja(ToI16(BodiesLen(cases[1..]) + dl)))], CaseBodies(cases[1..], dl);
      BodiesWithin(cases[1..], dl);
      PlainWithin(cases[0].body, |ja + rest| + dl);
      JaWithin(BodiesLen(cases[1..]) + dl, |rest| + dl);
      WithinAppend(ja, rest, dl);
      WithinAppend(body, ja + rest, dl);
      Assoc(body, ja, rest);
    }
  }

  lemma SwitchClosed(reg: Reg, cases: seq<Case>, default: Option<seq<Insn>>)
    requires PlainBodies(cases) && (default.Some? ==> PlainInsns(default.value))
    requires |cases| + 1 + BodiesLen(cases) + (if default.Some? then |default.value| else 0) < 0x8000
    ensures Closed(SwitchCode(reg, cases, default)) && NoWide(SwitchCode(reg, cases, default))
  {
    hide CaseJumps, CaseBodies, Untagged, Within, NoWide, ToI16, PlainInsns, PlainBodies;
    if default.None? {
      var js, bs := CaseJumps(reg, cases, 0), CaseBodies(cases, 0);
      JumpsWithin(reg, cases, 0, |bs|);
      BodiesWithin(cases, 0);
      WithinAppend(js, bs, 0);
    } else {
      DefaultClosed(reg, cases, default.value);
    }
  }

  lemma SwitchParts(a: Code, b: Code, c: Code, d: Code)
    ensures a + b + c + d == a + (b + (c + d))
  {
    Assoc(a, b, c);
    Assoc(a, b + c, d);
    Assoc(b, c, d);
  }

  lemma DefaultClosed(reg: Reg, cases: seq<Case>, d: seq<Insn>)
    requires PlainBodies(cases) && PlainInsns(d) && |cases| + 1 + BodiesLen(cases) + |d| < 0x8000
    ensures Closed(SwitchCode(reg, cases, Some(d))) && NoWide(SwitchCode(reg, cases, Some(d)))
  {
    hide CaseJumps, CaseBodies, BodiesLen, Untagged, Within, NoWide, ToI16, PlainInsns, PlainBodies;
    var js, ja, bs, ds := CaseJumps(reg, cases, 1), [T(Ja(ToI16(BodiesLen(cases))))], CaseBodies(cases, |d|), Untagged(d);
    BodiesWithin(cases, |d|);
    PlainWithin(d, 0);
    WithinAppend(bs, ds, 0);
    JaWithin(BodiesLen(cases), |bs + ds|);
    WithinAppend(ja, bs + ds, 0);
    JumpsWithin(reg, cases, 1, |ja + (bs + ds)|);
    WithinAppend(js, ja + (bs + ds), 0);
    SwitchParts(js, ja, bs, ds);
  }

  lemma PlainWithin(insns: seq<Insn>, slack: nat)
    requires PlainInsns(insns)
    ensures Within(Untagged(insns), slack) && NoWide(Untagged(insns))
  {
    FlatWithin(Untagged(insns), slack);
  }

  lemma JaWithin(off: nat, slack: nat)
    requires off <= slack && off < 0x8000
    ensures Within([T(Ja(ToI16(off)))], slack) && NoWide([T(Ja(ToI16(off)))])
  {
  }

  /** A switch whose cases have short bodies. */
  lemma SmallSwitchClosed(reg: Reg, cases: seq<Case>, default: Option<seq<Insn>>)
    requires |cases| <= 4 && PlainBodies(cases) && (forall c :: c in cases ==> |c.body| <= 7)
    requires default.Some? ==> |default.value| <= 1 && PlainInsns(default.value)
    ensures Closed(SwitchCode(reg, cases, default)) && NoWide(SwitchCode(reg, cases, default))
  {
    hide SwitchCode;
    BodiesShort(cases);
    SwitchClosed(reg, cases, default);
  }

  lemma {:induction false} BodiesShort(cases: seq<Case>)
    requires forall c :: c in cases ==> |c.body| <= 7
    ensures BodiesLen(cases) <= 8 * |cases|
  {
    if cases != [] {
      BodiesShort(cases[1..]);
    }
  }

  // ----- matchers -----

  lemma FlatClosed(code: Code)
    requires Flat(code)
    ensures Closed(code)
  {
    FlatWithin(code, 0);
  }

  lemma SetTailClosed(k: nat)
    ensures Closed(SetTail(k))
  {
    var c := SetTail(k);
    assert SlotOk(c, 0, 0) && SlotOk(c, 1, 0) && SlotOk(c, 2, 0) && SlotOk(c, 3, 0) && SlotOk(c, 4, 0) && SlotOk(c, 5, 0);
  }

  lemma MetaClosed(m: Matcher)
    requires PayloadOk(m) && m.kind in {MetaIfindex, MetaL3Proto, MetaL4Proto, MetaSport, MetaDport} && MetaCode(m).Ok?
    ensures Closed(MetaCode(m).value)
  {
    hide SwitchCode, ToI32, U16At, U32At;
    if m.kind in {MetaIfindex, MetaL3Proto, MetaL4Proto} {
      FlatClosed(MetaCode(m).value);
    } else {
      var o := PortOff(m.kind);
      var a, z, t := [T(Ldx(DW, 6, 10, L4_HDR))], [N(JmpImm(Jeq, 1, 0, 0))], PortTest(m.op, m.payload).value;
      var cases, d := [Case(IPPROTO_TCP, [Ldx(H, 1, 6, o)]), Case(IPPROTO_UDP, [Ldx(H, 1, 6, o)])], Some([Mov64Imm(1, 0)]);
      SmallSwitchClosed(8, cases, d);
      var w := SwitchCode(8, cases, d);
      FlatClosed(a);
      FlatClosed(z);
      FlatClosed(t);
      ClosedAppend(a, w);
      ClosedAppend(a + w, z);
      ClosedAppend(a + w + z, t);
      assert MetaCode(m).value == a + w + z + t;
    }
  }

  lemma Ip4Closed(m: Matcher, sets: seq<Set>)
    requires PayloadOk(m) && m.kind in {Ip4SrcAddr, Ip4DstAddr, Ip4Proto} && Ip4Code(m, sets).Ok?
    ensures Closed(Ip4Code(m, sets).value)
  {
    hide SetTail, ToI32, U32At;
    if m.kind != Ip4Proto && m.op == In {
      var k := U32At(m.payload, 0);
      var a := GuardL3(ETH_P_IP) + [T(Ldx(W, 2, 6, AddrOff(m.kind))), T(Stx(W, 10, 2, SCRATCH))];
      FlatClosed(a);
      SetTailClosed(k);
      ClosedAppend(a, SetTail(k));
      assert Ip4Code(m, sets).value == a + SetTail(k);
    } else {
      FlatClosed(Ip4Code(m, sets).value);
    }
  }

  lemma Ip6Closed(m: Matcher)
    requires PayloadOk(m) && m.kind in {Ip6Saddr, Ip6Daddr}
    ensures Closed(Ip6Code(m))
  {
    hide LE, ToI32, Ip6MaskCode, Ip6Test, And;
    var k := AddrOff(m.kind);
    var addr, mask := m.payload[0..16], m.payload[16..32];
    var g := GuardL3(ETH_P_IPV6) + [T(Ldx(DW, 1, 6, k)), T(Ldx(DW, 2, 6, k + 8))];
    FlatClosed(g);
    Ip6MaskClosed(mask);
    Ip6TestClosed(m.op, AndBytes(addr, mask));
    ClosedAppend(g, Ip6MaskCode(mask));
    ClosedAppend(g + Ip6MaskCode(mask), Ip6Test(m.op, AndBytes(addr, mask)));
    assert Ip6Code(m) == g + Ip6MaskCode(mask) + Ip6Test(m.op, AndBytes(addr, mask));
  }

  lemma Ip6MaskClosed(mask: seq<byte>)
    requires |mask| == 16
    ensures Closed(Ip6MaskCode(mask))
  {
    hide LE, ToI32;
    FlatClosed(Ip6MaskCode(mask));
  }

  lemma Imm64Within(b: seq<byte>, slack: nat)
    requires |b| == 8
    ensures Within(LoadImm64(b), slack) && NoWide(LoadImm64(b))
  {
    hide LE, ToI32;
    FlatWithin(LoadImm64(b), slack);
  }

  lemma Ip6JumpsWithin()
    ensures Within([N(Ja(0))], 0) && NoWide([N(Ja(0))])
    ensures Within([T(JmpReg(Jne, 2, 3, 1))], 1) && NoWide([T(JmpReg(Jne, 2, 3, 1))])
    ensures Within([T(JmpReg(Jne, 1, 3, 6))], 6) && NoWide([T(JmpReg(Jne, 1, 3, 6))])
  {
  }

  lemma Ip6EqClosed(want: seq<byte>)
    requires |want| == 16
    ensures Closed(Ip6Test(Eq, want))
  {
    hide LE, ToI32;
    FlatClosed(Ip6Test(Eq, want));
  }

  lemma Ip6TestClosed(op: MatcherOp, want: seq<byte>)
    requires |want| == 16
    ensures Closed(Ip6Test(op, want))
  {
    hide LE, ToI32, Within, NoWide, LoadImm64;
    if op == Eq {
      Ip6EqClosed(want);
    } else {
      var a, j0, b := LoadImm64(want[0..8]), [T(JmpReg(Jne, 1, 3, 6))], LoadImm64(want[8..16]);
      var j1, z := [T(JmpReg(Jne, 2, 3, 1))], [N(Ja(0))];
      Imm64Within(want[0..8], 7);
      Imm64Within(want[8..16], 2);
      Ip6JumpsWithin();
      WithinAppend(j1, z, 0);
      WithinAppend(b, j1 + z, 0);
      WithinAppend(j0, b + (j1 + z), 0);
      WithinAppend(a, j0 + (b + (j1 + z)), 0);
      assert Ip6Test(op, want) == a + (j0 + (b + (j1 + z)));
    }
  }

  lemma L4Closed(m: Matcher)
    requires PayloadOk(m) && m.kind in {TcpSport, TcpDport, TcpFlags, UdpSport, UdpDport} && L4Code(m).Ok?
    ensures Closed(L4Code(m).value)
  {
    hide U16At;
    FlatClosed(L4Code(m).value);
  }

  function Ip6KeyCode(): (c: Code)
  {
    [T(Ldx(DW, 1, 6, 8)), T(Ldx(DW, 2, 6, 16)), T(Stx(DW, 10, 1, SCRATCH)), T(Stx(DW, 10, 2, SCRATCH + 8))]
  }

  lemma Ip6KeyClosed()
    ensures Closed(GuardL3(ETH_P_IPV6) + Ip6KeyCode())
  {
    FlatClosed(GuardL3(ETH_P_IPV6) + Ip6KeyCode());
  }

  lemma PortKeyClosed()
    ensures Closed(Ip6PortKeyCode())
  {
    FlatClosed(Ip6PortKeyCode());
  }

  lemma SetClosed(m: Matcher)
    requires PayloadOk(m) && m.kind in {SetSrcIp6Port, SetSrcIp6}
    ensures Closed(SetCode(m))
  {
    hide SetTail, SwitchCode, U32At, Within, Ip6PortKeyCode, Closed;
    var k := U32At(m.payload, 0);
    SetTailClosed(k);
    if m.kind == SetSrcIp6 {
      Ip6KeyClosed();
      ClosedAppend(GuardL3(ETH_P_IPV6) + Ip6KeyCode(), SetTail(k));
    } else {
      var a := [N(JmpImm(Jne, 7, Swap16(ETH_P_IPV6), 0)), T(Ldx(DW, 6, 10, L4_HDR))];
      var cases, d := [Case(IPPROTO_TCP, [Ldx(H, 3, 6, 0)]), Case(IPPROTO_TCP, [Ldx(H, 3, 6, 0)])], Some([Mov64Imm(3, 0)]);
      var w := SwitchCode(8, cases, d);
      SmallSwitchClosed(8, cases, d);
      FlatClosed(a);
      PortKeyClosed();
      ClosedAppend(a, w);
      ClosedAppend(a + w, Ip6PortKeyCode());
      ClosedAppend(a + w + Ip6PortKeyCode(), SetTail(k));
      assert SetCode(m) == a + w + Ip6PortKeyCode() + SetTail(k);
    }
  }

  lemma MatcherClosed(m: Matcher, sets: seq<Set>)
    requires PayloadOk(m) && MatcherCode(m, sets).Ok?
    ensures Closed(MatcherCode(m, sets).value)
  {
    hide MetaCode, Ip4Code, Ip6Code, L4Code, SetCode, Closed;
    match m.kind
    case MetaIfindex | MetaL3Proto | MetaL4Proto | MetaSport | MetaDport => MetaClosed(m);
    case Ip4SrcAddr | Ip4DstAddr | Ip4Proto => Ip4Closed(m, sets);
    case Ip6Saddr | Ip6Daddr => Ip6Closed(m);
    case TcpSport | TcpDport | TcpFlags | UdpSport | UdpDport => L4Closed(m);
    case SetSrcIp6Port | SetSrcIp6 => SetClosed(m);
  }

  lemma {:induction false} MatchersClosed(ms: seq<Matcher>, sets: seq<Set>)
    requires PayloadsOk(ms) && MatchersCode(ms, sets).Ok?
    ensures Closed(MatchersCode(ms, sets).value)
  {
    hide MatcherCode, Closed;
    if ms == [] {
      FlatClosed([]);
    } else {
      MatcherClosed(ms[0], sets);
      MatchersClosed(ms[1..], sets);
      ClosedAppend(MatcherCode(ms[0], sets).value, MatchersCode(ms[1..], sets).value);
    }
  }

  lemma RuleClosed(h: Hook, r: Rule, sets: seq<Set>)
    requires PayloadsOk(r.matchers) && RuleCode(h, r, sets).Ok?
    ensures Closed(RuleCode(h, r, sets).value)
  {
    hide MatchersCode, ToI32;
    MatchersClosed(r.matchers, sets);
    FlatClosed(ActionCode(h, r));
    ClosedAppend(MatchersCode(r.matchers, sets).value, ActionCode(h, r));
  }

  /** No jump of a linked rule waits for the next rule any more, and all of them stay inside or go right after it. */
  lemma LinkedRuleClosed(code: Code)
    requires Closed(code) && ShortJumps(code)
    ensures Closed(LinkNext(code))
    ensures forall t :: t in LinkNext(code) ==> t.tag != NextRule
  {
    var c := LinkNext(code);
    forall i | 0 <= i < |c| ensures SlotOk(c, i, 0) {
      assert SlotOk(code, i, 0);
      if i + 1 < |c| {
        assert SlotOk(code, i + 1, 0);
      }
      if i > 0 {
        assert SlotOk(code, i - 1, 0);
      }
      if code[i].tag == Done && IsJump(code[i].insn) && i + 1 + code[i].insn.off < |c| {
        assert SlotOk(code, i + 1 + code[i].insn.off, 0);
      }
    }
  }

  // ----- prologue -----

  /** A check that skips the error path. */
  lemma CheckClosed(a: Code, j: Insn, h: Hook, slot: int)
    requires Flat(a) && j.JmpImm? && j.off == 5
    ensures Closed(a + ([T(j)] + ErrorExit(h, slot))) && NoWide(a + ([T(j)] + ErrorExit(h, slot)))
  {
    hide ErrorExit, Within, NoWide;
    ErrorExitFlat(h, slot);
    FlatWithin(ErrorExit(h, slot), 0);
    SkipWithin(j);
    WithinAppend([T(j)], ErrorExit(h, slot), 0);
    FlatWithin(a, 6);
    WithinAppend(a, [T(j)] + ErrorExit(h, slot), 0);
  }

  lemma SkipWithin(j: Insn)
    requires j.JmpImm? && j.off == 5
    ensures Within([T(j)], 5) && NoWide([T(j)])
  {
  }

  lemma ErrorExitFlat(h: Hook, slot: int)
    ensures Flat(ErrorExit(h, slot))
  {
    hide ToI32;
  }

  lemma DynptrClosed(h: Hook, slot: int)
    ensures Closed(DynptrStub(h, slot)) && NoWide(DynptrStub(h, slot))
  {
    hide ErrorExit, Within, NoWide;
    var a := [ T(Mov64Imm(2, 0)), T(Mov64Reg(3, 10)), T(Alu64Imm(Add, 3, DYNPTR)),
               T(CallKfunc(if h == Xdp then DynptrFromXdp else DynptrFromSkb)) ];
    CheckClosed(a, JmpImm(Jeq, 0, 0, 5), h, slot);
    assert DynptrStub(h, slot) == a + ([T(JmpImm(Jeq, 0, 0, 5))] + ErrorExit(h, slot));
  }

  lemma L2Closed(h: Hook, slot: int)
    ensures Closed(L2Stub(h, slot))
  {
    hide ErrorExit, Within, NoWide;
    var a := [ T(Mov64Reg(1, 10)), T(Alu64Imm(Add, 1, DYNPTR)), T(Mov64Imm(2, 0)),
               T(Mov64Reg(3, 10)), T(Alu64Imm(Add, 3, L2)), T(Mov64Imm(4, ETH_HLEN)), T(CallKfunc(DynptrSlice)) ];
    var z := [T(Stx(DW, 10, 0, L2_HDR)), T(Ldx(H, 7, 0, 12)), T(St(W, 10, L3_OFFSET, ETH_HLEN))];
    CheckClosed(a, JmpImm(Jne, 0, 0, 5), h, slot);
    FlatClosed(z);
    ClosedAppend(a + ([T(JmpImm(Jne, 0, 0, 5))] + ErrorExit(h, slot)), z);
    assert L2Stub(h, slot) == a + ([T(JmpImm(Jne, 0, 0, 5))] + ErrorExit(h, slot)) + z;
  }

  lemma SliceClosed(h: Hook, slot: int, off: i16, buf: i16, hdr: i16)
    ensures Closed(SliceStub(h, slot, off, buf, hdr)) && NoWide(SliceStub(h, slot, off, buf, hdr))
  {
    hide ErrorExit, Within, NoWide;
    var a := [ T(Mov64Reg(1, 10)), T(Alu64Imm(Add, 1, DYNPTR)), T(Ldx(W, 2, 10, off)),
               T(Mov64Reg(3, 10)), T(Alu64Imm(Add, 3, buf)), T(CallKfunc(DynptrSlice)) ];
    var b := a + ([T(JmpImm(Jne, 0, 0, 5))] + ErrorExit(h, slot));
    var z := [T(Stx(DW, 10, 0, hdr))];
    CheckClosed(a, JmpImm(Jne, 0, 0, 5), h, slot);
    FlatWithin(z, 0);
    Weaken(b, 0, 1);
    WithinAppend(b, z, 0);
    assert SliceStub(h, slot, off, buf, hdr) == b + z;
  }

  /** A switch, and a jump over the code that depends on it. */
  lemma SkipClosed(w: Code, r: Reg, body: Code)
    requires Closed(w) && NoWide(w) && Closed(body) && NoWide(body) && |body| < 0x8000
    ensures Closed(w + [T(JmpImm(Jeq, r, 0, ToI16(|body|)))] + body)
  {
    hide Within, NoWide, ToI16;
    var j := [T(JmpImm(Jeq, r, 0, ToI16(|body|)))];
    SkipOver(r, |body|);
    WithinAppend(j, body, 0);
    Weaken(w, 0, |j + body|);
    WithinAppend(w, j + body, 0);
    Assoc(w, j, body);
  }

  lemma SkipOver(r: Reg, n: nat)
    requires n < 0x8000
    ensures Within([T(JmpImm(Jeq, r, 0, ToI16(n)))], n) && NoWide([T(JmpImm(Jeq, r, 0, ToI16(n)))])
  {
  }

  lemma L3StubClosed(h: Hook, slot: int)
    ensures Closed(L3Stub(h, slot))
  {
    hide SliceStub, L3NextSwitch, L3SizeSwitch, Within, NoWide, ToI16;
    var a, b := SliceStub(h, slot, L3_OFFSET, L2, L3_HDR), L3NextSwitch();
    SliceClosed(h, slot, L3_OFFSET, L2, L3_HDR);
    L3SwitchesClosed();
    Weaken(a, 0, |b|);
    WithinAppend(a, b, 0);
    NextLen();
    SkipClosed(L3SizeSwitch(), 7, a + b);
  }

  lemma L3SwitchesClosed()
    ensures Closed(L3NextSwitch()) && NoWide(L3NextSwitch()) && Closed(L3SizeSwitch()) && NoWide(L3SizeSwitch())
  {
    hide SwitchCode, Within, NoWide, Closed, Ip4NextCode, Ip6NextCode, PlainInsns;
    NextPlainInsns();
    SizePlainInsns();
    SmallSwitchClosed(7, [Case(Swap16(ETH_P_IP), Ip4NextCode()), Case(Swap16(ETH_P_IPV6), Ip6NextCode())], None);
    SmallSwitchClosed(7, [Case(Swap16(ETH_P_IP), [Mov64Imm(4, 20)]), Case(Swap16(ETH_P_IPV6), [Mov64Imm(4, 40)])], Some([Mov64Imm(7, 0)]));
  }

  lemma NextPlainInsns()
    ensures PlainInsns(Ip4NextCode()) && |Ip4NextCode()| == 7 && PlainInsns(Ip6NextCode()) && |Ip6NextCode()| == 5
  {
  }

  lemma SizePlainInsns()
    ensures PlainInsns([Mov64Imm(4, 20)]) && PlainInsns([Mov64Imm(4, 40)]) && PlainInsns([Mov64Imm(7, 0)])
  {
  }

  lemma NextLen()
    ensures |L3NextSwitch()| == 16
  {
    hide CaseJumps, CaseBodies;
    var a, b := Case(Swap16(ETH_P_IP), Ip4NextCode()), Case(Swap16(ETH_P_IPV6), Ip6NextCode());
    assert [a, b][1..] == [b] && [b][1..] == [];
    assert BodiesLen([b]) == 6;
  }

  lemma L4StubClosed(h: Hook, slot: int)
    ensures Closed(L4Stub(h, slot))
  {
    hide SliceStub, SwitchCode, Within, NoWide, ToI16;
    SliceClosed(h, slot, L4_OFFSET, L4, L4_HDR);
    SmallSwitchClosed(8, [Case(IPPROTO_TCP, [Mov64Imm(4, 20)]), Case(IPPROTO_UDP, [Mov64Imm(4, 8)]),
                          Case(IPPROTO_ICMP, [Mov64Imm(4, 8)]), Case(IPPROTO_ICMPV6, [Mov64Imm(4, 8)])], Some([Mov64Imm(8, 0)]));
    SkipClosed(L4SizeSwitch(), 8, SliceStub(h, slot, L4_OFFSET, L4, L4_HDR));
  }

  lemma FamilyClosed(reg: Reg)
    ensures Closed(FamilySwitch(reg))
  {
    hide SwitchCode;
    SmallSwitchClosed(reg, [Case(AF_INET, [Mov64Imm(7, Swap16(ETH_P_IP))]), Case(AF_INET6, [Mov64Imm(7, Swap16(ETH_P_IPV6))])],
                      Some([Mov64Imm(7, 0)]));
  }

  lemma CgroupClosed(btf: Btf)
    ensures Closed(CgroupPrologue(btf))
  {
    hide FamilySwitch, Within;
    var a := [ T(Ldx(W, 2, 1, 76)), T(Ldx(W, 3, 1, 80)), T(Alu64Reg(Sub, 3, 2)), T(Alu64Imm(Add, 3, ETH_HLEN)),
               T(Stx(DW, 10, 3, PKT_SIZE)),
               T(Ldx(W, 2, 1, btf.skbIfindex)), T(Stx(W, 10, 2, IFINDEX)), T(Ldx(W, 2, 1, btf.skbFamily)) ];
    FlatClosed(a);
    FamilyClosed(2);
    FlatClosed([T(St(W, 10, L3_OFFSET, 0))]);
    ClosedAppend(a, FamilySwitch(2));
    ClosedAppend(a + FamilySwitch(2), [T(St(W, 10, L3_OFFSET, 0))]);
  }

  lemma NfClosed(h: Hook, btf: Btf)
    ensures Closed(NfPrologue(h, btf))
  {
    hide FamilySwitch, Within;
    var a := [ T(Ldx(DW, 2, 1, btf.nfState)), T(Ldx(DW, 3, 2, if IsNfIngress(h) then btf.stateIn else btf.stateOut)),
               T(Ldx(W, 4, 3, btf.devIfindex)), T(Stx(W, 10, 4, IFINDEX)), T(Ldx(B, 3, 2, btf.statePf)) ];
    var z := [ T(St(W, 10, L3_OFFSET, 0)), T(Ldx(DW, 1, 1, btf.nfSkb)), T(Ldx(W, 2, 1, btf.skbLen)),
               T(Alu64Imm(Add, 2, ETH_HLEN)), T(Stx(DW, 10, 2, PKT_SIZE)) ];
    FlatClosed(a);
    FamilyClosed(3);
    FlatClosed(z);
    ClosedAppend(a, FamilySwitch(3));
    ClosedAppend(a + FamilySwitch(3), z);
  }

  lemma HookClosed(h: Hook, btf: Btf)
    ensures Closed(HookPrologue(h, btf))
  {
    hide CgroupPrologue, NfPrologue, Within;
    if h == Xdp {
      FlatClosed(XdpPrologue());
    } else if IsTc(h) {
      FlatClosed(TcPrologue(btf));
    } else if IsCgroup(h) {
      CgroupClosed(btf);
    } else {
      NfClosed(h, btf);
    }
  }

  lemma PrologueClosed(h: Hook, btf: Btf, slot: int)
    ensures Closed(StartCode() + Prologue(h, btf, slot))
  {
    hide HookPrologue, DynptrStub, L2Stub, L3Stub, L4Stub, Within;
    var p, d, c, e := HookPrologue(h, btf), DynptrStub(h, slot), L3Stub(h, slot), L4Stub(h, slot);
    var b := if HasL2(h) then L2Stub(h, slot) else [];
    HookClosed(h, btf);
    DynptrClosed(h, slot);
    if HasL2(h) {
      L2Closed(h, slot);
    } else {
      FlatClosed([]);
    }
    L3StubClosed(h, slot);
    L4StubClosed(h, slot);
    ClosedAppend(p, d);
    ClosedAppend(p + d, b);
    ClosedAppend(p + d + b, c);
    ClosedAppend(p + d + b + c, e);
    FlatClosed(StartCode());
    ClosedAppend(StartCode(), Prologue(h, btf, slot));
  }

  /** Code in which no jump waits for the next rule. */
  predicate Linked(code: Code)
  {
    forall t :: t in code ==> t.tag != NextRule
  }

  lemma {:induction false} RulesClosed(h: Hook, rules: seq<Rule>, sets: seq<Set>)
    requires RulesOk(rules) && RulesCode(h, rules, sets).Ok? && RulesShort(h, rules, sets)
    ensures Closed(RulesCode(h, rules, sets).value) && Linked(RulesCode(h, rules, sets).value)
  {
    hide RuleCode, LinkNext, Within, PayloadsOk, ShortJumps;
    if rules == [] {
      FlatClosed([]);
    } else {
      var a := RuleCode(h, rules[0], sets).value;
      RuleClosed(h, rules[0], sets);
      LinkedRuleClosed(a);
      RulesClosed(h, rules[1..], sets);
      ClosedAppend(LinkNext(a), RulesCode(h, rules[1..], sets).value);
    }
  }

  /** Code that refers to nothing but the subroutine. */
  predicate Local(code: Code)
  {
    forall t :: t in code ==> t.tag == Done || t.tag == UpdateCounters
  }

  lemma {:induction false} SwitchLocal(reg: Reg, cases: seq<Case>, default: Option<seq<Insn>>)
    ensures Local(SwitchCode(reg, cases, default))
  {
    hide Untagged, CaseJumps, CaseBodies;
    JumpsLocal(reg, cases, if default.Some? then 1 else 0);
    BodiesLocal(cases, if default.Some? then |default.value| else 0);
  }

  lemma {:induction false} JumpsLocal(reg: Reg, cases: seq<Case>, after: nat)
    ensures Local(CaseJumps(reg, cases, after))
    decreases |cases|
  {
    if cases != [] {
      JumpsLocal(reg, cases[1..], after + |cases[0].body| + 1);
    }
  }

  lemma {:induction false} BodiesLocal(cases: seq<Case>, dl: nat)
    ensures Local(CaseBodies(cases, dl))
    decreases |cases|
  {
    if cases != [] {
      BodiesLocal(cases[1..], dl);
    }
  }

  lemma HookLocal(h: Hook, btf: Btf)
    ensures Local(HookPrologue(h, btf))
  {
    hide CgroupPrologue, NfPrologue;
    CgroupLocal(btf);
    NfLocal(h, btf);
  }

  lemma FamilyLocal(reg: Reg)
    ensures Local(FamilySwitch(reg))
  {
    hide SwitchCode;
    SwitchLocal(reg, [Case(AF_INET, [Mov64Imm(7, Swap16(ETH_P_IP))]), Case(AF_INET6, [Mov64Imm(7, Swap16(ETH_P_IPV6))])],
                Some([Mov64Imm(7, 0)]));
  }

  lemma CgroupLocal(btf: Btf)
    ensures Local(CgroupPrologue(btf))
  {
    hide FamilySwitch;
    FamilyLocal(2);
  }

  lemma NfLocal(h: Hook, btf: Btf)
    ensures Local(NfPrologue(h, btf))
  {
    hide FamilySwitch;
    FamilyLocal(3);
  }

  lemma L3Local(h: Hook, slot: int)
    ensures Local(L3Stub(h, slot))
  {
    hide SwitchCode, ToI32, ToI16;
    SwitchLocal(7, [Case(Swap16(ETH_P_IP), [Mov64Imm(4, 20)]), Case(Swap16(ETH_P_IPV6), [Mov64Imm(4, 40)])], Some([Mov64Imm(7, 0)]));
    SwitchLocal(7, [Case(Swap16(ETH_P_IP), Ip4NextCode()), Case(Swap16(ETH_P_IPV6), Ip6NextCode())], None);
  }

  lemma L4Local(h: Hook, slot: int)
    ensures Local(L4Stub(h, slot))
  {
    hide SwitchCode, ToI32, ToI16;
    SwitchLocal(8, [Case(IPPROTO_TCP, [Mov64Imm(4, 20)]), Case(IPPROTO_UDP, [Mov64Imm(4, 8)]),
                     Case(IPPROTO_ICMP, [Mov64Imm(4, 8)]), Case(IPPROTO_ICMPV6, [Mov64Imm(4, 8)])], Some([Mov64Imm(8, 0)]));
  }

  lemma StubsLocal(h: Hook, slot: int)
    ensures Local(DynptrStub(h, slot)) && Local(L2Stub(h, slot))
  {
    hide ToI32;
  }

  lemma PrologueLocal(h: Hook, btf: Btf, slot: int)
    ensures Local(StartCode() + Prologue(h, btf, slot))
  {
    hide HookPrologue, DynptrStub, L2Stub, L3Stub, L4Stub;
    HookLocal(h, btf);
    StubsLocal(h, slot);
    L3Local(h, slot);
    L4Local(h, slot);
  }

  lemma LocalLinked(code: Code)
    requires Local(code)
    ensures Linked(code)
  {
  }

  /** The whole body of a program. */
  lemma BodyClosed(chain: Chain, btf: Btf)
    requires RulesOk(chain.rules) && Terminal(chain.policy) && BodyCode(chain, btf).Ok?
    requires RulesShort(chain.hook, chain.rules, chain.sets)
    ensures Closed(BodyCode(chain, btf).value) && Linked(BodyCode(chain, btf).value)
  {
    hide Prologue, StartCode, RulesCode, CountCode, ReturnCode, Within, RulesShort;
    var h, n := chain.hook, |chain.rules|;
    var p, r := StartCode() + Prologue(h, btf, n + 1), RulesCode(h, chain.rules, chain.sets).value;
    PrologueClosed(h, btf, n + 1);
    PrologueLocal(h, btf, n + 1);
    RulesClosed(h, chain.rules, chain.sets);
    TailFlat(h, n, chain.policy);
    FlatClosed(CountCode(n));
    FlatClosed(ReturnCode(h, chain.policy));
    ClosedAppend(p, r);
    ClosedAppend(p + r, CountCode(n));
    ClosedAppend(p + r + CountCode(n), ReturnCode(h, chain.policy));
  }

  lemma TailFlat(h: Hook, n: nat, v: Verdict)
    requires Terminal(v)
    ensures Flat(CountCode(n)) && Flat(ReturnCode(h, v)) && Local(CountCode(n)) && Local(ReturnCode(h, v))
  {
    hide ToI32;
  }
}
