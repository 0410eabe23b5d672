/** A BPF machine: registers, stack frames, packet, maps and the kernel functions the generated code calls. */
module Machine {
  import opened Bytes
  import opened Bpf
  import opened Model

  /** What a pointer points into. */
  datatype Region =
    | Ctx | NfState | NetDev(out: bool) | Skb
    | Stack(depth: nat)
    | Packet
    | CounterSlot(index: nat)
    | SetSlot
    | MapFd(fd: int)

  datatype Value = Undef | Num(n: u64) | Ptr(region: Region, off: int)

  /** A stack byte. `Frag(v, k)` is byte `k` of the spilled pointer `v`; `Dyn` belongs to a dynptr. */
  datatype Cell = Uninit | Byte(b: byte) | Frag(v: Value, k: nat) | Dyn

  datatype Counter = Counter(packets: u64, bytes: u64)

  const STACK_SIZE := 512

  type Regs = r: seq<Value> | |r| == 11 witness seq(11, _ => Undef)
  type Frame = f: seq<Cell> | |f| == STACK_SIZE witness seq(STACK_SIZE, _ => Uninit)

  function FreshFrame(): (f: Frame)
    ensures forall i :: 0 <= i < STACK_SIZE ==> f[i] == Uninit
  {
    seq(STACK_SIZE, _ => Uninit)
  }

  datatype State = State(regs: Regs, frame: Frame, counters: seq<Counter>, depth: nat)

  /** A set, as the hash map the loader fills from its elements. */
  datatype SetMap = SetMap(fd: i32, keySize: nat, keys: set<seq<byte>>)

  /** Field offsets the generator looks up in the kernel's type information. */
  datatype Btf = Btf(
    skbIfindex: i16, skbFamily: i16,
    nfState: i16, nfSkb: i16, stateIn: i16, stateOut: i16, statePf: i16, devIfindex: i16, skbLen: i16)

  /**
   * Everything a run of the program may read: the packet, what the hook reports about it, the
   * maps, and the choices left to the kernel (whether the dynptr can be created, and at which
   * offsets a slice is copied into the caller's buffer instead of being returned in place).
   */
  datatype Env = Env(
    hook: Hook, btf: Btf,
    packet: seq<byte>, linear: nat, ifindex: u32, outIfindex: u32, family: byte,
    dynptrOk: bool, copied: set<nat>,
    cmapFd: i32, sets: seq<SetMap>)

  // ----- memory -----

  function Fragments(v: Value): (c: seq<Cell>)
    ensures |c| == 8
  {
    [Frag(v, 0), Frag(v, 1), Frag(v, 2), Frag(v, 3), Frag(v, 4), Frag(v, 5), Frag(v, 6), Frag(v, 7)]
  }

  function ByteCells(bs: seq<byte>): (c: seq<Cell>)
    ensures |c| == |bs|
  {
    seq(|bs|, i requires 0 <= i < |bs| => Byte(bs[i]))
  }

  predicate AllBytes(c: seq<Cell>)
  {
    forall i :: 0 <= i < |c| ==> c[i].Byte?
  }

  function CellBytes(c: seq<Cell>): (bs: seq<byte>)
    requires AllBytes(c)
    ensures |bs| == |c|
  {
    seq(|c|, i requires 0 <= i < |c| => c[i].b)
  }

  function NumOf(bs: seq<byte>): (v: Value)
    requires |bs| <= 8
    ensures v == Num(LE(bs))
  {
    Pow256Mono(|bs|, 8);
    Num(LE(bs))
  }

  lemma {:induction false} Pow256Mono(j: nat, k: nat)
    requires j <= k
    ensures Pow256(j) <= Pow256(k)
  {
    if j < k {
      Pow256Mono(j, k - 1);
    }
  }

  /** The value read from consecutive stack bytes; a mix of unrelated bytes is unusable. */
  function Decode(c: seq<Cell>): (v: Value)
    requires 1 <= |c| <= 8
  {
    if AllBytes(c) then NumOf(CellBytes(c))
    else if c[0].Frag? && c == Fragments(c[0].v) then c[0].v
    else Undef
  }

  /** The stack bytes a store of `v` writes, or nothing if the store is not allowed. */
  function Encode(v: Value, n: nat): (c: Option<seq<Cell>>)
    ensures c.Some? ==> |c.value| == n
  {
    match v
    case Num(x) => Some(ByteCells(ToLE(x, n)))
    case Ptr(_, _) => if n == 8 then Some(Fragments(v)) else None
    case Undef => None
  }

  /** The stack bytes an initialised dynptr occupies. */
  function Dynptr(): (c: seq<Cell>)
    ensures |c| == 16
  {
    [Dyn, Dyn, Dyn, Dyn, Dyn, Dyn, Dyn, Dyn, Dyn, Dyn, Dyn, Dyn, Dyn, Dyn, Dyn, Dyn]
  }

  /** Bytes `off .. off + n`, relative to the frame pointer, are inside the frame. */
  predicate OnStack(off: int, n: nat)
  {
    -STACK_SIZE <= off && off + n <= 0
  }

  /** Value at frame-pointer offset `off`. */
  function Load(f: Frame, off: int, n: nat): (v: Value)
    requires 1 <= n <= 8 && OnStack(off, n)
  {
    Decode(f[STACK_SIZE + off..STACK_SIZE + off + n])
  }

  function Write(f: Frame, off: int, c: seq<Cell>): (r: Frame)
    requires OnStack(off, |c|)
  {
    f[..STACK_SIZE + off] + c + f[STACK_SIZE + off + |c|..]
  }

  /** Reads through a pointer that is not a stack pointer. */
  function LoadShared(env: Env, counters: seq<Counter>, r: Region, off: int, n: nat): (v: Option<Value>)
    requires 1 <= n <= 8
  {
    match r
    case Packet =>
      if 0 <= off && off + n <= |env.packet| then Some(NumOf(env.packet[off..off + n])) else None
    case CounterSlot(i) =>
      if i < |counters| && n == 8 && off == 0 then Some(Num(counters[i].packets))
      else if i < |counters| && n == 8 && off == 8 then Some(Num(counters[i].bytes))
      else None
    case Ctx =>
      CtxField(env, off, n)
    case NfState =>
      if n == 8 && off == env.btf.stateIn then Some(Ptr(NetDev(false), 0))
      else if n == 8 && off == env.btf.stateOut then Some(Ptr(NetDev(true), 0))
      else if n == 1 && off == env.btf.statePf then Some(Num(env.family))
      else None
    case NetDev(out) =>
      if n == 4 && off == env.btf.devIfindex then Some(Num(if out then env.outIfindex else env.ifindex)) else None
    case Skb =>
      if n == 4 && off == env.btf.skbLen && |env.packet| < 0x1_0000_0000 then Some(Num(|env.packet|)) else None
    case _ => None
  }

  /** The program's argument: `xdp_md`, `__sk_buff` or `bpf_nf_ctx`, depending on the hook. */
  function CtxField(env: Env, off: int, n: nat): (v: Option<Value>)
  {
    match env.hook
    case Xdp =>
      if n != 4 then None
      else if off == 0 then Some(Ptr(Packet, 0))
      else if off == 4 then Some(Ptr(Packet, env.linear))
      else if off == 12 then Some(Num(env.ifindex))
      else None
    case TcIngress | TcEgress | CgroupIngress | CgroupEgress =>
      if n != 4 then None
      else if off == 76 then Some(Ptr(Packet, 0))
      else if off == 80 then Some(Ptr(Packet, env.linear))
      else if off == env.btf.skbIfindex then Some(Num(env.ifindex))
      else if off == env.btf.skbFamily then Some(Num(env.family))
      else None
    case _ =>
      if n != 8 then None
      else if off == env.btf.nfState then Some(Ptr(NfState, 0))
      else if off == env.btf.nfSkb then Some(Ptr(Skb, 0))
      else None
  }

  function LoadMem(env: Env, st: State, p: Value, off: int, n: nat): (v: Option<Value>)
    requires 1 <= n <= 8
  {
    if !p.Ptr? then None
    else if p.region == Stack(st.depth) then
      if OnStack(p.off + off, n) then Some(Load(st.frame, p.off + off, n)) else None
    else LoadShared(env, st.counters, p.region, p.off + off, n)
  }

  function StoreMem(st: State, p: Value, off: int, n: nat, v: Value): (r: Option<State>)
    requires 1 <= n <= 8
  {
    if !p.Ptr? then None
    else match p.region
      case Stack(d) =>
        var c := Encode(v, n);
        if d == st.depth && c.Some? && OnStack(p.off + off, n)
        then Some(st.(frame := Write(st.frame, p.off + off, c.value))) else None
      case CounterSlot(i) =>
        if !v.Num? || n != 8 || i >= |st.counters| then None
        else if p.off + off == 0 then Some(st.(counters := st.counters[i := st.counters[i].(packets := v.n)]))
        else if p.off + off == 8 then Some(st.(counters := st.counters[i := st.counters[i].(bytes := v.n)]))
        else None
      case _ => None
  }

  // ----- arithmetic -----

  const TWO64 := 0x1_0000_0000_0000_0000

  function AluNum(op: AluOp, a: u64, b: u64): (r: u64)
  {
    match op
    case Add => (a + b) % TWO64
    case Sub => (a - b) % TWO64
    case Conj => And(a, b)
    case Disj => Or(a, b) % TWO64
    case Lsh => Shl(a, b % 64) % TWO64
  }

  function Alu64(op: AluOp, a: Value, b: Value): (r: Value)
  {
    match (a, b)
    case (Num(x), Num(y)) => Num(AluNum(op, x, y))
    case (Ptr(r, o), Num(y)) =>
      if op == Add then Ptr(r, o + (if y < TWO64 / 2 then y else y - TWO64)) else Undef
    case (Ptr(r, o), Ptr(r', o')) =>
      if op == Sub && r == r' then Num((o - o') % TWO64) else Undef
    case _ => Undef
  }

  function Alu32(op: AluOp, a: Value, b: Value): (r: Value)
  {
    match (a, b)
    case (Num(x), Num(y)) => Num(AluNum(op, x % 0x1_0000_0000, y % 0x1_0000_0000) % 0x1_0000_0000)
    case _ => Undef
  }

  /** Outcome of a comparison. A pointer is never equal to a null constant. */
  function Compare(op: JmpOp, a: Value, b: Value): (r: Option<bool>)
  {
    match (a, b)
    case (Num(x), Num(y)) =>
      Some(match op case Jeq => x == y case Jne => x != y case Jlt => x < y case Jgt => x > y)
    case (Ptr(_, _), Num(y)) =>
      if y == 0 && op == Jeq then Some(false) else if y == 0 && op == Jne then Some(true) else None
    case _ => None
  }

  // ----- kernel functions -----

  function Clobber(regs: Regs, r0: Value): (r: Regs)
  {
    [r0, Undef, Undef, Undef, Undef, Undef] + regs[6..]
  }

  /** `bpf_map_lookup_elem(r1 = map, r2 = key on the stack)`. */
  function MapLookup(env: Env, st: State): (r: Option<State>)
  {
    var m, k := st.regs[1], st.regs[2];
    if !m.Ptr? || !m.region.MapFd? || !k.Ptr? || k.region != Stack(st.depth) then None
    else if m.region.fd == env.cmapFd then
      if OnStack(k.off, 4) then
        var key := Load(st.frame, k.off, 4);
        if !key.Num? then None
        else if key.n < |st.counters| then Some(st.(regs := Clobber(st.regs, Ptr(CounterSlot(key.n), 0))))
        else Some(st.(regs := Clobber(st.regs, Num(0))))
      else None
    else SetLookup(env, st, m.region.fd, k.off)
  }

  function SetLookup(env: Env, st: State, fd: int, off: int): (r: Option<State>)
  {
    match FindSet(env.sets, fd)
    case None => None
    case Some(s) =>
      if OnStack(off, s.keySize) then
        var c := st.frame[STACK_SIZE + off..STACK_SIZE + off + s.keySize];
        if !AllBytes(c) then None
        else
          var hit := CellBytes(c) in s.keys;
          Some(st.(regs := Clobber(st.regs, if hit then Ptr(SetSlot, 0) else Num(0))))
      else None
  }

  function FindSet(sets: seq<SetMap>, fd: int): (r: Option<SetMap>)
  {
    if sets == [] then None else if sets[0].fd == fd then Some(sets[0]) else FindSet(sets[1..], fd)
  }

  /** `bpf_dynptr_from_{xdp,skb}(r1 = argument, r2 = 0, r3 = dynptr)`: 0 in r0 on success. */
  function MakeDynptr(env: Env, st: State, arg: Region): (r: Option<State>)
  {
    var d := st.regs[3];
    if st.regs[1] != Ptr(arg, 0) || st.regs[2] != Num(0) then None
    else if !d.Ptr? || d.region != Stack(st.depth) || !OnStack(d.off, 16) then None
    else if env.dynptrOk then
      Some(st.(regs := Clobber(st.regs, Num(0)), frame := Write(st.frame, d.off, Dynptr())))
    else Some(st.(regs := Clobber(st.regs, Num(TWO64 - 22))))
  }

  /**
   * `bpf_dynptr_slice(r1 = dynptr, r2 = offset, r3 = buffer, r4 = length)`: null unless the range
   * is inside the packet, otherwise a pointer to these bytes, in the packet or copied to the buffer.
   */
  function Slice(env: Env, st: State): (r: Option<State>)
  {
    var d, off, buf, len := st.regs[1], st.regs[2], st.regs[3], st.regs[4];
    if !d.Ptr? || d.region != Stack(st.depth) || !OnStack(d.off, 16) || !off.Num? || !len.Num? then None
    else if st.frame[STACK_SIZE + d.off..STACK_SIZE + d.off + 16] != Dynptr() then None
    else if !buf.Ptr? || buf.region != Stack(st.depth) || !OnStack(buf.off, len.n) then None
    else if off.n + len.n > |env.packet| then Some(st.(regs := Clobber(st.regs, Num(0))))
    else if off.n in env.copied then
      Some(st.(regs := Clobber(st.regs, buf),
               frame := Write(st.frame, buf.off, ByteCells(env.packet[off.n..off.n + len.n]))))
    else Some(st.(regs := Clobber(st.regs, Ptr(Packet, off.n))))
  }

  // ----- return codes -----

  /** The kernel lets a packet through: XDP_PASS, TC_ACT_OK, 1 from a cgroup program, NF_ACCEPT. */
  predicate Passes(h: Hook, r0: u64)
  {
    match h
    case Xdp => r0 == 2
    case TcIngress | TcEgress => r0 == 0
    case CgroupIngress | CgroupEgress => r0 == 1
    case NfPreRouting | NfLocalIn | NfForward | NfLocalOut | NfPostRouting => r0 == 1
  }

  /** The kernel drops a packet: XDP_DROP, TC_ACT_SHOT, 0 from a cgroup program, NF_DROP. */
  predicate Drops(h: Hook, r0: u64)
  {
    match h
    case Xdp => r0 == 1
    case TcIngress | TcEgress => r0 == 2
    case CgroupIngress | CgroupEgress => r0 == 0
    case NfPreRouting | NfLocalIn | NfForward | NfLocalOut | NfPostRouting => r0 == 0
  }

  // ----- one plain instruction -----

  function Put(st: State, d: Reg, v: Value): (r: Option<State>)
  {
    if d == 10 || v == Undef then None else Some(st.(regs := st.regs[d := v]))
  }

  /** Effect of an instruction that continues with the next slot; `None` if the machine gets stuck. */
  function Do(insn: Insn, env: Env, st: State): (r: Option<State>)
    requires IsPlain(insn)
  {
    var g := st.regs;
    match insn
    case Mov64Reg(d, s) => Put(st, d, g[s])
    case Mov64Imm(d, imm) => Put(st, d, Num(Sext64(imm)))
    case Mov32Imm(d, imm) => Put(st, d, Num(Zext32(imm)))
    case Alu64Reg(op, d, s) => Put(st, d, Alu64(op, g[d], g[s]))
    case Alu64Imm(op, d, imm) => Put(st, d, Alu64(op, g[d], Num(Sext64(imm))))
    case Alu32Reg(op, d, s) => Put(st, d, Alu32(op, g[d], g[s]))
    case Alu32Imm(op, d, imm) => Put(st, d, Alu32(op, g[d], Num(Zext32(imm))))
    case Ldx(size, d, s, off) =>
      // An unusable value may be loaded (a slot nothing was stored to) but not used.
      (match LoadMem(env, st, g[s], off, size.Len())
       case None => None
       case Some(v) => if d == 10 then None else Some(st.(regs := g[d := v])))
    case Stx(size, d, s, off) => StoreMem(st, g[d], off, size.Len(), g[s])
    case St(size, d, off, imm) => StoreMem(st, g[d], off, size.Len(), Num(Sext64(imm)))
    case CallHelper(_) => MapLookup(env, st)
    case CallKfunc(DynptrFromXdp) => MakeDynptr(env, st, Ctx)
    case CallKfunc(DynptrFromSkb) => MakeDynptr(env, st, SkbRegion(env.hook))
    case CallKfunc(DynptrSlice) => Slice(env, st)
  }

  function SkbRegion(h: Hook): (r: Region)
  {
    if h in {NfPreRouting, NfLocalIn, NfForward, NfLocalOut, NfPostRouting} then Skb else Ctx
  }
}
