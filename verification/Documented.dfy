/** What the matchers are documented to do, and exactly when the generated code does it. */
module Documented {
  import opened Bytes
  import opened Model
  import opened Machine
  import opened Codegen
  import opened Spec

  // ----- documented comparisons -----

  /** Both ends of a range are included. */
  predicate PortMatches(op: MatcherOp, p: seq<byte>, port: u16)
    requires |p| >= if op == Range then 4 else 2
  {
    match op
    case Eq => port == U16At(p, 0)
    case Ne => port != U16At(p, 0)
    case Range => U16At(p, 0) <= port <= U16At(p, 2)
    case _ => false
  }

  /** `any`: a flag of the payload is set; `all`: every flag of the payload is set. */
  predicate FlagsMatch(op: MatcherOp, want: byte, flags: byte)
  {
    match op
    case Eq => flags == want
    case Ne => flags != want
    case Any => exists k :: 0 <= k < 8 && Bit(flags, k) && Bit(want, k)
    case All => forall k :: 0 <= k < 8 && Bit(want, k) ==> Bit(flags, k)
    case _ => false
  }

  /** Two bytes agree on the bits of a mask. */
  predicate AgreeOn(x: byte, y: byte, mask: byte)
  {
    forall k :: 0 <= k < 8 && Bit(mask, k) ==> (Bit(x, k) <==> Bit(y, k))
  }

  predicate InNetwork(x: seq<byte>, addr: seq<byte>, mask: seq<byte>)
    requires |x| == |addr| == |mask|
  {
    forall i :: 0 <= i < |x| ==> AgreeOn(x[i], addr[i], mask[i])
  }

  predicate InSet(key: seq<byte>, sets: seq<Set>, k: nat)
  {
    k < |sets| && key in sets[k].elems
  }

  /** The documented meaning of a matcher; `sets` are the chain's sets. */
  predicate Matches(m: Matcher, sets: seq<Set>, v: View)
    requires PayloadOk(m) && ViewOk(v)
  {
    match m.kind
    case MetaIfindex => v.ifindex == U32At(m.payload, 0)
    case MetaL3Proto => !v.l3.NoL3? && L3Num(v.l3) == U16At(m.payload, 0)
    case MetaL4Proto => v.l4.L4Hdr? && v.l4.proto == m.payload[0]
    case MetaSport | MetaDport =>
      IsPortProto(v.l4) && PortMatches(m.op, m.payload, PortAt(v.l4.hdr, PortOff(m.kind)))
    case Ip4SrcAddr | Ip4DstAddr =>
      v.l3.Ip4? &&
      var x := v.l3.hdr[AddrOff(m.kind)..AddrOff(m.kind) + 4];
      if m.op == In then InSet(x, sets, U32At(m.payload, 0))
      else (m.op == Eq) == InNetwork(x, m.payload[0..4], m.payload[4..8])
    case Ip4Proto => v.l3.Ip4? && (m.op == Eq) == (v.l3.hdr[9] == m.payload[0])
    case Ip6Saddr | Ip6Daddr =>
      v.l3.Ip6? &&
      var x := v.l3.hdr[AddrOff(m.kind)..AddrOff(m.kind) + 16];
      (m.op == Eq) == InNetwork(x, m.payload[0..16], m.payload[16..32])
    case TcpSport | TcpDport | UdpSport | UdpDport =>
      v.l4.L4Hdr? && v.l4.proto == PortProto(m.kind)
      && PortMatches(m.op, m.payload, PortAt(v.l4.hdr, PortOff(m.kind)))
    case TcpFlags =>
      v.l4.L4Hdr? && v.l4.proto == IPPROTO_TCP && FlagsMatch(m.op, m.payload[0], v.l4.hdr[13])
    case SetSrcIp6 => v.l3.Ip6? && InSet(v.l3.hdr[8..24], sets, U32At(m.payload, 0))
    case SetSrcIp6Port =>
      v.l3.Ip6? && IsPortProto(v.l4) && InSet(v.l3.hdr[8..24] + v.l4.hdr[0..2], sets, U32At(m.payload, 0))
  }

  // ----- bits -----

  lemma {:induction false} BitsEqual(x: nat, y: nat, n: nat)
    requires x < Pow2(n) && y < Pow2(n) && forall k :: 0 <= k < n ==> (Bit(x, k) <==> Bit(y, k))
    ensures x == y
  {
    if n > 0 {
      assert Bit(x, 0) <==> Bit(y, 0);
      forall k | 0 <= k < n - 1 ensures Bit(x / 2, k) <==> Bit(y / 2, k) {
        assert Bit(x, k + 1) <==> Bit(y, k + 1);
      }
      BitsEqual(x / 2, y / 2, n - 1);
    }
  }

  lemma ByteBits(x: byte, y: byte)
    requires forall k :: 0 <= k < 8 ==> (Bit(x, k) <==> Bit(y, k))
    ensures x == y
  {
    assert Pow2(8) == 0x100;
    BitsEqual(x, y, 8);
  }

  /** Masked equality of bytes is agreement on the bits of the mask. */
  lemma AndAgrees(x: byte, y: byte, mask: byte)
    ensures And(x, mask) == And(y, mask) <==> AgreeOn(x, y, mask)
  {
    hide And, Bit;
    forall k: nat ensures Bit(And(x, mask), k) <==> Bit(x, k) && Bit(mask, k) {
      AndBit(x, mask, k);
    }
    forall k: nat ensures Bit(And(y, mask), k) <==> Bit(y, k) && Bit(mask, k) {
      AndBit(y, mask, k);
    }
    if AgreeOn(x, y, mask) {
      ByteBits(And(x, mask), And(y, mask));
    }
  }

  lemma MaskedIsNetwork(x: seq<byte>, addr: seq<byte>, mask: seq<byte>)
    requires |x| == |addr| == |mask|
    ensures MaskedEq(x, addr, mask) <==> InNetwork(x, addr, mask)
  {
    hide And, AgreeOn;
    forall i | 0 <= i < |x| ensures And(x[i], mask[i]) == And(addr[i], mask[i]) <==> AgreeOn(x[i], addr[i], mask[i]) {
      AndAgrees(x[i], addr[i], mask[i]);
    }
    var a, b := AndBytes(x, mask), AndBytes(addr, mask);
    if MaskedEq(x, addr, mask) {
      forall i | 0 <= i < |x| ensures AgreeOn(x[i], addr[i], mask[i]) {
        assert a[i] == b[i];
      }
    }
    if InNetwork(x, addr, mask) {
      assert forall i :: 0 <= i < |x| ==> a[i] == b[i];
    }
  }

  /** The flag tests of the code are the documented ones. */
  lemma FlagsDocumented(op: MatcherOp, want: byte, flags: byte)
    ensures FlagsCmp(op, want, flags) <==> FlagsMatch(op, want, flags)
  {
    hide And, Bit;
    forall k: nat ensures Bit(And(flags, want), k) <==> Bit(flags, k) && Bit(want, k) {
      AndBit(flags, want, k);
    }
    if op == Any {
      forall k: nat ensures !Bit(0, k) {
        ZeroBit(k);
      }
      if !FlagsMatch(op, want, flags) {
        ByteBits(And(flags, want), 0);
      }
    } else if op == All {
      if FlagsMatch(op, want, flags) {
        ByteBits(And(flags, want), want);
      }
    }
  }

  // ----- ranges -----

  predicate RangeCode(lo: u16, hi: u16, port: u16)
  {
    Swap16(lo) <= Swap16(port) <= Swap16(hi)
  }

  /** The ranges whose byte-swapped test is right: single ports, all ports, and ranges empty either way. */
  predicate RangeExact(lo: u16, hi: u16)
  {
    lo == hi || (lo == 0 && hi == 0xffff) || (lo > hi && Swap16(lo) > Swap16(hi))
  }

  function Port(high: byte, low: byte): (r: u16)
  {
    0x100 * (high as int) + low
  }

  lemma PortSwap(high: byte, low: byte)
    ensures Swap16(Port(high, low)) == Port(low, high)
  {
  }

  lemma PortSplit(x: u16) returns (high: byte, low: byte)
    ensures x == Port(high, low)
  {
    high, low := x / 0x100, x % 0x100;
  }

  /** Any other range is wrong for some port. */
  lemma RangeWitness(lo: u16, hi: u16) returns (p: u16)
    requires !RangeExact(lo, hi)
    ensures RangeCode(lo, hi, p) != (lo <= p <= hi)
  {
    hide Swap16, Port;
    if lo > hi || Swap16(lo) > Swap16(hi) {
      return lo;
    }
    var a, b := PortSplit(lo);
    var c, d := PortSplit(hi);
    PortSwap(a, b);
    PortSwap(c, d);
    p := ByteWitness(a, b, c, d);
  }

  lemma ByteWitness(a: byte, b: byte, c: byte, d: byte) returns (p: u16)
    requires Port(a, b) < Port(c, d) && Port(b, a) <= Port(d, c) && !(Port(a, b) == 0 && Port(c, d) == 0xffff)
    ensures RangeCode(Port(a, b), Port(c, d), p) != (Port(a, b) <= p <= Port(c, d))
  {
    hide Swap16;
    var x, y: byte;
    if b == d {
      if b < 255 { x, y := a, b + 1; } else { x, y := a + 1, 0; }
    } else if a == c {
      if a < 255 { x, y := a + 1, b; } else { x, y := 0, b + 1; }
    } else if d < 255 {
      x, y := a, 255;
    } else if b > 0 {
      x, y := a + 1, 0;
    } else if c < 255 {
      x, y := 255, 0;
    } else {
      x, y := 0, 1;
    }
    p := Port(x, y);
    PortSwap(a, b);
    PortSwap(c, d);
    PortSwap(x, y);
  }

  /** The range test agrees with the documentation for every port exactly for these ranges. */
  lemma RangeExactIff(lo: u16, hi: u16)
    ensures (forall p: u16 :: RangeCode(lo, hi, p) == (lo <= p <= hi)) <==> RangeExact(lo, hi)
  {
    if RangeExact(lo, hi) {
      forall p: u16 ensures RangeCode(lo, hi, p) == (lo <= p <= hi) {
        SwapSwap(p);
        SwapSwap(lo);
      }
    } else {
      var p := RangeWitness(lo, hi);
    }
  }

  // ----- exactness, matcher by matcher -----

  /** Documented pairs of matcher type and operator, and the two set matchers, whose meaning is in set.c alone. */
  predicate IsDocumented(m: Matcher)
  {
    match m.kind
    case MetaIfindex | MetaL3Proto | MetaL4Proto | Ip4Proto => m.op == Eq
    case MetaSport | MetaDport | TcpSport | TcpDport | UdpSport | UdpDport => m.op in {Eq, Ne, Range}
    case Ip4SrcAddr | Ip4DstAddr => m.op in {Eq, Ne, In}
    case Ip6Saddr | Ip6Daddr => m.op in {Eq, Ne}
    case TcpFlags => m.op in {Eq, Ne, Any, All}
    case SetSrcIp6Port | SetSrcIp6 => m.op == In
  }

  function Keys(sets: seq<Set>, k: nat): (r: set<seq<byte>>)
  {
    if k < |sets| then set e | e in sets[k].elems else {}
  }

  /** Elements of set 0, the one the generated code looks at, of the size its map has. */
  function ZeroKeys(sets: seq<Set>): (r: set<seq<byte>>)
  {
    if sets == [] then {} else set e | e in sets[0].elems && |e| == ElemSize(sets[0].kind)
  }

  /** For keys of length `n`, looking in set 0 is looking in set `k`. */
  ghost predicate SameKeys(sets: seq<Set>, k: nat, n: nat)
  {
    forall e: seq<byte> :: |e| == n ==> (Hit(ZeroKeys(sets), e) <==> e in Keys(sets, k))
  }

  /** What one can check on a matcher before using it. */
  ghost predicate Exact(m: Matcher, sets: seq<Set>)
    requires PayloadOk(m)
  {
    match m.kind
    case MetaIfindex => false
    case MetaL3Proto => U16At(m.payload, 0) != 0
    case MetaL4Proto => m.payload[0] != 0
    case MetaSport | MetaDport =>
      (match m.op
       case Eq => U16At(m.payload, 0) != 0
       case Ne => U16At(m.payload, 0) == 0
       case Range => U16At(m.payload, 0) != 0 && RangeExact(U16At(m.payload, 0), U16At(m.payload, 2))
       case _ => true)
    case TcpSport | TcpDport | UdpSport | UdpDport =>
      m.op == Range ==> RangeExact(U16At(m.payload, 0), U16At(m.payload, 2))
    case Ip4SrcAddr | Ip4DstAddr => m.op == In ==> SameKeys(sets, U32At(m.payload, 0), 4)
    case Ip6Saddr | Ip6Daddr =>
      var mask := m.payload[16..32];
      mask[15] != 0xff || forall i :: 0 <= i < 16 ==> mask[i] == 0xff
    case SetSrcIp6 => SameKeys(sets, U32At(m.payload, 0), 16)
    case SetSrcIp6Port =>
      forall e: seq<byte> :: |e| == 18 ==> e !in Keys(sets, U32At(m.payload, 0)) && (LE(e[16..18]) != 0 ==> !Hit(ZeroKeys(sets), e))
    case Ip4Proto | TcpFlags => true
  }

  ghost predicate Agrees(m: Matcher, sets: seq<Set>, v: View)
    requires PayloadOk(m) && ViewOk(v)
  {
    Accepts(m, ZeroKeys(sets), v) <==> Matches(m, sets, v)
  }

  /** The code and the documentation agree on every packet, at every hook. */
  ghost predicate AlwaysAgrees(m: Matcher, sets: seq<Set>)
    requires PayloadOk(m)
  {
    forall env: Env :: EnvOk(env) && Parse(env).Some? ==> Agrees(m, sets, Parse(env).value)
  }

  // ----- packets that tell the two apart -----

  function Zeros(n: nat): (r: seq<byte>)
    ensures |r| == n && forall i :: 0 <= i < n ==> r[i] == 0
  {
    seq(n, _ => 0)
  }

  /** A header of `n` bytes with `field` at `off`. */
  function HdrWith(n: nat, off: nat, field: seq<byte>): (r: seq<byte>)
    requires off + |field| <= n
    ensures |r| == n && r[off..off + |field|] == field
    ensures forall i :: 0 <= i < off ==> r[i] == 0
  {
    Zeros(off) + field + Zeros(n - off - |field|)
  }

  const PLAIN_BTF := Btf(0, 4, 0, 8, 0, 8, 16, 0, 0)

  /** A packet received on `ifindex`, as the local-input hook sees it: L3 header first. */
  function LocalIn(family: byte, packet: seq<byte>, ifindex: u32, sets: seq<SetMap>): (env: Env)
  {
    Env(NfLocalIn, PLAIN_BTF, packet, |packet|, ifindex, 0, family, true, {}, 0, sets)
  }

  predicate MapsOk(sets: seq<SetMap>)
  {
    forall s :: s in sets ==> s.fd != 0
  }

  /** The L4 view of a header of protocol `proto`. */
  function L4Of(proto: byte, l4: seq<byte>): (v: L4View)
  {
    if L4Len(proto) == 0 then NoL4 else L4Hdr(proto, l4)
  }

  /** An IPv4 packet whose header announces what follows it. */
  lemma SeenIp4(hdr: seq<byte>, l4: seq<byte>, ifindex: u32, sets: seq<SetMap>)
    requires |hdr| == 20 && |l4| == L4Len(hdr[9]) && (|l4| > 0 ==> hdr[0] % 16 == 5) && MapsOk(sets)
    ensures var env := LocalIn(AF_INET, hdr + l4, ifindex, sets);
            EnvOk(env) && Parse(env) == Some(View(Ip4(hdr), L4Of(hdr[9], l4), ifindex, 34 + |l4|))
  {
    var p := hdr + l4;
    assert p[0..20] == hdr && p[20..20 + |l4|] == l4;
  }

  lemma SeenIp6(hdr: seq<byte>, l4: seq<byte>, ifindex: u32, sets: seq<SetMap>)
    requires |hdr| == 40 && |l4| == L4Len(hdr[6]) && MapsOk(sets)
    ensures var env := LocalIn(AF_INET6, hdr + l4, ifindex, sets);
            EnvOk(env) && Parse(env) == Some(View(Ip6(hdr), L4Of(hdr[6], l4), ifindex, 54 + |l4|))
  {
    var p := hdr + l4;
    assert p[0..40] == hdr && p[40..40 + |l4|] == l4;
  }

  /** A packet of no supported protocol. */
  lemma SeenOther(ifindex: u32, sets: seq<SetMap>)
    requires MapsOk(sets)
    ensures var env := LocalIn(0, [], ifindex, sets); EnvOk(env) && Parse(env) == Some(View(NoL3, NoL4, ifindex, 14))
  {
  }

  function PortBytes(p: u16): (r: seq<byte>)
    ensures |r| == 2 && BE(r) == p
  {
    LEIsSwappedBE([p / 0x100, p % 0x100]);
    [p / 0x100, p % 0x100]
  }

  /** Header of an IPv4 packet without options that announces `proto`. */
  function Ip4Header(proto: byte): (h: seq<byte>)
    ensures |h| == 20 && h[0] == 0x45 && h[9] == proto
  {
    [0x45] + Zeros(8) + [proto] + Zeros(10)
  }

  /** A TCP or UDP packet over IPv4 with port `p` at `off` of the L4 header. */
  function PortPacket(proto: byte, off: nat, p: u16): (r: seq<byte>)
    requires (proto == IPPROTO_TCP || proto == IPPROTO_UDP) && off <= 2
  {
    Ip4Header(proto) + HdrWith(L4Len(proto), off, PortBytes(p))
  }

  lemma SeenPort(proto: byte, off: nat, p: u16, sets: seq<SetMap>)
    requires (proto == IPPROTO_TCP || proto == IPPROTO_UDP) && off <= 2 && MapsOk(sets)
    ensures var env := LocalIn(AF_INET, PortPacket(proto, off, p), 1, sets);
            EnvOk(env) && Parse(env).Some? &&
            var v := Parse(env).value;
            v.l3.Ip4? && v.l4.L4Hdr? && v.l4.proto == proto && PortAt(v.l4.hdr, off) == p
  {
    hide Parse, EnvOk;
    SeenIp4(Ip4Header(proto), HdrWith(L4Len(proto), off, PortBytes(p)), 1, sets);
  }

  /** An IPv4 packet with address `x` at `off`. */
  lemma SeenIp4Addr(off: nat, x: seq<byte>, sets: seq<SetMap>)
    requires |x| == 4 && 12 <= off <= 16 && MapsOk(sets)
    ensures var env := LocalIn(AF_INET, HdrWith(20, off, x), 1, sets);
            EnvOk(env) && Parse(env).Some? &&
            var v := Parse(env).value;
            v.l3.Ip4? && v.l3.hdr[off..off + 4] == x
  {
    hide Parse, EnvOk;
    var h := HdrWith(20, off, x);
    assert h + [] == h;
    SeenIp4(h, [], 1, sets);
  }

  lemma SeenIp6Addr(off: nat, x: seq<byte>, sets: seq<SetMap>)
    requires |x| == 16 && 8 <= off <= 24 && MapsOk(sets)
    ensures var env := LocalIn(AF_INET6, HdrWith(40, off, x), 1, sets);
            EnvOk(env) && Parse(env).Some? &&
            var v := Parse(env).value;
            v.l3.Ip6? && v.l3.hdr[off..off + 16] == x
  {
    hide Parse, EnvOk;
    var h := HdrWith(40, off, x);
    assert h + [] == h;
    SeenIp6(h, [], 1, sets);
  }

  /** Header of an IPv6 packet from `src` that announces `proto`. */
  function Ip6Header(proto: byte, src: seq<byte>): (h: seq<byte>)
    requires |src| == 16
    ensures |h| == 40 && h[6] == proto && h[8..24] == src
  {
    Zeros(6) + [proto, 0] + src + Zeros(16)
  }

  /** A packet over IPv6 whose source address and port are `e`. */
  function KeyPacket(proto: byte, e: seq<byte>): (r: seq<byte>)
    requires (proto == IPPROTO_TCP || proto == IPPROTO_UDP) && |e| == 18
  {
    Ip6Header(proto, e[0..16]) + HdrWith(L4Len(proto), 0, e[16..18])
  }

  lemma SeenKey(proto: byte, e: seq<byte>, sets: seq<SetMap>)
    requires (proto == IPPROTO_TCP || proto == IPPROTO_UDP) && |e| == 18 && MapsOk(sets)
    ensures var env := LocalIn(AF_INET6, KeyPacket(proto, e), 1, sets);
            EnvOk(env) && Parse(env).Some? &&
            var v := Parse(env).value;
            v.l3.Ip6? && v.l4.L4Hdr? && v.l4.proto == proto && v.l4.hdr[0..2] == e[16..18]
            && v.l3.hdr[8..24] + v.l4.hdr[0..2] == e
  {
    hide Parse, EnvOk;
    SeenIp6(Ip6Header(proto, e[0..16]), HdrWith(L4Len(proto), 0, e[16..18]), 1, sets);
    assert e == e[0..16] + e[16..18];
  }

  // ----- interfaces -----

  lemma IfindexAgrees(m: Matcher, sets: seq<Set>, v: View)
    requires PayloadOk(m) && ViewOk(v) && m.kind == MetaIfindex
    ensures Agrees(m, sets, v) <==> (v.ifindex % 0x1_0000 == U32At(m.payload, 0) <==> v.ifindex == U32At(m.payload, 0))
  {
  }

  predicate IsIfindex(m: Matcher)
  {
    m.kind == MetaIfindex && IsDocumented(m) && PayloadOk(m)
  }

  predicate ReceivedOn(env: Env, i: u32)
  {
    EnvOk(env) && Parse(env).Some? && PacketIfindex(env) == i
  }

  /**
   * An interface index is compared on 16 bits: every matcher is right on every packet of an
   * interface exactly if its index fits.
   */
  lemma IfindexExactIff(i: u32)
    ensures (forall m: Matcher, env: Env :: IsIfindex(m) && ReceivedOn(env, i) ==> Agrees(m, [], Parse(env).value))
            <==> i < 0x1_0000
  {
    hide Agrees;
    if i < 0x1_0000 {
      forall m: Matcher, env: Env | IsIfindex(m) && ReceivedOn(env, i) ensures Agrees(m, [], Parse(env).value) {
        IfindexAgrees(m, [], Parse(env).value);
      }
    } else {
      assert Pow256(4) == 0x1_0000_0000;
      LEOfToLE(i, 4);
      var m := Matcher(MetaIfindex, Eq, ToLE(i, 4));
      var env := LocalIn(0, [], i, []);
      assert m.payload[0..4] == m.payload;
      SeenOther(i, []);
      IfindexAgrees(m, [], Parse(env).value);
      assert IsIfindex(m) && ReceivedOn(env, i) && !Agrees(m, [], Parse(env).value);
    }
  }

  /** So no interface matcher is right on all packets. */
  lemma IfindexNever(m: Matcher, sets: seq<Set>)
    requires PayloadOk(m) && m.kind == MetaIfindex
    ensures !AlwaysAgrees(m, sets)
  {
    hide Agrees, U32At;
    var want := U32At(m.payload, 0);
    var i := if want < 0x1_0000 then want + 0x1_0000 else want;
    var env := LocalIn(0, [], i, []);
    SeenOther(i, []);
    IfindexAgrees(m, sets, Parse(env).value);
  }

  // ----- protocols -----

  lemma ProtoExactIff(m: Matcher, sets: seq<Set>)
    requires PayloadOk(m) && m.kind in {MetaL3Proto, MetaL4Proto}
    ensures AlwaysAgrees(m, sets) <==> Exact(m, sets)
  {
    hide LE, Parse, EnvOk;
    if !Exact(m, sets) {
      var env := LocalIn(0, [], 1, []);
      SeenOther(1, []);
      assert !Agrees(m, sets, Parse(env).value);
    } else {
      forall env: Env | EnvOk(env) && Parse(env).Some? ensures Agrees(m, sets, Parse(env).value) {
      }
    }
  }

  // ----- ports -----

  /** Whether the code and the documentation agree on port `p`. */
  predicate AgreeOnPort(m: Matcher, p: u16)
    requires PayloadOk(m) && m.kind in {MetaSport, MetaDport, TcpSport, TcpDport, UdpSport, UdpDport}
  {
    var code := PortCmp(m.op, m.payload, p) && (m.kind == MetaSport || m.kind == MetaDport ==> p != 0);
    code <==> PortMatches(m.op, m.payload, p)
  }

  lemma PortAgrees(m: Matcher, sets: seq<Set>)
    requires PayloadOk(m) && m.kind in {MetaSport, MetaDport, TcpSport, TcpDport, UdpSport, UdpDport}
    ensures AlwaysAgrees(m, sets) <==> forall p: u16 :: AgreeOnPort(m, p)
  {
    hide Agrees, AgreeOnPort, PortAt, ViewOk, Parse, EnvOk;
    if AlwaysAgrees(m, sets) {
      forall p: u16 ensures AgreeOnPort(m, p) {
        PortAgreesOn(m, sets, p);
      }
    }
    if forall p: u16 :: AgreeOnPort(m, p) {
      forall env: Env | EnvOk(env) && Parse(env).Some? ensures Agrees(m, sets, Parse(env).value) {
        PortAgreesAt(m, sets, Parse(env).value);
      }
    }
  }

  lemma PortAgreesOn(m: Matcher, sets: seq<Set>, p: u16)
    requires PayloadOk(m) && m.kind in {MetaSport, MetaDport, TcpSport, TcpDport, UdpSport, UdpDport}
    requires AlwaysAgrees(m, sets)
    ensures AgreeOnPort(m, p)
  {
    hide PortCmp, PortMatches, PortAt, Parse, EnvOk, PortPacket;
    var proto := if m.kind in {UdpSport, UdpDport} then IPPROTO_UDP else IPPROTO_TCP;
    var env := LocalIn(AF_INET, PortPacket(proto, PortOff(m.kind), p), 1, []);
    SeenPort(proto, PortOff(m.kind), p, []);
    assert Agrees(m, sets, Parse(env).value);
  }

  lemma PortAgreesAt(m: Matcher, sets: seq<Set>, v: View)
    requires PayloadOk(m) && m.kind in {MetaSport, MetaDport, TcpSport, TcpDport, UdpSport, UdpDport}
    requires ViewOk(v) && forall p: u16 :: AgreeOnPort(m, p)
    ensures Agrees(m, sets, v)
  {
    hide PortCmp, PortMatches, PortAt;
    if IsPortProto(v.l4) {
      assert AgreeOnPort(m, PortAt(v.l4.hdr, PortOff(m.kind)));
    }
  }

  /** The sentinel for "no port" and the byte-swapped range decide which port matchers are exact. */
  lemma PortExactIff(m: Matcher, sets: seq<Set>)
    requires PayloadOk(m) && m.kind in {MetaSport, MetaDport, TcpSport, TcpDport, UdpSport, UdpDport}
    requires m.op in {Eq, Ne, Range}
    ensures AlwaysAgrees(m, sets) <==> Exact(m, sets)
  {
    hide LE, U16At, AlwaysAgrees, Swap16, RangeExact;
    PortAgrees(m, sets);
    var lo := U16At(m.payload, 0);
    var meta := m.kind == MetaSport || m.kind == MetaDport;
    if m.op == Range {
      var hi := U16At(m.payload, 2);
      RangeExactIff(lo, hi);
      RangeOnPorts(m, lo, hi);
    } else if meta {
      assert AgreeOnPort(m, 0) <==> (lo == 0) == (m.op == Ne);
      assert Exact(m, sets) ==> forall p: u16 :: AgreeOnPort(m, p);
    }
  }

  lemma RangeOnPorts(m: Matcher, lo: u16, hi: u16)
    requires PayloadOk(m) && m.kind in {MetaSport, MetaDport, TcpSport, TcpDport, UdpSport, UdpDport} && m.op == Range
    requires lo == U16At(m.payload, 0) && hi == U16At(m.payload, 2)
    requires (forall p: u16 :: RangeCode(lo, hi, p) == (lo <= p <= hi)) <==> RangeExact(lo, hi)
    ensures (forall p: u16 :: AgreeOnPort(m, p)) <==>
            RangeExact(lo, hi) && (m.kind == MetaSport || m.kind == MetaDport ==> lo != 0)
  {
    hide U16At, RangeExact;
    var meta := m.kind == MetaSport || m.kind == MetaDport;
    if RangeExact(lo, hi) && (meta ==> lo != 0) {
      forall p: u16 ensures AgreeOnPort(m, p) {
        assert RangeCode(lo, hi, p) == (lo <= p <= hi);
      }
    }
    if forall p: u16 :: AgreeOnPort(m, p) {
      assert AgreeOnPort(m, 0);
      forall p: u16 ensures RangeCode(lo, hi, p) == (lo <= p <= hi) {
        assert AgreeOnPort(m, p);
      }
    }
  }

  // ----- addresses -----

  lemma Ip4ExactIff(m: Matcher, sets: seq<Set>)
    requires PayloadOk(m) && m.kind in {Ip4SrcAddr, Ip4DstAddr} && m.op in {Eq, Ne, In}
    ensures AlwaysAgrees(m, sets) <==> Exact(m, sets)
  {
    hide LE, U32At, MaskedEq, InNetwork, Parse, EnvOk, Hit, HdrWith, ZeroKeys;
    var o := AddrOff(m.kind);
    if m.op == In {
      var k := U32At(m.payload, 0);
      if AlwaysAgrees(m, sets) {
        forall e: seq<byte> | |e| == 4 ensures Hit(ZeroKeys(sets), e) <==> e in Keys(sets, k) {
          SeenIp4Addr(o, e, []);
          assert Agrees(m, sets, Parse(LocalIn(AF_INET, HdrWith(20, o, e), 1, [])).value);
        }
      }
      if Exact(m, sets) {
        forall env: Env | EnvOk(env) && Parse(env).Some? ensures Agrees(m, sets, Parse(env).value) {
        }
      }
    } else {
      forall env: Env | EnvOk(env) && Parse(env).Some? ensures Agrees(m, sets, Parse(env).value) {
        var v := Parse(env).value;
        if v.l3.Ip4? {
          MaskedIsNetwork(v.l3.hdr[o..o + 4], m.payload[0..4], m.payload[4..8]);
        }
      }
    }
  }

  /** The IPv6 comparison is the documented one for every address exactly if the mask is applied or has no zero bit. */
  lemma Ip6EqExactIff(addr: seq<byte>, mask: seq<byte>)
    requires |addr| == |mask| == 16
    ensures (forall x: seq<byte> :: |x| == 16 ==> (Ip6Eq(x, addr, mask) <==> MaskedEq(x, addr, mask)))
            <==> mask[15] != 0xff || forall i :: 0 <= i < 16 ==> mask[i] == 0xff
  {
    hide AndBytes;
    if mask[15] == 0xff {
      if forall i :: 0 <= i < 16 ==> mask[i] == 0xff {
        forall x: seq<byte> | |x| == 16 ensures Ip6Eq(x, addr, mask) <==> MaskedEq(x, addr, mask) {
          OnesMask(x, mask);
        }
      } else {
        var i :| 0 <= i < 16 && mask[i] != 0xff;
        var x := Ip6Witness(addr, mask, i);
      }
    }
  }

  /** An address that differs from the network only outside the mask. */
  lemma Ip6Witness(addr: seq<byte>, mask: seq<byte>, i: nat) returns (x: seq<byte>)
    requires |addr| == |mask| == 16 && mask[15] == 0xff && i < 16 && mask[i] != 0xff
    ensures |x| == 16 && MaskedEq(x, addr, mask) && !Ip6Eq(x, addr, mask)
  {
    hide And, AndBytes;
    var want := AndBytes(addr, mask);
    var b := OutsideMask(want[i], mask[i]);
    x := want[i := b];
    MaskTwice(addr, mask, i, b);
    assert x[i] != want[i];
  }

  lemma OnesMask(x: seq<byte>, mask: seq<byte>)
    requires |x| == |mask| == 16 && forall i :: 0 <= i < 16 ==> mask[i] == 0xff
    ensures AndBytes(x, mask) == x
  {
    hide And;
    forall i | 0 <= i < 16 ensures AndBytes(x, mask)[i] == x[i] {
      AndAllOnes(x[i]);
    }
  }

  /** Another byte with the same bits under the mask. */
  lemma OutsideMask(x: byte, mask: byte) returns (b: byte)
    requires mask != 0xff
    ensures b != x && And(b, mask) == And(x, mask)
  {
    var k := ZeroBitOf(mask);
    b := Flip(x, k);
    AndAgrees(b, x, mask);
  }

  lemma ZeroBitOf(mask: byte) returns (k: nat)
    requires mask != 0xff
    ensures k < 8 && !Bit(mask, k)
  {
    if k :| 0 <= k < 8 && !Bit(mask, k) {
      return k;
    }
    forall k: nat | k < 8 ensures Bit(0xff, k) {
      OnesBit(8, k);
    }
    ByteBits(mask, 0xff);
  }

  lemma {:induction false} OnesBit(n: nat, k: nat)
    requires k < n
    ensures Bit(Pow2(n) - 1, k)
  {
    assert (Pow2(n) - 1) / 2 == Pow2(n - 1) - 1;
    if k > 0 {
      OnesBit(n - 1, k - 1);
    }
  }

  lemma Flip(x: byte, k: nat) returns (b: byte)
    requires k < 8
    ensures b != x && forall j :: 0 <= j < 8 && j != k ==> (Bit(b, j) <==> Bit(x, j))
  {
    var y := FlipBit(x, k, 8);
    assert Pow2(8) == 0x100;
    b := y;
  }

  lemma {:induction false} FlipBit(x: nat, k: nat, n: nat) returns (b: nat)
    requires k < n && x < Pow2(n)
    ensures b < Pow2(n) && b != x && forall j: nat :: j != k ==> (Bit(b, j) <==> Bit(x, j))
  {
    if k == 0 {
      b := if x % 2 == 0 then x + 1 else x - 1;
      forall j: nat | j != 0 ensures Bit(b, j) <==> Bit(x, j) {
        assert b / 2 == x / 2;
      }
    } else {
      var h := FlipBit(x / 2, k - 1, n - 1);
      b := 2 * h + x % 2;
      forall j: nat | j != k ensures Bit(b, j) <==> Bit(x, j) {
        assert j > 0 ==> (Bit(h, j - 1) <==> Bit(x / 2, j - 1));
        BitOfHalf(x, h, j);
      }
    }
  }

  /** A number with the last bit of `x` above which it is `h`. */
  lemma BitOfHalf(x: nat, h: nat, j: nat)
    requires j > 0 ==> (Bit(h, j - 1) <==> Bit(x / 2, j - 1))
    ensures Bit(2 * h + x % 2, j) <==> Bit(x, j)
  {
    assert (2 * h + x % 2) / 2 == h && (2 * h + x % 2) % 2 == x % 2;
  }

  lemma MaskTwice(addr: seq<byte>, mask: seq<byte>, i: nat, b: byte)
    requires |addr| == |mask| == 16 && i < 16 && And(b, mask[i]) == And(And(addr[i], mask[i]), mask[i])
    ensures AndBytes(AndBytes(addr, mask)[i := b], mask) == AndBytes(addr, mask)
  {
    hide And;
    var want := AndBytes(addr, mask);
    var y := AndBytes(want[i := b], mask);
    forall j | 0 <= j < 16 ensures y[j] == want[j] {
      AndIdem(addr[j], mask[j]);
    }
  }

  lemma AndIdem(x: byte, mask: byte)
    ensures And(And(x, mask), mask) == And(x, mask)
  {
    hide And, Bit;
    forall k: nat ensures Bit(And(And(x, mask), mask), k) <==> Bit(And(x, mask), k) {
      AndBit(And(x, mask), mask, k);
      AndBit(x, mask, k);
    }
    ByteBits(And(And(x, mask), mask), And(x, mask));
  }

  lemma Ip6ExactIff(m: Matcher, sets: seq<Set>)
    requires PayloadOk(m) && m.kind in {Ip6Saddr, Ip6Daddr} && m.op in {Eq, Ne}
    ensures AlwaysAgrees(m, sets) <==> Exact(m, sets)
  {
    hide MaskedEq, Ip6Eq, InNetwork, Parse, EnvOk, HdrWith, ZeroKeys;
    var o := AddrOff(m.kind);
    var addr, mask := m.payload[0..16], m.payload[16..32];
    Ip6EqExactIff(addr, mask);
    forall x: seq<byte> | |x| == 16 ensures MaskedEq(x, addr, mask) <==> InNetwork(x, addr, mask) {
      MaskedIsNetwork(x, addr, mask);
    }
    if AlwaysAgrees(m, sets) {
      forall x: seq<byte> | |x| == 16 ensures Ip6Eq(x, addr, mask) <==> MaskedEq(x, addr, mask) {
        SeenIp6Addr(o, x, []);
        assert Agrees(m, sets, Parse(LocalIn(AF_INET6, HdrWith(40, o, x), 1, [])).value);
      }
    }
    if Exact(m, sets) {
      forall env: Env | EnvOk(env) && Parse(env).Some? ensures Agrees(m, sets, Parse(env).value) {
      }
    }
  }

  // ----- sets -----

  lemma SetIp6ExactIff(m: Matcher, sets: seq<Set>)
    requires PayloadOk(m) && m.kind == SetSrcIp6
    ensures AlwaysAgrees(m, sets) <==> Exact(m, sets)
  {
    hide LE, U32At, Parse, EnvOk, Hit, HdrWith, ZeroKeys;
    var k := U32At(m.payload, 0);
    if AlwaysAgrees(m, sets) {
      forall e: seq<byte> | |e| == 16 ensures Hit(ZeroKeys(sets), e) <==> e in Keys(sets, k) {
        SeenIp6Addr(8, e, []);
        assert Agrees(m, sets, Parse(LocalIn(AF_INET6, HdrWith(40, 8, e), 1, [])).value);
      }
    }
    if Exact(m, sets) {
      forall env: Env | EnvOk(env) && Parse(env).Some? ensures Agrees(m, sets, Parse(env).value) {
      }
    }
  }

  lemma SetIp6PortExactIff(m: Matcher, sets: seq<Set>)
    requires PayloadOk(m) && m.kind == SetSrcIp6Port
    ensures AlwaysAgrees(m, sets) <==> Exact(m, sets)
  {
    hide LE, U32At, BE, Parse, EnvOk, Agrees, Hit, ZeroKeys;
    var k := U32At(m.payload, 0);
    if AlwaysAgrees(m, sets) {
      forall e: seq<byte> | |e| == 18
        ensures e !in Keys(sets, k) && (LE(e[16..18]) != 0 ==> !Hit(ZeroKeys(sets), e))
      {
        KeyAgrees(m, sets, e);
      }
    }
    if Exact(m, sets) {
      forall env: Env | EnvOk(env) && Parse(env).Some? ensures Agrees(m, sets, Parse(env).value) {
        KeyAgreesAt(m, sets, Parse(env).value);
      }
    }
  }

  /** The same source seen over UDP and over TCP. */
  lemma KeyAgrees(m: Matcher, sets: seq<Set>, e: seq<byte>)
    requires PayloadOk(m) && m.kind == SetSrcIp6Port && AlwaysAgrees(m, sets) && |e| == 18
    ensures e !in Keys(sets, U32At(m.payload, 0)) && (LE(e[16..18]) != 0 ==> !Hit(ZeroKeys(sets), e))
  {
    hide LE, U32At, BE, Parse, EnvOk, KeyPacket, Hit, ZeroKeys;
    SeenKey(IPPROTO_UDP, e, []);
    SeenKey(IPPROTO_TCP, e, []);
    assert Agrees(m, sets, Parse(LocalIn(AF_INET6, KeyPacket(IPPROTO_UDP, e), 1, [])).value);
    assert Agrees(m, sets, Parse(LocalIn(AF_INET6, KeyPacket(IPPROTO_TCP, e), 1, [])).value);
    LEIsSwappedBE(e[16..18]);
  }

  lemma KeyAgreesAt(m: Matcher, sets: seq<Set>, v: View)
    requires PayloadOk(m) && m.kind == SetSrcIp6Port && Exact(m, sets) && ViewOk(v)
    ensures Agrees(m, sets, v)
  {
    hide LE, U32At, BE, Hit, ZeroKeys;
    if v.l3.Ip6? && IsPortProto(v.l4) {
      var e := v.l3.hdr[8..24] + v.l4.hdr[0..2];
      assert |e| == 18 && e[16..18] == v.l4.hdr[0..2];
      LEIsSwappedBE(v.l4.hdr[0..2]);
    }
  }

  /** For every documented matcher: the code does what is documented, on all packets, exactly if `Exact` holds. */
  lemma ExactIff(m: Matcher, sets: seq<Set>)
    requires PayloadOk(m) && IsDocumented(m)
    ensures AlwaysAgrees(m, sets) <==> Exact(m, sets)
  {
    hide AlwaysAgrees, Exact;
    match m.kind
    case MetaIfindex => IfindexExact(m, sets);
    case MetaL3Proto | MetaL4Proto => ProtoExactIff(m, sets);
    case MetaSport | MetaDport | TcpSport | TcpDport | UdpSport | UdpDport => PortExactIff(m, sets);
    case Ip4SrcAddr | Ip4DstAddr => Ip4ExactIff(m, sets);
    case Ip6Saddr | Ip6Daddr => Ip6ExactIff(m, sets);
    case SetSrcIp6 => SetIp6ExactIff(m, sets);
    case SetSrcIp6Port => SetIp6PortExactIff(m, sets);
    case Ip4Proto => Ip4ProtoExact(m, sets);
    case TcpFlags => FlagsExact(m, sets);
  }

  lemma IfindexExact(m: Matcher, sets: seq<Set>)
    requires PayloadOk(m) && m.kind == MetaIfindex
    ensures !AlwaysAgrees(m, sets) && !Exact(m, sets)
  {
    hide AlwaysAgrees;
    IfindexNever(m, sets);
  }

  lemma Ip4ProtoExact(m: Matcher, sets: seq<Set>)
    requires PayloadOk(m) && m.kind == Ip4Proto
    ensures AlwaysAgrees(m, sets) && Exact(m, sets)
  {
    hide Parse, EnvOk;
    forall env: Env | EnvOk(env) && Parse(env).Some? ensures Agrees(m, sets, Parse(env).value) {
    }
  }

  lemma FlagsExact(m: Matcher, sets: seq<Set>)
    requires PayloadOk(m) && m.kind == TcpFlags
    ensures AlwaysAgrees(m, sets) && Exact(m, sets)
  {
    hide FlagsCmp, FlagsMatch, Parse, EnvOk;
    forall want: byte, flags: byte ensures FlagsCmp(m.op, want, flags) <==> FlagsMatch(m.op, want, flags) {
      FlagsDocumented(m.op, want, flags);
    }
    forall env: Env | EnvOk(env) && Parse(env).Some? ensures Agrees(m, sets, Parse(env).value) {
    }
  }
}
