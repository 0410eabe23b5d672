/** From the fields of a packet to what the kernel does with it, through the generated program. */
module Delivery {
  import opened Bytes
  import opened Bpf
  import opened Model
  import opened Machine
  import opened Codegen
  import opened Spec
  import opened Vm
  import opened Compiler
  import opened Premises
  import opened Documented
  import opened Promises
  import opened Packets

  // ----- what a matcher says about the fields of a packet -----

  /** A 16-bit number of a payload: the low byte first. */
  function Word(p: seq<byte>, i: nat): (r: u16)
    requires i + 2 <= |p|
  {
    0x100 * (p[i + 1] as int) + p[i]
  }

  /** The bytes of a 16-bit number exchanged: how ranges are compared. */
  function Flip(x: u16): (r: u16)
  {
    0x100 * (x % 0x100) + x / 0x100
  }

  predicate PortMeets(op: MatcherOp, p: seq<byte>, port: u16)
    requires |p| >= if op == Range then 4 else 2
  {
    match op
    case Eq => port == Word(p, 0)
    case Ne => port != Word(p, 0)
    case Range => Flip(Word(p, 0)) <= Flip(port) <= Flip(Word(p, 2))
    case _ => false
  }

  /** No bit outside the mask. */
  predicate ClearByte(x: byte, mask: byte)
  {
    forall k :: 0 <= k < 8 && Bit(x, k) ==> Bit(mask, k)
  }

  predicate Clear(x: seq<byte>, mask: seq<byte>)
    requires |x| == |mask|
  {
    forall i :: 0 <= i < |x| ==> ClearByte(x[i], mask[i])
  }

  /** In the network; if the mask ends in 0xff the host part must be zero as well. */
  predicate Ip6Meets(x: seq<byte>, addr: seq<byte>, mask: seq<byte>)
    requires |x| == |addr| == |mask| == 16
  {
    InNetwork(x, addr, mask) && (mask[15] == 0xff ==> Clear(x, mask))
  }

  /** Bytes of the elements of a set. */
  function Width(t: SetType): (n: nat)
  {
    match t case SetIp4 => 4 case SetIp6Port => 16 + 2 case SetIp6 => 16
  }

  /** Some element of the first set is the key, or the beginning of it. */
  predicate Listed(sets: seq<Set>, key: seq<byte>)
  {
    sets != [] && exists e :: e in sets[0].elems && |e| == Width(sets[0].kind) && e <= key
  }

  predicate HasPorts(p: Packet)
  {
    !p.NotIp? && (p.l4.Tcp? || p.l4.Udp?)
  }

  /** The payload has the bytes that are compared. */
  predicate Enough(m: Matcher)
  {
    |m.payload| >=
      match m.kind
      case MetaIfindex | SetSrcIp6Port | SetSrcIp6 => 4
      case MetaL3Proto => 2
      case MetaL4Proto | Ip4Proto | TcpFlags => 1
      case MetaSport | MetaDport | TcpSport | TcpDport | UdpSport | UdpDport => if m.op == Range then 4 else 2
      case Ip4SrcAddr | Ip4DstAddr => if m.op == In then 4 else 8
      case Ip6Saddr | Ip6Daddr => 32
  }

  /** What each matcher tests, on the fields of the packet and the interface it is matched on. */
  predicate Meets(m: Matcher, sets: seq<Set>, p: Packet, iface: u32)
    requires Enough(m) && PacketOk(p)
  {
    var d := m.payload;
    match m.kind
    case MetaIfindex => iface % 0x1_0000 == Word(d, 0) + 0x1_0000 * Word(d, 2)
    case MetaL3Proto => Word(d, 0) == if p.NotIp? then 0 else EtherType(p)
    case MetaL4Proto => d[0] == if p.NotIp? || p.l4.OtherL4? then 0 else Protocol(p.l4)
    case MetaSport => HasPorts(p) && p.l4.sport != 0 && PortMeets(m.op, d, p.l4.sport)
    case MetaDport => HasPorts(p) && p.l4.dport != 0 && PortMeets(m.op, d, p.l4.dport)
    case Ip4SrcAddr => p.Ipv4? && if m.op == In then Listed(sets, p.src) else (m.op == Eq) == InNetwork(p.src, d[0..4], d[4..8])
    case Ip4DstAddr => p.Ipv4? && if m.op == In then Listed(sets, p.dst) else (m.op == Eq) == InNetwork(p.dst, d[0..4], d[4..8])
    case Ip4Proto => p.Ipv4? && (m.op == Eq) == (Protocol(p.l4) == d[0])
    case Ip6Saddr => p.Ipv6? && (m.op == Eq) == Ip6Meets(p.src, d[0..16], d[16..32])
    case Ip6Daddr => p.Ipv6? && (m.op == Eq) == Ip6Meets(p.dst, d[0..16], d[16..32])
    case TcpSport => !p.NotIp? && p.l4.Tcp? && PortMeets(m.op, d, p.l4.sport)
    case TcpDport => !p.NotIp? && p.l4.Tcp? && PortMeets(m.op, d, p.l4.dport)
    case TcpFlags => !p.NotIp? && p.l4.Tcp? && FlagsMatch(m.op, d[0], p.l4.flags)
    case UdpSport => !p.NotIp? && p.l4.Udp? && PortMeets(m.op, d, p.l4.sport)
    case UdpDport => !p.NotIp? && p.l4.Udp? && PortMeets(m.op, d, p.l4.dport)
    case SetSrcIp6 => p.Ipv6? && Listed(sets, p.src)
    case SetSrcIp6Port => p.Ipv6? && p.l4.Tcp? && p.l4.sport != 0 && Listed(sets, p.src + Net16(p.l4.sport))
  }

  lemma EnoughIs(m: Matcher)
    ensures Enough(m) <==> PayloadOk(m)
  {
  }

  // ----- the parser finds the fields -----

  function L4Seen(t: Transport): (v: L4View)
    requires TransportOk(t)
  {
    match t
    case Tcp(_, _, _, _, _) => TcpLayout(t); L4Hdr(6, TransportBytes(t)[..20])
    case Udp(_, _, _) => UdpLayout(t); L4Hdr(17, TransportBytes(t)[..8])
    case Icmp(rest) => L4Hdr(1, rest[..8])
    case Icmpv6(rest) => L4Hdr(58, rest[..8])
    case OtherL4(_, _) => NoL4
  }

  /** What the rules see of a packet. */
  function SeenAs(p: Packet, iface: u32, size: u64): (v: View)
    requires PacketOk(p)
  {
    match p
    case Ipv4(_, _, _, _, _, l4) => Ip4Layout(p); View(Ip4(PacketBytes(p)[..20]), L4Seen(l4), iface, size)
    case Ipv6(_, _, _, _, l4) => Ip6Layout(p); View(Ip6(PacketBytes(p)[..40]), L4Seen(l4), iface, size)
    case NotIp(_, _) => View(NoL3, NoL4, iface, size)
  }

  lemma L4Parsed(b: seq<byte>, off: nat, t: Transport)
    requires TransportOk(t) && off <= |b| && b[off..] == TransportBytes(t)
    ensures ParseL4(b, off, Protocol(t)) == Some(L4Seen(t))
  {
    var n := L4Len(Protocol(t));
    match t
    case Tcp(_, _, _, _, _) =>
      TcpLayout(t);
      assert b[off..off + n] == b[off..][..n];
    case Udp(_, _, _) =>
      UdpLayout(t);
      assert b[off..off + n] == b[off..][..n];
    case Icmp(_) =>
      assert b[off..off + n] == b[off..][..n];
    case Icmpv6(_) =>
      assert b[off..off + n] == b[off..][..n];
    case OtherL4(_, _) =>
  }

  lemma NoL4Parsed(b: seq<byte>)
    ensures ParseL4(b, 0, 0) == Some(NoL4)
  {
  }

  /** A packet whose bytes start at `off`. */
  lemma L3Parsed(b: seq<byte>, off: nat, p: Packet, ethertype: u16, iface: u32, size: u64)
    requires PacketOk(p) && off <= |b| && b[off..] == PacketBytes(p)
    requires if p.NotIp? then ethertype !in {0x0800, 0x86dd} else ethertype == EtherType(p)
    ensures var v := SeenAs(p, iface, size);
            ParseL3(b, off, ethertype) == Some(v.l3) && L3Valid(v.l3)
            && ParseL4(b, AfterL3(v.l3, off).1, AfterL3(v.l3, off).0) == Some(v.l4)
  {
    hide PacketBytes, ParseL4, L4Seen;
    match p
    case Ipv4(_, _, _, _, options, l4) =>
      Ip4Layout(p);
      var n := 20 + |options|;
      assert b[off..off + 20] == b[off..][..20];
      assert b[off + n..] == b[off..][n..];
      L4Parsed(b, off + n, l4);
    case Ipv6(_, _, _, _, l4) =>
      Ip6Layout(p);
      assert b[off..off + 40] == b[off..][..40];
      assert b[off + 40..] == b[off..][40..];
      L4Parsed(b, off + 40, l4);
    case NotIp(_, _) =>
      NoL4Parsed(b);
  }

  lemma Net16Is(x: u16)
    ensures BE(Net16(x)) == x
  {
    BE2(Net16(x));
  }

  lemma SizeFits(env: Env)
    requires EnvOk(env)
    ensures CountedSize(env) < TWO64
  {
  }

  lemma SizeIs(env: Env)
    ensures CountedSize(env) == PacketSize(env)
  {
  }

  lemma Parsed(p: Packet, env: Env)
    requires EnvOk(env) && Arrives(p, env)
    ensures CountedSize(env) < TWO64 && Parse(env) == Some(SeenAs(p, Interface(env), CountedSize(env)))
  {
    hide PacketBytes, ParseL3, ParseL4, SeenAs, BE, AfterL3, EnvOk;
    SizeFits(env);
    var start := L3Start(env).value;
    Net16Is(EtherType(p));
    assert env.packet[0..] == env.packet;
    L3Parsed(env.packet, start.1, p, start.0, Interface(env), CountedSize(env));
    SeenRest(p, Interface(env), CountedSize(env));
  }

  lemma SeenRest(p: Packet, iface: u32, size: u64)
    requires PacketOk(p)
    ensures var v := SeenAs(p, iface, size); v.ifindex == iface && v.size == size
  {
  }

  // ----- the generated tests are these tests -----

  lemma PortSeen(hdr: seq<byte>, off: nat, port: u16)
    requires off + 2 <= |hdr| && hdr[off..off + 2] == Net16(port)
    ensures PortAt(hdr, off) == port
  {
    Net16Is(port);
  }

  lemma WordIs(p: seq<byte>, i: nat)
    requires i + 2 <= |p|
    ensures U16At(p, i) == Word(p, i)
  {
    LE2(p[i..i + 2]);
  }

  lemma PortMeetsIff(op: MatcherOp, p: seq<byte>, port: u16)
    requires |p| >= if op == Range then 4 else 2
    ensures PortMeets(op, p, port) <==> PortCmp(op, p, port)
  {
    hide U16At, Word;
    WordIs(p, 0);
    if op == Range {
      WordIs(p, 2);
    }
  }

  lemma ListedIs(sets: seq<Set>, key: seq<byte>)
    ensures Listed(sets, key) <==> Hit(ZeroKeys(sets), key)
  {
    if Listed(sets, key) {
      var e :| e in sets[0].elems && |e| == Width(sets[0].kind) && e <= key;
      assert e in ZeroKeys(sets);
    }
  }

  lemma ClearBits(x: byte, addr: byte, mask: byte)
    ensures x == And(addr, mask) <==> AgreeOn(x, addr, mask) && ClearByte(x, mask)
  {
    hide And, Bit;
    forall k: nat ensures Bit(And(addr, mask), k) <==> Bit(addr, k) && Bit(mask, k) {
      AndBit(addr, mask, k);
    }
    if AgreeOn(x, addr, mask) && ClearByte(x, mask) {
      ByteBits(x, And(addr, mask));
    }
  }

  lemma Ip6MeetsIff(x: seq<byte>, addr: seq<byte>, mask: seq<byte>)
    requires |x| == |addr| == |mask| == 16
    ensures Ip6Meets(x, addr, mask) <==> Ip6Eq(x, addr, mask)
  {
    hide And, ClearByte, AgreeOn;
    MaskedIsNetwork(x, addr, mask);
    if mask[15] == 0xff {
      var w := AndBytes(addr, mask);
      forall i | 0 <= i < 16 ensures x[i] == w[i] <==> AgreeOn(x[i], addr[i], mask[i]) && ClearByte(x[i], mask[i]) {
        ClearBits(x[i], addr[i], mask[i]);
      }
      if Ip6Meets(x, addr, mask) {
        assert forall i :: 0 <= i < 16 ==> x[i] == w[i];
      }
    }
  }

  lemma L4SeenIs(t: Transport)
    requires TransportOk(t)
    ensures var v := L4Seen(t);
            && L4Valid(v) && (v.NoL4? <==> t.OtherL4?) && (v.L4Hdr? ==> v.proto == Protocol(t))
            && (t.Tcp? || t.Udp? ==> PortAt(v.hdr, 0) == t.sport && PortAt(v.hdr, 2) == t.dport && v.hdr[0..2] == Net16(t.sport))
            && (t.Tcp? ==> v.hdr[13] == t.flags)
  {
    hide PortAt, Net16;
    var v := L4Seen(t);
    if t.Tcp? || t.Udp? {
      var b, n := TransportBytes(t), |v.hdr|;
      if t.Tcp? { TcpLayout(t); } else { UdpLayout(t); }
      assert b[..n][0..2] == b[0..2] && b[..n][2..4] == b[2..4];
      PortSeen(v.hdr, 0, t.sport);
      PortSeen(v.hdr, 2, t.dport);
    }
  }

  lemma L3SeenIs(p: Packet, iface: u32, size: u64)
    requires PacketOk(p)
    ensures var v := SeenAs(p, iface, size);
            && L3Valid(v.l3) && (v.l3.Ip4? <==> p.Ipv4?) && (v.l3.Ip6? <==> p.Ipv6?) && v.ifindex == iface
            && v.l4 == (if p.NotIp? then NoL4 else L4Seen(p.l4))
            && (p.Ipv4? ==> v.l3.hdr[12..16] == p.src && v.l3.hdr[16..20] == p.dst && v.l3.hdr[9] == Protocol(p.l4))
            && (p.Ipv6? ==> v.l3.hdr[8..24] == p.src && v.l3.hdr[24..40] == p.dst)
  {
    hide PacketBytes, L4Seen;
    if p.Ipv4? {
      Ip4Layout(p);
      var b := PacketBytes(p);
      assert b[..20][12..16] == b[12..16] && b[..20][16..20] == b[16..20];
    } else if p.Ipv6? {
      Ip6Layout(p);
      var b := PacketBytes(p);
      assert b[..40][8..24] == b[8..24] && b[..40][24..40] == b[24..40];
    }
  }

  /** `v` has the fields of `p`. */
  predicate Shows(v: View, p: Packet, iface: u32)
    requires PacketOk(p)
  {
    && ViewOk(v) && v.ifindex == iface
    && (v.l3.Ip4? <==> p.Ipv4?) && (v.l3.Ip6? <==> p.Ipv6?)
    && (p.Ipv4? ==> v.l3.hdr[12..16] == p.src && v.l3.hdr[16..20] == p.dst && v.l3.hdr[9] == Protocol(p.l4))
    && (p.Ipv6? ==> v.l3.hdr[8..24] == p.src && v.l3.hdr[24..40] == p.dst)
    && (v.l4.NoL4? <==> p.NotIp? || p.l4.OtherL4?) && (v.l4.L4Hdr? ==> v.l4.proto == Protocol(p.l4))
    && (HasPorts(p) ==> PortAt(v.l4.hdr, 0) == p.l4.sport && PortAt(v.l4.hdr, 2) == p.l4.dport && v.l4.hdr[0..2] == Net16(p.l4.sport))
    && (!p.NotIp? && p.l4.Tcp? ==> v.l4.hdr[13] == p.l4.flags)
  }

  lemma SeenShows(p: Packet, iface: u32, size: u64)
    requires PacketOk(p)
    ensures Shows(SeenAs(p, iface, size), p, iface)
  {
    hide SeenAs, L4Seen, PortAt, Net16;
    L3SeenIs(p, iface, size);
    if !p.NotIp? {
      L4SeenIs(p.l4);
    }
  }

  lemma L4NumIs(v: View, p: Packet, iface: u32)
    requires PacketOk(p) && Shows(v, p, iface)
    ensures !p.NotIp? ==> (v.l4.L4Hdr? && v.l4.proto == 6 <==> p.l4.Tcp?) && (v.l4.L4Hdr? && v.l4.proto == 17 <==> p.l4.Udp?)
    ensures p.NotIp? ==> v.l4.NoL4?
  {
    hide PortAt, Net16;
  }

  lemma MetaMeets(m: Matcher, sets: seq<Set>, v: View, p: Packet, iface: u32)
    requires PayloadOk(m) && Enough(m) && PacketOk(p) && Shows(v, p, iface)
    requires m.kind in {MetaIfindex, MetaL3Proto, MetaL4Proto, Ip4Proto, TcpFlags}
    ensures Accepts(m, ZeroKeys(sets), v) <==> Meets(m, sets, p, iface)
  {
    hide PortAt, Net16, U16At, Word, FlagsMatch, FlagsCmp;
    L4NumIs(v, p, iface);
    match m.kind
    case MetaIfindex => IndexIs(m.payload);
    case MetaL3Proto => WordIs(m.payload, 0);
    case TcpFlags => if v.l4.L4Hdr? && v.l4.proto == 6 { FlagsDocumented(m.op, m.payload[0], v.l4.hdr[13]); }
    case _ =>
  }

  lemma IndexIs(p: seq<byte>)
    requires |p| >= 4
    ensures U32At(p, 0) == 0x1_0000 * Word(p, 2) + Word(p, 0)
  {
    assert p[0..4] == p[0..2] + p[2..4];
    LEAppend(p[0..2], p[2..4]);
    LE2(p[0..2]);
    LE2(p[2..4]);
    ShlBytes2(LE(p[2..4]));
  }

  lemma PortsMeet(m: Matcher, sets: seq<Set>, v: View, p: Packet, iface: u32)
    requires PayloadOk(m) && Enough(m) && PacketOk(p) && Shows(v, p, iface)
    requires m.kind in {MetaSport, MetaDport, TcpSport, TcpDport, UdpSport, UdpDport}
    ensures Accepts(m, ZeroKeys(sets), v) <==> Meets(m, sets, p, iface)
  {
    hide PortAt, Net16, PortMeets, PortCmp, ZeroKeys;
    L4NumIs(v, p, iface);
    if HasPorts(p) {
      PortMeetsIff(m.op, m.payload, p.l4.sport);
      PortMeetsIff(m.op, m.payload, p.l4.dport);
    }
  }

  lemma AddrMeets(m: Matcher, sets: seq<Set>, v: View, p: Packet, iface: u32)
    requires PayloadOk(m) && Enough(m) && PacketOk(p) && Shows(v, p, iface)
    requires m.kind in {Ip4SrcAddr, Ip4DstAddr, Ip6Saddr, Ip6Daddr}
    ensures Accepts(m, ZeroKeys(sets), v) <==> Meets(m, sets, p, iface)
  {
    hide PortAt, Net16, Hit, ZeroKeys, Listed, MaskedEq, InNetwork, Ip6Eq, Ip6Meets;
    if !p.NotIp? {
      ListedIs(sets, p.src);
      ListedIs(sets, p.dst);
    }
    if p.Ipv4? && m.op != In && m.kind in {Ip4SrcAddr, Ip4DstAddr} {
      MaskedIsNetwork(p.src, m.payload[0..4], m.payload[4..8]);
      MaskedIsNetwork(p.dst, m.payload[0..4], m.payload[4..8]);
    }
    if p.Ipv6? && m.kind in {Ip6Saddr, Ip6Daddr} {
      Ip6MeetsIff(p.src, m.payload[0..16], m.payload[16..32]);
      Ip6MeetsIff(p.dst, m.payload[0..16], m.payload[16..32]);
    }
  }

  lemma SetMeets(m: Matcher, sets: seq<Set>, v: View, p: Packet, iface: u32)
    requires PayloadOk(m) && Enough(m) && PacketOk(p) && Shows(v, p, iface) && m.kind in {SetSrcIp6, SetSrcIp6Port}
    ensures Accepts(m, ZeroKeys(sets), v) <==> Meets(m, sets, p, iface)
  {
    hide PortAt, Net16, Hit, ZeroKeys, Listed;
    L4NumIs(v, p, iface);
    if p.Ipv6? {
      ListedIs(sets, p.src);
      if p.l4.Tcp? {
        ListedIs(sets, p.src + Net16(p.l4.sport));
      }
    }
  }

  /** The parser and the generated test together decide as the matcher says of the packet's fields. */
  lemma MeetsIff(m: Matcher, sets: seq<Set>, p: Packet, env: Env)
    requires Enough(m) && EnvOk(env) && Arrives(p, env)
    ensures Parse(env).Some? && PayloadOk(m)
    ensures Accepts(m, ZeroKeys(sets), Parse(env).value) <==> Meets(m, sets, p, Interface(env))
  {
    hide Parse, EnvOk, SeenAs, Accepts, Meets, ZeroKeys, Shows, Arrives;
    EnoughIs(m);
    ArrivesOk(p, env);
    Parsed(p, env);
    SeenShows(p, Interface(env), CountedSize(env));
    var v := Parse(env).value;
    if m.kind in {MetaIfindex, MetaL3Proto, MetaL4Proto, Ip4Proto, TcpFlags} {
      MetaMeets(m, sets, v, p, Interface(env));
    } else if m.kind in {Ip4SrcAddr, Ip4DstAddr, Ip6Saddr, Ip6Daddr} {
      AddrMeets(m, sets, v, p, Interface(env));
    } else if m.kind in {SetSrcIp6, SetSrcIp6Port} {
      SetMeets(m, sets, v, p, Interface(env));
    } else {
      PortsMeet(m, sets, v, p, Interface(env));
    }
  }

  lemma ArrivesOk(p: Packet, env: Env)
    requires Arrives(p, env)
    ensures PacketOk(p)
  {
  }

  // ----- first match, on fields -----

  predicate AllEnough(rules: seq<Rule>)
  {
    forall r, m :: r in rules && m in r.matchers ==> Enough(m)
  }

  lemma AllEnoughIs(rules: seq<Rule>)
    ensures AllEnough(rules) <==> RulesOk(rules)
  {
    hide Enough, PayloadOk;
    forall r, m | r in rules && m in r.matchers ensures Enough(m) <==> PayloadOk(m) {
      EnoughIs(m);
    }
  }

  predicate Fires(r: Rule, sets: seq<Set>, p: Packet, iface: u32)
    requires PacketOk(p) && forall m :: m in r.matchers ==> Enough(m)
  {
    forall m :: m in r.matchers ==> Meets(m, sets, p, iface)
  }

  /** No rule before rule `n` stops the packet. */
  predicate Through(chain: Chain, p: Packet, iface: u32, n: nat)
    requires PacketOk(p) && AllEnough(chain.rules) && n <= |chain.rules|
  {
    forall j :: 0 <= j < n && Fires(chain.rules[j], chain.sets, p, iface) ==> chain.rules[j].verdict == Continue
  }

  /** The packet gets verdict `v`: from the first rule that fires and does not continue, or from the policy. */
  predicate Gets(chain: Chain, p: Packet, iface: u32, v: Verdict)
    requires PacketOk(p) && AllEnough(chain.rules)
  {
    || (v == chain.policy && Through(chain, p, iface, |chain.rules|))
    || exists i :: 0 <= i < |chain.rules| && v == chain.rules[i].verdict != Continue
                   && Fires(chain.rules[i], chain.sets, p, iface) && Through(chain, p, iface, i)
  }

  lemma GetsOne(chain: Chain, p: Packet, iface: u32, v: Verdict, w: Verdict)
    requires PacketOk(p) && AllEnough(chain.rules) && Gets(chain, p, iface, v) && Gets(chain, p, iface, w)
    ensures v == w
  {
    hide Fires, AllEnough;
  }

  lemma FiresIff(r: Rule, sets: seq<Set>, p: Packet, env: Env)
    requires (forall m :: m in r.matchers ==> Enough(m)) && EnvOk(env) && Arrives(p, env)
    ensures PacketOk(p) && Parse(env).Some? && PayloadsOk(r.matchers)
    ensures AcceptsAll(r.matchers, ZeroKeys(sets), Parse(env).value) <==> Fires(r, sets, p, Interface(env))
  {
    hide Parse, EnvOk, Accepts, Meets, ZeroKeys, Arrives, Enough, PayloadOk;
    ArrivesOk(p, env);
    Parsed(p, env);
    forall m | m in r.matchers
      ensures PayloadOk(m) && (Accepts(m, ZeroKeys(sets), Parse(env).value) <==> Meets(m, sets, p, Interface(env)))
    {
      MeetsIff(m, sets, p, env);
    }
  }

  /** First match over the rules from `i` on. */
  lemma {:induction false} EvalGets(chain: Chain, p: Packet, env: Env, i: nat, policy: Outcome)
    requires AllEnough(chain.rules) && RulesOk(chain.rules) && EnvOk(env) && Arrives(p, env) && i <= |chain.rules|
    requires PacketOk(p) && Through(chain, p, Interface(env), i) && policy.verdict == chain.policy
    ensures Parse(env).Some?
    ensures Gets(chain, p, Interface(env), EvalRules(chain.rules[i..], ZeroKeys(chain.sets), Parse(env).value, policy).verdict)
    decreases |chain.rules| - i
  {
    hide Parse, EnvOk, AcceptsAll, Fires, ZeroKeys, Arrives, PayloadsOk;
    Parsed(p, env);
    var rest := chain.rules[i..];
    if i < |chain.rules| {
      var r := chain.rules[i];
      assert rest[0] == r && rest[1..] == chain.rules[i + 1..];
      FiresIff(r, chain.sets, p, env);
      if !Fires(r, chain.sets, p, Interface(env)) || r.verdict == Continue {
        EvalGets(chain, p, env, i + 1, policy);
      }
    }
  }

  /**
   * The program and the kernel, for every packet, parsed or not: it passes exactly if the chain
   * accepts it, is dropped exactly if the chain drops it, and is counted with its size.
   */
  lemma KernelVerdict(chain: Chain, env: Env, counters: seq<Counter>) returns (r0: u64, final: seq<Counter>)
    requires Compiles(chain, env.btf) && SetsFit(chain) && Loaded(chain, env) && |chain.rules| + 1 < 0x1_0000_0000
    ensures Reaches(ChainImage(chain, env), env, Start(counters), Halted(r0, final))
    ensures Passes(env.hook, r0) <==> Eval(chain, env).verdict == Accept
    ensures Drops(env.hook, r0) <==> Eval(chain, env).verdict == Drop
    ensures CountedSize(env) < TWO64 && final == Count(counters, Eval(chain, env).hits, CountedSize(env))
  {
    hide BodyCode, RulesOk, RulesShort, SetsFit, Loaded, Eval, Reaches, ChainImage, Start, Count, Passes, Drops;
    LoadedEnv(chain, env);
    CompilerCorrect(chain, env, counters);
    SizeIs(env);
    var e := Eval(chain, env);
    r0, final := Sext64(VerdictCode(chain.hook, e.verdict)), Count(counters, e.hits, PacketSize(env));
  }

  /** What a chain makes of the packet is what its fields get it. */
  lemma EvalIs(chain: Chain, p: Packet, env: Env, w: Verdict)
    requires RulesOk(chain.rules) && AllEnough(chain.rules) && Loaded(chain, env) && Arrives(p, env)
    ensures EnvOk(env) && PacketOk(p) && (Eval(chain, env).verdict == w <==> Gets(chain, p, Interface(env), w))
  {
    hide Loaded, Parse, EnvOk, ZeroKeys, Arrives, Gets, EvalRules, AllEnough, RulesOk, Through;
    LoadedEnv(chain, env);
    LoadedKeys(chain, env);
    ArrivesOk(p, env);
    Parsed(p, env);
    NothingBefore(chain, p, Interface(env));
    assert chain.rules[0..] == chain.rules;
    EvalGets(chain, p, env, 0, Outcome(chain.policy, [|chain.rules|]));
    if Gets(chain, p, Interface(env), w) {
      GetsOne(chain, p, Interface(env), Eval(chain, env).verdict, w);
    }
  }

  /**
   * End to end: a packet that arrives at a hook passes exactly if its fields get it ACCEPT, by first
   * match, and is dropped exactly if they get it DROP.
   */
  lemma PacketFate(chain: Chain, p: Packet, env: Env, counters: seq<Counter>) returns (r0: u64, final: seq<Counter>)
    requires Compiles(chain, env.btf) && SetsFit(chain) && Loaded(chain, env) && |chain.rules| + 1 < 0x1_0000_0000
    requires Arrives(p, env)
    ensures PacketOk(p) && AllEnough(chain.rules)
    ensures Reaches(ChainImage(chain, env), env, Start(counters), Halted(r0, final))
    ensures Passes(env.hook, r0) <==> Gets(chain, p, Interface(env), Accept)
    ensures Drops(env.hook, r0) <==> Gets(chain, p, Interface(env), Drop)
  {
    hide BodyCode, RulesShort, SetsFit, Loaded, Reaches, ChainImage, Start, Passes, Drops, Eval, EnvOk, Arrives, Gets, AllEnough, RulesOk;
    ArrivesOk(p, env);
    AllEnoughIs(chain.rules);
    EvalIs(chain, p, env, Accept);
    EvalIs(chain, p, env, Drop);
    r0, final := KernelVerdict(chain, env, counters);
  }

  lemma NothingBefore(chain: Chain, p: Packet, iface: u32)
    requires PacketOk(p) && AllEnough(chain.rules)
    ensures Through(chain, p, iface, 0)
  {
  }

  // ----- one rule -----

  lemma OneRuleGets(c: Chain, m: Matcher, p: Packet, iface: u32)
    requires PacketOk(p) && Enough(m) && c.policy == Accept && c.rules == [Rule(0, [m], true, Drop)]
    ensures AllEnough(c.rules) && (Gets(c, p, iface, Drop) <==> Meets(m, c.sets, p, iface))
    ensures Gets(c, p, iface, Accept) <==> !Meets(m, c.sets, p, iface)
  {
    hide Meets, Enough;
    var r := c.rules[0];
    assert r.matchers == [m] && m in r.matchers;
    assert Fires(r, c.sets, p, iface) <==> Meets(m, c.sets, p, iface);
    assert Through(c, p, iface, 0);
  }

  /** A chain that drops what a matcher without set matches and accepts the rest, at any hook. */
  lemma OneRuleFate(opts: HookOpts, m: Matcher, p: Packet, env: Env, counters: seq<Counter>) returns (r0: u64, final: seq<Counter>)
    requires Enough(m) && PayloadOk(m) && MatcherCode(m, []).Ok? && KeyLen(m) == 0
    requires EnvOk(env) && env.sets == [] && Arrives(p, env)
    ensures var c := OneRule(env.hook, opts, Accept, [], m, Drop);
            PacketOk(p) && Compiles(c, env.btf) && Reaches(ChainImage(c, env), env, Start(counters), Halted(r0, final))
    ensures Drops(env.hook, r0) <==> Meets(m, [], p, Interface(env))
    ensures Passes(env.hook, r0) <==> !Meets(m, [], p, Interface(env))
  {
    hide Compiles, Enough, PayloadOk, MatcherCode, EnvOk, Arrives, Reaches, ChainImage, Start, Passes, Drops, Meets, Gets;
    var c := OneRule(env.hook, opts, Accept, [], m, Drop);
    OneRuleCompiles(env.hook, opts, Accept, [], m, Drop, env.btf);
    ArrivesOk(p, env);
    OneRuleGets(c, m, p, Interface(env));
    assert SetsFit(c) && Loaded(c, env);
    r0, final := PacketFate(c, p, env, counters);
  }

  /** `ip4.saddr` and `ip4.daddr` with a network: the address of that side decides, whatever the other one is. */
  lemma AddressFate(source: bool, addr: seq<byte>, mask: seq<byte>, p: Packet, env: Env, counters: seq<Counter>)
    returns (r0: u64, final: seq<Counter>)
    requires |addr| == |mask| == 4 && EnvOk(env) && env.sets == [] && Arrives(p, env) && p.Ipv4?
    ensures var c := OneRule(env.hook, HookOpts(0, 0, None, None, true), Accept, [],
                             Matcher(if source then Ip4SrcAddr else Ip4DstAddr, Eq, addr + mask), Drop);
            Compiles(c, env.btf) && Reaches(ChainImage(c, env), env, Start(counters), Halted(r0, final))
    ensures PacketOk(p) && (Drops(env.hook, r0) <==> InNetwork(if source then p.src else p.dst, addr, mask))
    ensures Passes(env.hook, r0) <==> !Drops(env.hook, r0)
  {
    hide Compiles, Arrives, EnvOk, Reaches, ChainImage, Start, Passes, Drops, InNetwork, Listed;
    var m := Matcher(if source then Ip4SrcAddr else Ip4DstAddr, Eq, addr + mask);
    assert m.payload[0..4] == addr && m.payload[4..8] == mask;
    ArrivesOk(p, env);
    r0, final := OneRuleFate(HookOpts(0, 0, None, None, true), m, p, env, counters);
  }

  /**
   * `meta.ifindex` on an interface below 65536: before and at forwarding the interface a packet came
   * in on decides and the one it leaves by does not; on the way out it is the other way round.
   */
  lemma InterfaceFate(index: u16, p: Packet, env: Env, counters: seq<Counter>) returns (r0: u64, final: seq<Counter>)
    requires EnvOk(env) && env.sets == [] && Arrives(p, env) && env.ifindex < 0x1_0000 && env.outIfindex < 0x1_0000
    ensures var c := OneRule(env.hook, HookOpts(0, 0, None, None, true), Accept, [],
                             Matcher(MetaIfindex, Eq, [index % 0x100, index / 0x100, 0, 0]), Drop);
            Compiles(c, env.btf) && Reaches(ChainImage(c, env), env, Start(counters), Halted(r0, final))
    ensures env.hook in {NfPreRouting, NfLocalIn, NfForward} ==> (Drops(env.hook, r0) <==> env.ifindex == index)
    ensures env.hook in {NfLocalOut, NfPostRouting} ==> (Drops(env.hook, r0) <==> env.outIfindex == index)
    ensures env.hook in {Xdp, TcIngress, TcEgress, CgroupIngress, CgroupEgress} ==> (Drops(env.hook, r0) <==> env.ifindex == index)
    ensures Passes(env.hook, r0) <==> !Drops(env.hook, r0)
  {
    hide Compiles, Arrives, EnvOk, Reaches, ChainImage, Start, Passes, Drops;
    var m := Matcher(MetaIfindex, Eq, [index % 0x100, index / 0x100, 0, 0]);
    ArrivesOk(p, env);
    r0, final := OneRuleFate(HookOpts(0, 0, None, None, true), m, p, env, counters);
  }
}
