/** What a chain means: a packet parser, matcher semantics, and first-match evaluation with counters. */
module Spec {
  import opened Bytes
  import opened Model
  import opened Machine
  import opened Fragment
  import opened Codegen

  // ----- parsing -----

  datatype L3View = NoL3 | Ip4(hdr: seq<byte>) | Ip6(hdr: seq<byte>)
  datatype L4View = NoL4 | L4Hdr(proto: byte, hdr: seq<byte>)

  /** What the rules can see of a packet. */
  datatype View = View(l3: L3View, l4: L4View, ifindex: u32, size: u64)

  function L3Num(l3: L3View): (r: u16)
  {
    match l3 case NoL3 => 0 case Ip4(_) => ETH_P_IP case Ip6(_) => ETH_P_IPV6
  }

  function L4Num(l4: L4View): (r: byte)
  {
    match l4 case NoL4 => 0 case L4Hdr(p, _) => p
  }

  predicate Fits(packet: seq<byte>, off: nat, len: nat)
  {
    off + len <= |packet|
  }

  /** The L3 header at `off`; nothing if it is truncated, `NoL3` if the protocol is not supported. */
  function ParseL3(packet: seq<byte>, off: nat, ethertype: u16): (r: Option<L3View>)
  {
    if ethertype == ETH_P_IP then
      if Fits(packet, off, 20) then Some(Ip4(packet[off..off + 20])) else None
    else if ethertype == ETH_P_IPV6 then
      if Fits(packet, off, 40) then Some(Ip6(packet[off..off + 40])) else None
    else Some(NoL3)
  }

  /** Size of the L4 headers the rules can look at. */
  function L4Len(proto: byte): (n: nat)
  {
    if proto == IPPROTO_TCP then 20
    else if proto == IPPROTO_UDP || proto == IPPROTO_ICMP || proto == IPPROTO_ICMPV6 then 8
    else 0
  }

  function ParseL4(packet: seq<byte>, off: nat, proto: byte): (r: Option<L4View>)
  {
    if L4Len(proto) == 0 then Some(NoL4)
    else if Fits(packet, off, L4Len(proto)) then Some(L4Hdr(proto, packet[off..off + L4Len(proto)]))
    else None
  }

  predicate L3Valid(l3: L3View)
  {
    (l3.Ip4? ==> |l3.hdr| == 20) && (l3.Ip6? ==> |l3.hdr| == 40)
  }

  predicate L4Valid(l4: L4View)
  {
    l4.L4Hdr? ==> L4Len(l4.proto) > 0 && |l4.hdr| == L4Len(l4.proto)
  }

  predicate ViewOk(v: View)
  {
    L3Valid(v.l3) && L4Valid(v.l4)
  }

  /** L4 protocol and offset announced by an L3 header at `off`: the IHL nibble for IPv4, a fixed header for IPv6. */
  function AfterL3(l3: L3View, off: nat): (r: (byte, nat))
    requires L3Valid(l3)
  {
    match l3
    case NoL3 => (0, 0)
    case Ip4(h) => (h[9], off + 4 * (h[0] % 16))
    case Ip6(h) => (h[6], off + 40)
  }

  /** Ethertype and offset of the L3 header. */
  function L3Start(env: Env): (r: Option<(u16, nat)>)
  {
    if HasL2(env.hook) then
      if Fits(env.packet, 0, ETH_HLEN) then
        LEIsSwappedBE(env.packet[12..14]);
        Some((BE(env.packet[12..14]), ETH_HLEN))
      else None
    else Some((if env.family == AF_INET then ETH_P_IP else if env.family == AF_INET6 then ETH_P_IPV6 else 0, 0))
  }

  function PacketSize(env: Env): (n: nat)
  {
    if HasL2(env.hook) then env.linear
    else if IsCgroup(env.hook) then env.linear + ETH_HLEN
    else |env.packet| + ETH_HLEN
  }

  /** Input interface on ingress, output interface on egress. */
  function PacketIfindex(env: Env): (r: u32)
  {
    if IsNf(env.hook) && !IsNfIngress(env.hook) then env.outIfindex else env.ifindex
  }

  predicate EnvOk(env: Env)
  {
    && |env.packet| < 0x8000_0000 && env.linear < 0x8000_0000
    && env.btf.nfState != env.btf.nfSkb && env.btf.stateIn != env.btf.stateOut
    && env.btf.skbIfindex != 76 && env.btf.skbIfindex != 80
    && env.btf.skbFamily != 76 && env.btf.skbFamily != 80 && env.btf.skbFamily != env.btf.skbIfindex
    && (forall s :: s in env.sets ==> s.fd != env.cmapFd)
  }

  /** The view of a packet, or nothing if it cannot be parsed. */
  function Parse(env: Env): (r: Option<View>)
    requires EnvOk(env)
    ensures r.Some? ==> ViewOk(r.value)
  {
    if !env.dynptrOk then None
    else match L3Start(env)
      case None => None
      case Some(start) =>
        match ParseL3(env.packet, start.1, start.0)
        case None => None
        case Some(l3) =>
          var next := AfterL3(l3, start.1);
          match ParseL4(env.packet, next.1, next.0)
          case None => None
          case Some(l4) => Some(View(l3, l4, PacketIfindex(env), PacketSize(env)))
  }

  // ----- matchers -----

  function PortAt(hdr: seq<byte>, off: nat): (p: u16)
    requires off + 2 <= |hdr|
  {
    LEIsSwappedBE(hdr[off..off + 2]);
    BE(hdr[off..off + 2])
  }

  /** How the generated code compares a port: a range is tested on byte-swapped values. */
  predicate PortCmp(op: MatcherOp, p: seq<byte>, port: u16)
    requires |p| >= if op == Range then 4 else 2
  {
    match op
    case Eq => port == U16At(p, 0)
    case Ne => port != U16At(p, 0)
    case Range => Swap16(U16At(p, 0)) <= Swap16(port) <= Swap16(U16At(p, 2))
    case _ => false
  }

  predicate FlagsCmp(op: MatcherOp, want: byte, flags: byte)
  {
    match op
    case Eq => flags == want
    case Ne => flags != want
    case Any => And(flags, want) != 0
    case All => And(flags, want) == want
    case _ => false
  }

  /** Masked comparison, byte by byte. */
  predicate MaskedEq(x: seq<byte>, addr: seq<byte>, mask: seq<byte>)
    requires |x| == |addr| == |mask|
  {
    AndBytes(x, mask) == AndBytes(addr, mask)
  }

  /** The IPv6 comparison of the generated code: the mask is not applied to the packet if its last byte is 0xff. */
  predicate Ip6Eq(x: seq<byte>, addr: seq<byte>, mask: seq<byte>)
    requires |x| == |addr| == |mask| == 16
  {
    (if mask[15] == 0xff then x else AndBytes(x, mask)) == AndBytes(addr, mask)
  }

  predicate IsPortProto(l4: L4View)
  {
    l4.L4Hdr? && (l4.proto == IPPROTO_TCP || l4.proto == IPPROTO_UDP)
  }

  /** Set 0 holds the key, or the first bytes of it if its elements are shorter than the key. */
  predicate Hit(keys: set<seq<byte>>, key: seq<byte>)
  {
    exists k :: k in keys && k <= key
  }

  /** Whether the generated code lets a packet through matcher `m`; `keys` are the elements of set 0. */
  predicate Accepts(m: Matcher, keys: set<seq<byte>>, v: View)
    requires PayloadOk(m) && ViewOk(v)
  {
    match m.kind
    case MetaIfindex => v.ifindex % 0x1_0000 == U32At(m.payload, 0)
    case MetaL3Proto => L3Num(v.l3) == U16At(m.payload, 0)
    case MetaL4Proto => L4Num(v.l4) == m.payload[0]
    case MetaSport | MetaDport =>
      IsPortProto(v.l4) && PortAt(v.l4.hdr, PortOff(m.kind)) != 0
      && PortCmp(m.op, m.payload, PortAt(v.l4.hdr, PortOff(m.kind)))
    case Ip4SrcAddr | Ip4DstAddr =>
      v.l3.Ip4? &&
      var x := v.l3.hdr[AddrOff(m.kind)..AddrOff(m.kind) + 4];
      if m.op == In then Hit(keys, x)
      else (m.op == Eq) == MaskedEq(x, m.payload[0..4], m.payload[4..8])
    case Ip4Proto => v.l3.Ip4? && (m.op == Eq) == (v.l3.hdr[9] == m.payload[0])
    case Ip6Saddr | Ip6Daddr =>
      v.l3.Ip6? &&
      var x := v.l3.hdr[AddrOff(m.kind)..AddrOff(m.kind) + 16];
      (m.op == Eq) == Ip6Eq(x, m.payload[0..16], m.payload[16..32])
    case TcpSport | TcpDport | UdpSport | UdpDport =>
      v.l4.L4Hdr? && v.l4.proto == PortProto(m.kind)
      && PortCmp(m.op, m.payload, PortAt(v.l4.hdr, PortOff(m.kind)))
    case TcpFlags =>
      v.l4.L4Hdr? && v.l4.proto == IPPROTO_TCP && FlagsCmp(m.op, m.payload[0], v.l4.hdr[13])
    case SetSrcIp6 => v.l3.Ip6? && Hit(keys, v.l3.hdr[8..24])
    case SetSrcIp6Port =>
      v.l3.Ip6? && v.l4.L4Hdr? && v.l4.proto == IPPROTO_TCP && PortAt(v.l4.hdr, 0) != 0
      && Hit(keys, v.l3.hdr[8..24] + v.l4.hdr[0..2])
  }

  predicate AcceptsAll(ms: seq<Matcher>, keys: set<seq<byte>>, v: View)
    requires PayloadsOk(ms) && ViewOk(v)
  {
    forall m :: m in ms ==> Accepts(m, keys, v)
  }

  // ----- chains -----

  /** Verdict of a packet and the counters it goes through, in order. */
  datatype Outcome = Outcome(verdict: Verdict, hits: seq<nat>)

  /** First match: `policy` is the outcome if no rule decides. */
  function EvalRules(rules: seq<Rule>, keys: set<seq<byte>>, v: View, policy: Outcome): (o: Outcome)
    requires RulesOk(rules) && ViewOk(v)
  {
    if rules == [] then policy
    else
      var r := rules[0];
      if !AcceptsAll(r.matchers, keys, v) then EvalRules(rules[1..], keys, v, policy)
      else
        var hit: seq<nat> := if r.counters then [r.index] else [];
        if Terminal(r.verdict) then Outcome(r.verdict, hit)
        else
          var rest := EvalRules(rules[1..], keys, v, policy);
          Outcome(rest.verdict, hit + rest.hits)
  }

  /** Length of the key a set matcher builds, 0 for other matchers. */
  function KeyLen(m: Matcher): (n: nat)
  {
    match m.kind
    case Ip4SrcAddr | Ip4DstAddr => if m.op == In then 4 else 0
    case SetSrcIp6 => 16
    case SetSrcIp6Port => 18
    case _ => 0
  }

  /** Set 0, the only one the code looks at, has keys no longer than the one the matcher builds. */
  predicate KeyFits(m: Matcher, env: Env)
  {
    KeyLen(m) > 0 ==> env.sets != [] && env.sets[0].keySize <= KeyLen(m)
  }

  /** The keys of set 0. */
  function SetKeys(env: Env): (r: set<seq<byte>>)
  {
    if env.sets == [] then {} else set k | k in env.sets[0].keys && |k| == env.sets[0].keySize
  }

  /** Outcome of a chain: its policy counts in slot n, a packet that cannot be parsed is accepted and counts in slot n + 1. */
  function Eval(chain: Chain, env: Env): (o: Outcome)
    requires RulesOk(chain.rules) && EnvOk(env)
  {
    match Parse(env)
    case None => Outcome(Accept, [|chain.rules| + 1])
    case Some(v) => EvalRules(chain.rules, SetKeys(env), v, Outcome(chain.policy, [|chain.rules|]))
  }

  /** Counters after a packet of `size` bytes went through `hits`. */
  function Count(counters: seq<Counter>, hits: seq<nat>, size: u64): (r: seq<Counter>)
    ensures |r| == |counters|
    decreases |hits|
  {
    if hits == [] then counters else Count(Bump(counters, hits[0], size), hits[1..], size)
  }
}
