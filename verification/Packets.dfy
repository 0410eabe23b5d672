/** Packets by their named fields, the bytes they are made of, and how they arrive at each hook. */
module Packets {
  import opened Bytes
  import opened Machine

  /** A transport header and what follows it. */
  datatype Transport =
      // `numbers`: sequence, acknowledgement and data offset; `rest`: from the window on.
    | Tcp(sport: u16, dport: u16, numbers: seq<byte>, flags: byte, rest: seq<byte>)
    | Udp(sport: u16, dport: u16, rest: seq<byte>)
    | Icmp(rest: seq<byte>)
    | Icmpv6(rest: seq<byte>)
    | OtherL4(proto: byte, rest: seq<byte>)

  datatype Packet =
      // `mid`: from the type of service to the time to live.
    | Ipv4(mid: seq<byte>, checksum: seq<byte>, src: seq<byte>, dst: seq<byte>, options: seq<byte>, l4: Transport)
      // `head`: version, traffic class, flow label and payload length.
    | Ipv6(head: seq<byte>, hops: byte, src: seq<byte>, dst: seq<byte>, l4: Transport)
    | NotIp(ethertype: u16, data: seq<byte>)

  /** No header is cut short, and protocols have the name of their number. */
  predicate TransportOk(t: Transport)
  {
    match t
    case Tcp(_, _, numbers, _, rest) => |numbers| == 9 && |rest| >= 6
    case Udp(_, _, rest) => |rest| >= 4
    case Icmp(rest) => |rest| >= 8
    case Icmpv6(rest) => |rest| >= 8
    case OtherL4(proto, _) => proto !in {1, 6, 17, 58}
  }

  predicate PacketOk(p: Packet)
  {
    match p
    case Ipv4(mid, checksum, src, dst, options, l4) =>
      |mid| == 8 && |checksum| == 2 && |src| == |dst| == 4 && |options| % 4 == 0 && |options| <= 40 && TransportOk(l4)
    case Ipv6(head, _, src, dst, l4) => |head| == 6 && |src| == |dst| == 16 && TransportOk(l4)
    case NotIp(ethertype, _) => ethertype !in {0x0800, 0x86dd}
  }

  function Protocol(t: Transport): (r: byte)
  {
    match t
    case Tcp(_, _, _, _, _) => 6
    case Udp(_, _, _) => 17
    case Icmp(_) => 1
    case Icmpv6(_) => 58
    case OtherL4(proto, _) => proto
  }

  function EtherType(p: Packet): (r: u16)
  {
    match p case Ipv4(_, _, _, _, _, _) => 0x0800 case Ipv6(_, _, _, _, _) => 0x86dd case NotIp(ethertype, _) => ethertype
  }

  /** Network order: the high byte first. */
  function Net16(x: u16): (r: seq<byte>)
    ensures |r| == 2
  {
    [x / 0x100, x % 0x100]
  }

  /** Section 3.1 of RFC 9293 (TCP); RFC 768 (UDP). */
  function TransportBytes(t: Transport): (b: seq<byte>)
  {
    match t
    case Tcp(sport, dport, numbers, flags, rest) => Net16(sport) + Net16(dport) + numbers + [flags] + rest
    case Udp(sport, dport, rest) => Net16(sport) + Net16(dport) + rest
    case Icmp(rest) => rest
    case Icmpv6(rest) => rest
    case OtherL4(_, rest) => rest
  }

  /** Section 3.1 of RFC 791 (IPv4), section 3 of RFC 8200 (IPv6). */
  function PacketBytes(p: Packet): (b: seq<byte>)
    requires PacketOk(p)
  {
    match p
    case Ipv4(mid, checksum, src, dst, options, l4) =>
      [0x45 + |options| / 4] + mid + [Protocol(l4)] + checksum + src + dst + options + TransportBytes(l4)
    case Ipv6(head, hops, src, dst, l4) => head + [Protocol(l4), hops] + src + dst + TransportBytes(l4)
    case NotIp(_, data) => data
  }

  /**
   * The packet `p` reaches the program in environment `env`: behind an Ethernet header at XDP and TC
   * hooks, from its L3 header on with its address family at cgroup and Netfilter hooks.
   */
  predicate Arrives(p: Packet, env: Env)
  {
    && PacketOk(p) && env.dynptrOk
    && match env.hook
       case Xdp | TcIngress | TcEgress =>
         |env.packet| >= 14 && env.packet[12..14] == Net16(EtherType(p)) && env.packet[14..] == PacketBytes(p)
       case CgroupIngress | CgroupEgress | NfPreRouting | NfLocalIn | NfForward | NfLocalOut | NfPostRouting =>
         env.packet == PacketBytes(p)
         && match p
            case Ipv4(_, _, _, _, _, _) => env.family == 2
            case Ipv6(_, _, _, _, _) => env.family == 10
            case NotIp(_, _) => env.family !in {2, 10}
  }

  /** The interface a packet is matched on: the input one up to forwarding, the output one on the way out. */
  function Interface(env: Env): (r: u32)
  {
    match env.hook
    case NfPreRouting | NfLocalIn | NfForward => env.ifindex
    case NfLocalOut | NfPostRouting => env.outIfindex
    case Xdp | TcIngress | TcEgress | CgroupIngress | CgroupEgress => env.ifindex
  }

  /** The size a packet is counted with: an Ethernet header is added where the hook does not show it. */
  function CountedSize(env: Env): (n: nat)
  {
    match env.hook
    case Xdp | TcIngress | TcEgress => env.linear
    case CgroupIngress | CgroupEgress => env.linear + 14
    case NfPreRouting | NfLocalIn | NfForward | NfLocalOut | NfPostRouting => |env.packet| + 14
  }

  // ----- where the fields are -----

  lemma TcpLayout(t: Transport)
    requires TransportOk(t) && t.Tcp?
    ensures var b := TransportBytes(t); |b| >= 20 && b[0..2] == Net16(t.sport) && b[2..4] == Net16(t.dport) && b[13] == t.flags
  {
  }

  lemma UdpLayout(t: Transport)
    requires TransportOk(t) && t.Udp?
    ensures var b := TransportBytes(t); |b| >= 8 && b[0..2] == Net16(t.sport) && b[2..4] == Net16(t.dport)
  {
  }

  lemma Ip4Layout(p: Packet)
    requires PacketOk(p) && p.Ipv4?
    ensures var b, n := PacketBytes(p), 20 + |p.options|;
            |b| == n + |TransportBytes(p.l4)| && b[0] % 16 * 4 == n && b[9] == Protocol(p.l4)
            && b[12..16] == p.src && b[16..20] == p.dst && b[n..] == TransportBytes(p.l4)
  {
    hide TransportBytes;
    var b := PacketBytes(p);
    assert b[9] == Protocol(p.l4);
    assert b[12..16] == p.src && b[16..20] == p.dst;
  }

  lemma Ip6Layout(p: Packet)
    requires PacketOk(p) && p.Ipv6?
    ensures var b := PacketBytes(p);
            |b| == 40 + |TransportBytes(p.l4)| && b[6] == Protocol(p.l4)
            && b[8..24] == p.src && b[24..40] == p.dst && b[40..] == TransportBytes(p.l4)
  {
    hide TransportBytes;
  }
}
