/** Rules, matchers, sets and chains, as every front-end hands them to the code generator. */
module Model {
  import opened Bytes

  datatype Option<+T> = None | Some(value: T)
  datatype Result<+T> = Ok(value: T) | Err(errno: Errno) {
    predicate IsFailure()
    {
      Err?
    }

    function PropagateFailure<U>(): (r: Result<U>)
      requires Err?
    {
      Err(errno)
    }

    function Extract(): T
      requires Ok?
    {
      value
    }
  }

  /** Error codes; the last two stand for what the source leaves undefined: a failed assertion, a read outside its buffer. */
  datatype Errno = EINVAL | ENOTSUP | ENOENT | EEXIST | E2BIG | ENOMEM | AssertFailed | OutOfBounds

  datatype Verdict = Accept | Drop | Continue

  predicate Terminal(v: Verdict)
  {
    v != Continue
  }

  datatype MatcherType =
    | MetaIfindex | MetaL3Proto | MetaL4Proto | MetaSport | MetaDport
    | Ip4SrcAddr | Ip4DstAddr | Ip4Proto
    | Ip6Saddr | Ip6Daddr
    | TcpSport | TcpDport | TcpFlags
    | UdpSport | UdpDport
    | SetSrcIp6Port | SetSrcIp6

  datatype MatcherOp = Eq | Ne | Any | All | In | Range

  datatype Matcher = Matcher(kind: MatcherType, op: MatcherOp, payload: seq<byte>)

  datatype Rule = Rule(index: u32, matchers: seq<Matcher>, counters: bool, verdict: Verdict)

  datatype SetType = SetIp4 | SetIp6Port | SetIp6

  /** Size in bytes of the elements of a set. */
  function ElemSize(t: SetType): (n: nat)
    ensures n > 0
  {
    match t case SetIp4 => 4 case SetIp6Port => 18 case SetIp6 => 16
  }

  datatype Set = Set(kind: SetType, elems: seq<seq<byte>>)

  datatype Hook =
    | Xdp | TcIngress | NfPreRouting | NfLocalIn | NfForward
    | CgroupIngress | CgroupEgress | NfLocalOut | NfPostRouting | TcEgress

  datatype HookOpts = HookOpts(
    usedOpts: u32, ifindex: u32, cgroup: Option<seq<byte>>, name: Option<seq<byte>>, attach: bool)

  datatype Chain = Chain(hook: Hook, opts: HookOpts, policy: Verdict, sets: seq<Set>, rules: seq<Rule>)
}
