/** Layout of an iptables table, and the translation of its entries. */
module Iptables {
  import opened Bytes
  import opened Model

  // ----- sizes and offsets of the kernel's structures -----

  const ENTRY_SIZE: nat := 112
  const RULE_SIZE: nat := 152
  const ERR_SIZE: nat := 176

  const SRC: nat := 0
  const DST: nat := 4
  const SMSK: nat := 8
  const DMSK: nat := 12
  const INIFACE: nat := 16
  const OUTIFACE: nat := 32
  const PROTO: nat := 80
  const INVFLAGS: nat := 83
  const TARGET_OFFSET: nat := 88
  const NEXT_OFFSET: nat := 90
  const TARGET_SIZE: nat := 0
  const TARGET_NAME: nat := 2
  const TARGET_VERDICT: nat := 32
  const TARGET_ERRORNAME: nat := 32

  const INV_SRCIP: byte := 0x08
  const INV_DSTIP: byte := 0x10

  const NF_HOOKS: seq<Hook> := [NfPreRouting, NfLocalIn, NfForward, NfLocalOut, NfPostRouting]

  function NfIndex(h: Hook): (i: nat)
    requires h in NF_HOOKS
    ensures i < 5 && NF_HOOKS[i] == h
  {
    if h == NfPreRouting then 0 else if h == NfLocalIn then 1 else if h == NfForward then 2
    else if h == NfLocalOut then 3 else 4
  }

  // ----- bytes of the table -----

  function Get(b: seq<byte>, p: nat, n: nat): (r: seq<byte>)
    requires p + n <= |b|
    ensures |r| == n
  {
    b[p..p + n]
  }

  /** `a` and `b` are the same outside `[lo, hi)`. */
  ghost predicate Agree(a: seq<byte>, b: seq<byte>, lo: nat, hi: nat)
  {
    |a| == |b| && forall p: nat, n: nat :: p + n <= |a| && (p + n <= lo || hi <= p) ==> Get(a, p, n) == Get(b, p, n)
  }

  lemma AgreeTrans(a: seq<byte>, b: seq<byte>, c: seq<byte>, lo: nat, hi: nat, lo2: nat, hi2: nat)
    requires Agree(a, b, lo2, hi2) && Agree(b, c, lo, hi) && lo <= lo2 && hi2 <= hi
    ensures Agree(a, c, lo, hi)
  {
    forall p: nat, n: nat | p + n <= |a| && (p + n <= lo || hi <= p) ensures Get(a, p, n) == Get(c, p, n) {
      assert Get(a, p, n) == Get(b, p, n);
    }
  }

  method StoreAt(buf: array<byte>, off: nat, x: seq<byte>)
    requires off + |x| <= buf.Length
    modifies buf
    ensures Get(buf[..], off, |x|) == x && Agree(old(buf[..]), buf[..], off, off + |x|)
  {
    var i := 0;
    while i < |x|
      invariant 0 <= i <= |x|
      invariant forall k :: 0 <= k < i ==> buf[off + k] == x[k]
      invariant forall k :: 0 <= k < buf.Length && !(off <= k < off + i) ==> buf[k] == old(buf[k])
    {
      buf[off + i] := x[i];
      i := i + 1;
    }
  }

  // ----- entries -----

  /** What the matchers of a rule put in an entry. */
  datatype Fields = Fields(src: seq<byte>, dst: seq<byte>, smsk: seq<byte>, dmsk: seq<byte>, proto: u16, inv: byte)

  const ZERO4: seq<byte> := [0, 0, 0, 0]
  const NO_FIELDS := Fields(ZERO4, ZERO4, ZERO4, ZERO4, 0, 0)

  predicate FieldsOk(f: Fields)
  {
    |f.src| == |f.dst| == |f.smsk| == |f.dmsk| == 4
  }

  predicate HasFields(b: seq<byte>, off: nat, f: Fields)
  {
    && off + RULE_SIZE <= |b|
    && Get(b, off + SRC, 4) == f.src && Get(b, off + DST, 4) == f.dst && Get(b, off + SMSK, 4) == f.smsk && Get(b, off + DMSK, 4) == f.dmsk
    && Get(b, off + PROTO, 2) == ToLE(f.proto, 2) && Get(b, off + INVFLAGS, 1) == [f.inv]
    && Get(b, off + INIFACE, 1) == [0] && Get(b, off + OUTIFACE, 1) == [0] && Get(b, off + ENTRY_SIZE + TARGET_NAME, 1) == [0]
  }

  predicate HasOffsets(b: seq<byte>, off: nat, next: nat)
  {
    off + RULE_SIZE <= |b| && Get(b, off + TARGET_OFFSET, 2) == ToLE(ENTRY_SIZE, 2) && Get(b, off + NEXT_OFFSET, 2) == ToLE(next, 2)
  }

  /** The target's verdict: the negated Netfilter verdict, minus one, on 4 bytes. */
  function VerdictNum(v: Verdict): (n: u32)
  {
    if v == Accept then 0xffff_fffe else 0xffff_ffff
  }

  /** A standard target with that verdict, and its size. */
  predicate HasVerdict(b: seq<byte>, off: nat, v: Verdict)
  {
    && off + RULE_SIZE <= |b| && Get(b, off + ENTRY_SIZE + TARGET_VERDICT, 4) == ToLE(VerdictNum(v), 4)
    && Get(b, off + ENTRY_SIZE + TARGET_SIZE, 2) == ToLE(RULE_SIZE - ENTRY_SIZE, 2)
  }

  /** A whole entry with a standard target. */
  predicate EntryIs(b: seq<byte>, off: nat, f: Fields, v: Verdict)
  {
    HasFields(b, off, f) && HasOffsets(b, off, RULE_SIZE) && HasVerdict(b, off, v)
  }

  predicate Zero(b: seq<byte>, off: nat)
  {
    forall k :: off <= k < |b| ==> b[k] == 0
  }

  lemma ZeroFields(b: seq<byte>, off: nat)
    requires Zero(b, off) && off + RULE_SIZE <= |b|
    ensures HasFields(b, off, NO_FIELDS)
  {
    ZeroGet4(b, off, SRC);
    ZeroGet4(b, off, DST);
    ZeroGet4(b, off, SMSK);
    ZeroGet4(b, off, DMSK);
    assert ToLE(0, 2) == [0, 0] by {
      assert ToLE(0, 1) == [0] + ToLE(0, 0);
    }
    assert Get(b, off + PROTO, 2) == [0, 0];
  }

  lemma ZeroGet4(b: seq<byte>, off: nat, d: nat)
    requires Zero(b, off) && off + d + 4 <= |b|
    ensures Get(b, off + d, 4) == ZERO4
  {
  }

  /** Entries outside the written range stay. */
  lemma EntryKept(a: seq<byte>, b: seq<byte>, lo: nat, hi: nat, off: nat, f: Fields, v: Verdict)
    requires Agree(a, b, lo, hi) && EntryIs(a, off, f, v) && (off + RULE_SIZE <= lo || hi <= off)
    ensures EntryIs(b, off, f, v)
  {
    hide Get, ToLE;
  }

  lemma ZeroKept(a: seq<byte>, b: seq<byte>, lo: nat, hi: nat, off: nat)
    requires Agree(a, b, lo, hi) && Zero(a, off) && hi <= off
    ensures Zero(b, off)
  {
    forall k | off <= k < |b| ensures b[k] == 0 {
      assert Get(a, k, 1) == Get(b, k, 1);
      assert Get(a, k, 1)[0] == a[k] && Get(b, k, 1)[0] == b[k];
    }
  }

  // ----- rules to entries -----

  /** The bytes the translation reads are there. */
  predicate IptPayloadOk(m: Matcher)
  {
    && (m.kind == Ip4SrcAddr || m.kind == Ip4DstAddr ==> |m.payload| >= 8)
    && (m.kind == Ip4Proto ==> |m.payload| >= 1)
  }

  /** One matcher, written over what is there. */
  function Put(f: Fields, m: Matcher): (r: Result<Fields>)
    requires IptPayloadOk(m) && FieldsOk(f)
    ensures r.Ok? ==> FieldsOk(r.value)
  {
    if m.kind == Ip4SrcAddr then
      Ok(f.(src := m.payload[0..4], smsk := m.payload[4..8], inv := if m.op == Ne then SetFlag(f.inv, INV_SRCIP) else f.inv))
    else if m.kind == Ip4DstAddr then
      Ok(f.(dst := m.payload[0..4], dmsk := m.payload[4..8], inv := if m.op == Ne then SetFlag(f.inv, INV_DSTIP) else f.inv))
    else if m.kind == Ip4Proto then Ok(f.(proto := m.payload[0]))
    else Err(ENOTSUP)
  }

  function SetFlag(inv: byte, flag: byte): (r: byte)
  {
    OrByte(8, inv, flag);
    Or(inv, flag)
  }

  lemma {:induction false} OrByte(k: nat, a: nat, b: nat)
    requires a < Pow2(k) && b < Pow2(k)
    ensures Or(a, b) < Pow2(k)
  {
    if k > 0 {
      OrByte(k - 1, a / 2, b / 2);
    }
  }

  function PutAll(f: Fields, ms: seq<Matcher>): (r: Result<Fields>)
    requires FieldsOk(f) && forall m :: m in ms ==> IptPayloadOk(m)
    ensures r.Ok? ==> FieldsOk(r.value)
    decreases |ms|
  {
    if ms == [] then Ok(f)
    else
      var g :- Put(f, ms[0]);
      PutAll(g, ms[1..])
  }

  /** Entry of a rule. */
  function RuleFields(r: Rule): (f: Result<Fields>)
    requires forall m :: m in r.matchers ==> IptPayloadOk(m)
    ensures f.Ok? ==> FieldsOk(f.value) && Terminal(r.verdict)
  {
    var f :- PutAll(NO_FIELDS, r.matchers);
    if Terminal(r.verdict) then Ok(f) else Err(ENOTSUP)
  }

  // ----- entries to rules -----

  function Num(b: seq<byte>, p: nat, n: nat): (r: nat)
    requires p + n <= |b|
  {
    LE(Get(b, p, n))
  }

  /** Address and mask give a matcher unless both are zero. */
  function AddrMatcher(kind: MatcherType, addr: seq<byte>, mask: seq<byte>, inv: bool): (ms: seq<Matcher>)
  {
    if addr == ZERO4 && mask == ZERO4 then [] else [Matcher(kind, if inv then Ne else Eq, addr + mask)]
  }

  function HasFlag(inv: byte, flag: byte): bool
  {
    And(inv, flag) != 0
  }

  function FieldsMatchers(f: Fields): (r: Result<seq<Matcher>>)
  {
    var a := AddrMatcher(Ip4SrcAddr, f.src, f.smsk, HasFlag(f.inv, INV_SRCIP))
             + AddrMatcher(Ip4DstAddr, f.dst, f.dmsk, HasFlag(f.inv, INV_DSTIP));
    if f.proto == 0 then Ok(a)
    else if f.proto > 0xff then Err(EINVAL)
    else Ok(a + [Matcher(Ip4Proto, Eq, [f.proto])])
  }

  /** `_bf_ipt_target_to_verdict`, for the target at `t`: only the standard accept and drop. */
  function TargetVerdict(b: seq<byte>, t: nat): (r: Result<Verdict>)
    ensures r.Ok? ==> Terminal(r.value)
  {
    if t + 36 > |b| then Err(OutOfBounds)
    else if b[t + TARGET_NAME] != 0 then Err(ENOTSUP)
    else if Num(b, t + TARGET_VERDICT, 4) == VerdictNum(Accept) then Ok(Accept)
    else if Num(b, t + TARGET_VERDICT, 4) == VerdictNum(Drop) then Ok(Drop)
    else Err(ENOTSUP)
  }

  /** Netfilter's number of a verdict. */
  function NfNumber(v: Verdict): (n: nat)
  {
    if v == Accept then 1 else 0
  }

  /** The 32-bit word of the target as the signed number the structure declares. */
  function Signed(n: nat): (r: int)
    requires n < 0x1_0000_0000
  {
    if n < 0x8000_0000 then n else n - 0x1_0000_0000
  }

  /**
   * A target is translated exactly if it is a standard one (no name) whose verdict is negative and
   * stands for NF_DROP or NF_ACCEPT; then it is that verdict. User-defined chains (verdicts from 0
   * up), other verdicts and other targets are refused.
   */
  lemma TargetVerdictIff(b: seq<byte>, t: nat, v: Verdict)
    requires Terminal(v) && t + 36 <= |b|
    ensures Num(b, t + TARGET_VERDICT, 4) < 0x1_0000_0000
    ensures TargetVerdict(b, t) == Ok(v) <==>
              b[t + TARGET_NAME] == 0 && Signed(Num(b, t + TARGET_VERDICT, 4)) < 0
              && -Signed(Num(b, t + TARGET_VERDICT, 4)) - 1 == NfNumber(v)
    ensures TargetVerdict(b, t).Err? ==> TargetVerdict(b, t) == Err(ENOTSUP)
  {
    assert Pow256(4) == 0x1_0000_0000;
  }

  function FieldsAt(b: seq<byte>, off: nat): (f: Fields)
    requires off + ENTRY_SIZE <= |b|
    ensures FieldsOk(f)
  {
    LE2(Get(b, off + PROTO, 2));
    Fields(Get(b, off + SRC, 4), Get(b, off + DST, 4), Get(b, off + SMSK, 4), Get(b, off + DMSK, 4),
           Num(b, off + PROTO, 2), b[off + INVFLAGS])
  }

  /** `_bf_ipt_entry_to_rule`, for the entry at `off`; the index is set when the rule is added to a chain. */
  function EntryRule(b: seq<byte>, off: nat, index: u32): (r: Result<Rule>)
    ensures r.Ok? ==> Terminal(r.value.verdict)
  {
    if off + ENTRY_SIZE > |b| then Err(OutOfBounds)
    else if Num(b, off + TARGET_OFFSET, 2) > ENTRY_SIZE then Err(ENOTSUP)
    else if b[off + INIFACE] != 0 || b[off + OUTIFACE] != 0 then Err(ENOTSUP)
    else
      var ms :- FieldsMatchers(FieldsAt(b, off));
      var v :- TargetVerdict(b, off + Num(b, off + TARGET_OFFSET, 2));
      Ok(Rule(index, ms, true, v))
  }
}
