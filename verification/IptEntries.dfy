/** Which entries of an iptables table are translated, and to what, byte by byte. */
module IptEntries {
  import opened Bytes
  import opened Model
  import opened Iptables

  function Half(b: seq<byte>, p: nat): (r: u16)
    requires p + 2 <= |b|
  {
    0x100 * (b[p + 1] as int) + b[p]
  }

  /** A standard target at `t`: no name, and NF_ACCEPT (1) or NF_DROP (0) negated, minus one. */
  predicate Standard(b: seq<byte>, t: nat, v: Verdict)
  {
    t + 36 <= |b| && b[t + 2] == 0 && v != Continue
    && b[t + 32] == (if v == Accept then 0xfe else 0xff) && b[t + 33] == 0xff && b[t + 34] == 0xff && b[t + 35] == 0xff
  }

  /** An entry without extensions, interface names or unknown protocol, with a standard target. */
  predicate Translatable(b: seq<byte>, off: nat)
  {
    && off + 112 <= |b| && Half(b, off + 88) <= 112 && b[off + 16] == 0 && b[off + 32] == 0 && b[off + 81] == 0
    && (Standard(b, off + Half(b, off + 88), Accept) || Standard(b, off + Half(b, off + 88), Drop))
  }

  /** An address at `addr` and its mask at `mask`, unless both are zero; `flip` is the bit that inverts the test. */
  function Side(b: seq<byte>, kind: MatcherType, addr: nat, mask: nat, flip: bool): (ms: seq<Matcher>)
    requires addr + 4 <= |b| && mask + 4 <= |b|
  {
    var bytes := [b[addr], b[addr + 1], b[addr + 2], b[addr + 3], b[mask], b[mask + 1], b[mask + 2], b[mask + 3]];
    if bytes == [0, 0, 0, 0, 0, 0, 0, 0] then [] else [Matcher(kind, if flip then Ne else Eq, bytes)]
  }

  /** The rule of an entry: source, destination and protocol, in this order, and always counted. */
  function RuleAt(b: seq<byte>, off: nat, index: u32): (r: Rule)
    requires Translatable(b, off)
  {
    Rule(index,
         Side(b, Ip4SrcAddr, off, off + 8, Bit(b[off + 83], 3))
         + Side(b, Ip4DstAddr, off + 4, off + 12, Bit(b[off + 83], 4))
         + (if b[off + 80] == 0 then [] else [Matcher(Ip4Proto, Eq, [b[off + 80]])]),
         true,
         if Standard(b, off + Half(b, off + 88), Accept) then Accept else Drop)
  }

  // ----- the translation is this one -----

  lemma HalfIs(b: seq<byte>, p: nat)
    requires p + 2 <= |b|
    ensures Num(b, p, 2) == Half(b, p)
  {
    LE2(Get(b, p, 2));
  }

  lemma WordBytes(b: seq<byte>, p: nat, x: byte)
    requires p + 4 <= |b|
    ensures Num(b, p, 4) == 0xffff_ff00 + x <==> b[p] == x && b[p + 1] == 0xff && b[p + 2] == 0xff && b[p + 3] == 0xff
  {
    assert Get(b, p, 4) == Get(b, p, 2) + Get(b, p + 2, 2);
    LEAppend(Get(b, p, 2), Get(b, p + 2, 2));
    ShlBytes2(LE(Get(b, p + 2, 2)));
    HalfIs(b, p);
    HalfIs(b, p + 2);
  }

  lemma StandardIff(b: seq<byte>, t: nat, v: Verdict)
    requires v != Continue
    ensures TargetVerdict(b, t) == Ok(v) <==> Standard(b, t, v)
  {
    hide Num;
    if t + 36 <= |b| {
      WordBytes(b, t + 32, 0xfe);
      WordBytes(b, t + 32, 0xff);
    }
  }

  lemma {:induction false} SingleBit(x: nat, k: nat)
    ensures And(x, Pow2(k)) != 0 <==> Bit(x, k)
  {
    AndStep(x, Pow2(k));
    if k > 0 {
      assert Pow2(k) % 2 == 0 && Pow2(k) / 2 == Pow2(k - 1);
      SingleBit(x / 2, k - 1);
    } else {
      AndZero(x / 2);
    }
  }

  lemma SideIs(b: seq<byte>, kind: MatcherType, addr: nat, mask: nat, flip: bool)
    requires addr + 4 <= |b| && mask + 4 <= |b|
    ensures AddrMatcher(kind, Get(b, addr, 4), Get(b, mask, 4), flip) == Side(b, kind, addr, mask, flip)
  {
    var x, y := Get(b, addr, 4), Get(b, mask, 4);
    assert x == [b[addr], b[addr + 1], b[addr + 2], b[addr + 3]];
    assert y == [b[mask], b[mask + 1], b[mask + 2], b[mask + 3]];
    var z := [b[addr], b[addr + 1], b[addr + 2], b[addr + 3], b[mask], b[mask + 1], b[mask + 2], b[mask + 3]];
    assert x + y == z;
    if z == [0, 0, 0, 0, 0, 0, 0, 0] {
      assert z[0] == 0 && z[1] == 0 && z[2] == 0 && z[3] == 0 && z[4] == 0 && z[5] == 0 && z[6] == 0 && z[7] == 0;
    }
  }

  lemma FieldsIs(b: seq<byte>, off: nat)
    requires off + 112 <= |b|
    ensures FieldsMatchers(FieldsAt(b, off)) ==
            if b[off + 81] != 0 then Err(EINVAL)
            else Ok(Side(b, Ip4SrcAddr, off, off + 8, Bit(b[off + 83], 3))
                    + Side(b, Ip4DstAddr, off + 4, off + 12, Bit(b[off + 83], 4))
                    + (if b[off + 80] == 0 then [] else [Matcher(Ip4Proto, Eq, [b[off + 80]])]))
  {
    hide Num, And, Bit, AddrMatcher, Side;
    HalfIs(b, off + 80);
    assert Pow2(3) == 8 && Pow2(4) == 16;
    SingleBit(b[off + 83], 3);
    SingleBit(b[off + 83], 4);
    SideIs(b, Ip4SrcAddr, off, off + 8, Bit(b[off + 83], 3));
    SideIs(b, Ip4DstAddr, off + 4, off + 12, Bit(b[off + 83], 4));
    var a := Side(b, Ip4SrcAddr, off, off + 8, Bit(b[off + 83], 3)) + Side(b, Ip4DstAddr, off + 4, off + 12, Bit(b[off + 83], 4));
    assert a + [] == a;
  }

  /** An entry is translated exactly if it is translatable, and then to the rule its bytes say. */
  lemma EntryRuleIff(b: seq<byte>, off: nat, index: u32)
    ensures EntryRule(b, off, index).Ok? <==> Translatable(b, off)
    ensures Translatable(b, off) ==> EntryRule(b, off, index) == Ok(RuleAt(b, off, index))
  {
    hide Num, FieldsMatchers, Standard, TargetVerdict, FieldsAt, Side;
    if off + 112 <= |b| {
      HalfIs(b, off + 88);
      FieldsIs(b, off);
      var t := off + Half(b, off + 88);
      StandardIff(b, t, Accept);
      StandardIff(b, t, Drop);
    }
  }
}
