/** Generation of a whole table from per-hook chains, and the way back. */
module IptTable {
  import opened Bytes
  import opened Model
  import opened Iptables

  // ----- one entry -----

  lemma And8(a: nat, b: nat)
    ensures And(8 * a, 8 * b) == 8 * And(a, b)
  {
    hide And;
    AndStep(8 * a, 8 * b);
    AndStep(4 * a, 4 * b);
    AndStep(2 * a, 2 * b);
  }

  lemma AndSmall()
    ensures And(1, 1) == 1 && And(1, 2) == 0 && And(2, 1) == 0 && And(2, 2) == 2 && And(3, 1) == 1 && And(3, 2) == 2
  {
    AndStep(1, 1);
    AndStep(1, 2);
    AndStep(2, 1);
    AndStep(2, 2);
    AndStep(3, 1);
    AndStep(3, 2);
    AndStep(1, 0);
    AndStep(0, 1);
  }

  lemma OrFlags()
    ensures Or(8, 16) == 24 && Or(0, 8) == 8 && Or(0, 16) == 16
  {
    assert Or(1, 2) == 3;
    assert Or(2, 4) == 6;
    assert Or(4, 8) == 12;
  }

  lemma Flags()
    ensures SetFlag(0, INV_SRCIP) == 0x08 && SetFlag(0, INV_DSTIP) == 0x10 && SetFlag(0x08, INV_DSTIP) == 0x18
    ensures !HasFlag(0, INV_SRCIP) && !HasFlag(0, INV_DSTIP) && HasFlag(0x08, INV_SRCIP) && !HasFlag(0x08, INV_DSTIP)
    ensures !HasFlag(0x10, INV_SRCIP) && HasFlag(0x10, INV_DSTIP) && HasFlag(0x18, INV_SRCIP) && HasFlag(0x18, INV_DSTIP)
  {
    hide And, Or;
    OrFlags();
    AndSmall();
    And8(1, 1);
    And8(1, 2);
    And8(2, 1);
    And8(2, 2);
    And8(3, 1);
    And8(3, 2);
    AndZero(8);
    AndZero(16);
  }

  /** The matchers of some entry. */
  ghost predicate FromEntry(ms: seq<Matcher>)
  {
    exists f: Fields :: FieldsOk(f) && FieldsMatchers(f) == Ok(ms)
  }

  /** The fields that the matchers of an entry put back. */
  function Kept(f: Fields): (g: Fields)
    requires FieldsOk(f)
    ensures FieldsOk(g)
  {
    var s := f.src != ZERO4 || f.smsk != ZERO4;
    var d := f.dst != ZERO4 || f.dmsk != ZERO4;
    var inv1 := if s && HasFlag(f.inv, INV_SRCIP) then SetFlag(0, INV_SRCIP) else 0;
    f.(inv := if d && HasFlag(f.inv, INV_DSTIP) then SetFlag(inv1, INV_DSTIP) else inv1)
  }

  lemma KeptMatchers(f: Fields)
    requires FieldsOk(f)
    ensures FieldsMatchers(Kept(f)) == FieldsMatchers(f)
  {
    hide And, Or;
    Flags();
  }

  lemma AddrPut(f: Fields, g: Fields, kind: MatcherType, rest: seq<Matcher>)
    requires FieldsOk(f) && FieldsOk(g) && kind in {Ip4SrcAddr, Ip4DstAddr} && forall m :: m in rest ==> IptPayloadOk(m)
    requires if kind == Ip4SrcAddr then g.src == ZERO4 && g.smsk == ZERO4 else g.dst == ZERO4 && g.dmsk == ZERO4
    ensures var src := kind == Ip4SrcAddr;
            var addr, mask, flag := if src then f.src else f.dst, if src then f.smsk else f.dmsk, if src then INV_SRCIP else INV_DSTIP;
            var ms := AddrMatcher(kind, addr, mask, HasFlag(f.inv, flag));
            var on := ms != [] && HasFlag(f.inv, flag);
            var inv := if on then SetFlag(g.inv, flag) else g.inv;
            var h := if src then g.(src := addr, smsk := mask, inv := inv) else g.(dst := addr, dmsk := mask, inv := inv);
            (forall m :: m in ms + rest ==> IptPayloadOk(m)) && PutAll(g, ms + rest) == PutAll(h, rest)
  {
    hide And, Or;
    var src := kind == Ip4SrcAddr;
    var addr, mask, flag := if src then f.src else f.dst, if src then f.smsk else f.dmsk, if src then INV_SRCIP else INV_DSTIP;
    var ms := AddrMatcher(kind, addr, mask, HasFlag(f.inv, flag));
    if ms == [] {
      assert ms + rest == rest;
    } else {
      assert (addr + mask)[0..4] == addr && (addr + mask)[4..8] == mask;
      assert (ms + rest)[1..] == rest;
    }
  }

  /** Writing the matchers of an entry into an empty one. */
  lemma PutBack(f: Fields, ms: seq<Matcher>)
    requires FieldsOk(f) && FieldsMatchers(f) == Ok(ms)
    ensures (forall m :: m in ms ==> IptPayloadOk(m)) && PutAll(NO_FIELDS, ms) == Ok(Kept(f))
  {
    hide And, Or, AddrMatcher;
    var a := AddrMatcher(Ip4SrcAddr, f.src, f.smsk, HasFlag(f.inv, INV_SRCIP));
    var b := AddrMatcher(Ip4DstAddr, f.dst, f.dmsk, HasFlag(f.inv, INV_DSTIP));
    var c := if f.proto == 0 then [] else [Matcher(Ip4Proto, Eq, [f.proto])];
    assert ms == a + (b + c);
    ProtoPut(f, c);
    var inv1 := if a != [] && HasFlag(f.inv, INV_SRCIP) then SetFlag(0, INV_SRCIP) else 0;
    var g1 := NO_FIELDS.(src := f.src, smsk := f.smsk, inv := inv1);
    AddrPut(f, g1, Ip4DstAddr, c);
    AddrPut(f, NO_FIELDS, Ip4SrcAddr, b + c);
    SomeAddr(Ip4SrcAddr, f.src, f.smsk, HasFlag(f.inv, INV_SRCIP));
    SomeAddr(Ip4DstAddr, f.dst, f.dmsk, HasFlag(f.inv, INV_DSTIP));
  }

  lemma SomeAddr(kind: MatcherType, addr: seq<byte>, mask: seq<byte>, inv: bool)
    ensures AddrMatcher(kind, addr, mask, inv) == [] <==> addr == ZERO4 && mask == ZERO4
  {
  }

  lemma ProtoPut(f: Fields, c: seq<Matcher>)
    requires f.proto <= 0xff && c == if f.proto == 0 then [] else [Matcher(Ip4Proto, Eq, [f.proto])]
    ensures (forall m :: m in c ==> IptPayloadOk(m))
    ensures forall g :: FieldsOk(g) && g.proto == 0 ==> PutAll(g, c) == Ok(g.(proto := f.proto))
  {
    if c != [] {
      assert c[1..] == [];
    }
  }

  // ----- what any list of matchers puts in an entry -----

  lemma {:induction false} OrBit(a: nat, b: nat, k: nat)
    ensures Bit(Or(a, b), k) <==> Bit(a, k) || Bit(b, k)
  {
    if a == 0 || b == 0 {
      ZeroBit(k);
    } else if k > 0 {
      assert Or(a, b) / 2 == Or(a / 2, b / 2);
      OrBit(a / 2, b / 2, k - 1);
    }
  }

  lemma FlagBits()
    ensures Bit(8, 3) && !Bit(8, 4) && Bit(16, 4) && !Bit(16, 3)
  {
    assert Bit(1, 0) && !Bit(1, 1) && !Bit(2, 0) && Bit(2, 1);
    assert Bit(4, 2) == Bit(2, 1) && Bit(8, 3) == Bit(4, 2) && Bit(16, 4) == Bit(8, 3);
    assert !Bit(2, 2) && Bit(4, 3) == Bit(2, 2) && Bit(8, 4) == Bit(4, 3);
    assert Bit(4, 1) == Bit(2, 0) && Bit(8, 2) == Bit(4, 1) && Bit(16, 3) == Bit(8, 2);
  }

  /** Some matcher inverts the test of a side. */
  predicate Inverts(ms: seq<Matcher>, kind: MatcherType)
  {
    exists m :: m in ms && m.kind == kind && m.op == Ne
  }

  /** The last matcher of a kind, if any. */
  function LastOf(ms: seq<Matcher>, kind: MatcherType): (r: Option<Matcher>)
    ensures r.Some? ==> r.value in ms && r.value.kind == kind
  {
    if ms == [] then None
    else match LastOf(ms[1..], kind)
      case Some(m) => Some(m)
      case None => if ms[0].kind == kind then Some(ms[0]) else None
  }

  predicate PutOk(ms: seq<Matcher>)
  {
    forall m :: m in ms ==> m.kind in {Ip4SrcAddr, Ip4DstAddr, Ip4Proto}
  }

  /** The fields after `ms` are written over `f`: the last matcher of a side wins, inversions add up. */
  predicate PutMeans(f: Fields, ms: seq<Matcher>, g: Fields)
    requires forall m :: m in ms ==> IptPayloadOk(m)
  {
    var s := LastOf(ms, Ip4SrcAddr);
    var d := LastOf(ms, Ip4DstAddr);
    var p := LastOf(ms, Ip4Proto);
    assert (s.Some? ==> IptPayloadOk(s.value)) && (d.Some? ==> IptPayloadOk(d.value)) && (p.Some? ==> IptPayloadOk(p.value));
    && (if s.Some? then g.src == s.value.payload[0..4] && g.smsk == s.value.payload[4..8] else g.src == f.src && g.smsk == f.smsk)
    && (if d.Some? then g.dst == d.value.payload[0..4] && g.dmsk == d.value.payload[4..8] else g.dst == f.dst && g.dmsk == f.dmsk)
    && g.proto == (if p.Some? then p.value.payload[0] else f.proto)
    && (Bit(g.inv, 3) <==> Bit(f.inv, 3) || Inverts(ms, Ip4SrcAddr)) && (Bit(g.inv, 4) <==> Bit(f.inv, 4) || Inverts(ms, Ip4DstAddr))
  }

  lemma PutOne(f: Fields, m: Matcher)
    requires IptPayloadOk(m) && FieldsOk(f)
    ensures Put(f, m).Ok? <==> m.kind in {Ip4SrcAddr, Ip4DstAddr, Ip4Proto}
    ensures Put(f, m).Err? ==> Put(f, m) == Err(ENOTSUP)
    ensures Put(f, m).Ok? ==>
              var g := Put(f, m).value;
              && (Bit(g.inv, 3) <==> Bit(f.inv, 3) || (m.kind == Ip4SrcAddr && m.op == Ne))
              && (Bit(g.inv, 4) <==> Bit(f.inv, 4) || (m.kind == Ip4DstAddr && m.op == Ne))
  {
    hide Or, Bit;
    FlagBits();
    OrBit(f.inv, 8, 3);
    OrBit(f.inv, 8, 4);
    OrBit(f.inv, 16, 3);
    OrBit(f.inv, 16, 4);
  }

  /** Which matchers can be written to an entry, and what they leave there. */
  lemma {:induction false} PutAllMeans(f: Fields, ms: seq<Matcher>)
    requires FieldsOk(f) && forall m :: m in ms ==> IptPayloadOk(m)
    ensures PutAll(f, ms).Ok? <==> PutOk(ms)
    ensures PutAll(f, ms).Err? ==> PutAll(f, ms) == Err(ENOTSUP)
    ensures PutAll(f, ms).Ok? ==> PutMeans(f, ms, PutAll(f, ms).value)
    decreases |ms|
  {
    hide Or, Bit, And;
    if ms != [] {
      var m, rest := ms[0], ms[1..];
      assert forall x :: x in ms <==> x == m || x in rest;
      PutOne(f, m);
      if Put(f, m).Ok? {
        PutAllMeans(Put(f, m).value, rest);
        assert Inverts(ms, Ip4SrcAddr) <==> (m.kind == Ip4SrcAddr && m.op == Ne) || Inverts(rest, Ip4SrcAddr);
        assert Inverts(ms, Ip4DstAddr) <==> (m.kind == Ip4DstAddr && m.op == Ne) || Inverts(rest, Ip4DstAddr);
      }
    }
  }

  /** Reading an entry that was written. */
  lemma EntryBack(b: seq<byte>, off: nat, f: Fields, v: Verdict, index: u32)
    requires EntryIs(b, off, f, v) && FieldsOk(f) && Terminal(v)
    ensures EntryRule(b, off, index) ==
            match FieldsMatchers(f) case Ok(ms) => Ok(Rule(index, ms, true, v)) case Err(e) => Err(e)
    ensures Num(b, off + NEXT_OFFSET, 2) == RULE_SIZE && Num(b, off + TARGET_OFFSET, 2) == ENTRY_SIZE
    ensures TargetVerdict(b, off + ENTRY_SIZE) == Ok(v)
  {
    hide FieldsMatchers, ToLE, LE;
    assert Pow256(2) == 0x1_0000 && Pow256(4) == 0x1_0000_0000;
    LEOfToLE(f.proto, 2);
    LEOfToLE(ENTRY_SIZE, 2);
    LEOfToLE(RULE_SIZE, 2);
    LEOfToLE(VerdictNum(v), 4);
    ByteAt(b, off + INVFLAGS);
    ByteAt(b, off + INIFACE);
    ByteAt(b, off + OUTIFACE);
    ByteAt(b, off + ENTRY_SIZE + TARGET_NAME);
    assert FieldsAt(b, off) == f;
  }

  lemma ByteAt(b: seq<byte>, p: nat)
    requires p < |b|
    ensures Get(b, p, 1)[0] == b[p]
  {
  }

  // ----- rows of a table -----

  datatype Row = RuleRow(r: Rule) | PolicyRow(v: Verdict)

  /** From iptables' side, a chain is its rules and one more for the policy. */
  function ChainRows(c: Chain): (rows: seq<Row>)
    ensures |rows| == |c.rules| + 1
    ensures forall i :: 0 <= i < |c.rules| ==> rows[i] == RuleRow(c.rules[i])
    ensures rows[|c.rules|] == PolicyRow(c.policy)
  {
    seq(|c.rules|, i requires 0 <= i < |c.rules| => RuleRow(c.rules[i])) + [PolicyRow(c.policy)]
  }

  function HookRows(c: Option<Chain>): (rows: seq<Row>)
  {
    match c case Some(x) => ChainRows(x) case None => []
  }

  /** The chain of each hook, if any. */
  type Ruleset = seq<Option<Chain>>

  function Rows(rs: Ruleset): (rows: seq<Row>)
  {
    if rs == [] then [] else HookRows(rs[0]) + Rows(rs[1..])
  }

  lemma {:induction false} RowsAppend(a: Ruleset, b: Ruleset)
    ensures Rows(a + b) == Rows(a) + Rows(b)
  {
    if a == [] {
      assert a + b == b;
    } else {
      assert (a + b)[1..] == a[1..] + b;
      RowsAppend(a[1..], b);
    }
  }

  lemma RowsAt(rs: Ruleset, h: nat)
    requires h < |rs|
    ensures Rows(rs) == Rows(rs[..h]) + HookRows(rs[h]) + Rows(rs[h + 1..])
    ensures Rows(rs[..h + 1]) == Rows(rs[..h]) + HookRows(rs[h])
  {
    hide Rows, HookRows;
    SplitAt(rs, h);
    RowsOne(rs[h]);
    RowsAppend(rs[..h], [rs[h]]);
    RowsAppend(rs[..h + 1], rs[h + 1..]);
  }

  lemma SplitAt<T>(s: seq<T>, h: nat)
    requires h < |s|
    ensures s == s[..h + 1] + s[h + 1..] && s[..h + 1] == s[..h] + [s[h]]
  {
  }

  lemma RowsOne(c: Option<Chain>)
    ensures Rows([c]) == HookRows(c)
  {
    assert [c][1..] == [];
    assert Rows([c]) == HookRows(c) + [];
  }

  predicate RowOk(row: Row)
  {
    row.RuleRow? ==> forall m :: m in row.r.matchers ==> IptPayloadOk(m)
  }

  /** Fields and verdict of a row's entry. */
  function RowEntry(row: Row): (e: Result<(Fields, Verdict)>)
    requires RowOk(row)
    ensures e.Ok? ==> FieldsOk(e.value.0) && Terminal(e.value.1)
  {
    match row
    case RuleRow(r) =>
      var f :- RuleFields(r);
      Ok((f, r.verdict))
    case PolicyRow(v) => if Terminal(v) then Ok((NO_FIELDS, v)) else Err(ENOTSUP)
  }

  predicate RowIs(b: seq<byte>, off: nat, row: Row)
    requires RowOk(row)
  {
    RowEntry(row).Ok? && EntryIs(b, off, RowEntry(row).value.0, RowEntry(row).value.1)
  }

  predicate RowsIn(b: seq<byte>, rows: seq<Row>)
    requires forall row :: row in rows ==> RowOk(row)
  {
    forall k :: 0 <= k < |rows| ==> rows[k] in rows && RowIs(b, RULE_SIZE * k, rows[k])
  }

  // ----- the table -----

  datatype Replace = Replace(
    valid: seq<bool>, hookEntry: seq<nat>, underflow: seq<nat>, numEntries: nat, size: nat, entries: seq<byte>)

  const ERROR_NAME: seq<byte> := [69, 82, 82, 79, 82, 0]

  /** The entry with the error target that ends the table. */
  predicate ErrorIs(b: seq<byte>, off: nat)
  {
    && off + ERR_SIZE <= |b|
    && Get(b, off + TARGET_OFFSET, 2) == ToLE(ENTRY_SIZE, 2) && Get(b, off + NEXT_OFFSET, 2) == ToLE(ERR_SIZE, 2)
    && Get(b, off + ENTRY_SIZE + TARGET_SIZE, 2) == ToLE(ERR_SIZE - ENTRY_SIZE, 2)
    && Get(b, off + ENTRY_SIZE + TARGET_NAME, 6) == ERROR_NAME && Get(b, off + ENTRY_SIZE + TARGET_ERRORNAME, 6) == ERROR_NAME
  }

  predicate HooksAre(t: Replace, rs: Ruleset, n: nat)
    requires n <= |rs| == 5
  {
    && |t.valid| == |t.hookEntry| == |t.underflow| == 5
    && (forall h :: 0 <= h < n ==> t.valid[h] == rs[h].Some?)
    && (forall h :: 0 <= h < n && rs[h].Some? ==>
          t.hookEntry[h] == RULE_SIZE * |Rows(rs[..h])| && t.underflow[h] == t.hookEntry[h] + RULE_SIZE * |rs[h].value.rules|)
  }

  /** The table of a ruleset. */
  ghost predicate TableIs(t: Replace, rs: Ruleset)
    requires |rs| == 5 && forall row :: row in Rows(rs) ==> RowOk(row)
  {
    && HooksAre(t, rs, 5) && t.numEntries == |Rows(rs)| + 1
    && t.size == |t.entries| == RULE_SIZE * |Rows(rs)| + ERR_SIZE
    && RowsIn(t.entries, Rows(rs)) && ErrorIs(t.entries, RULE_SIZE * |Rows(rs)|)
  }
}
