/** Filling the table through a moving entry pointer. */
module IptGenerate {
  import opened Bytes
  import opened Model
  import opened Iptables
  import opened IptTable

  /** A store inside an entry touches nothing outside of it. */
  lemma AgreeWider(a: seq<byte>, b: seq<byte>, lo: nat, hi: nat, lo2: nat, hi2: nat)
    requires Agree(a, b, lo, hi) && lo2 <= lo && hi <= hi2
    ensures Agree(a, b, lo2, hi2)
  {
    hide Get;
  }

  lemma StoredField(a: seq<byte>, b: seq<byte>, off: nat, f: Fields, d: nat, x: seq<byte>)
    requires (d in {SRC, DST, SMSK, DMSK} && |x| == 4) || (d == INVFLAGS && |x| == 1)
    requires HasFields(a, off, f) && Agree(a, b, off + d, off + d + |x|) && Get(b, off + d, |x|) == x
    ensures HasFields(b, off, if d == SRC then f.(src := x) else if d == DST then f.(dst := x)
                              else if d == SMSK then f.(smsk := x) else if d == DMSK then f.(dmsk := x) else f.(inv := x[0]))
    ensures HasOffsets(a, off, RULE_SIZE) ==> HasOffsets(b, off, RULE_SIZE)
  {
    hide Get, ToLE;
  }

  lemma StoredProto(a: seq<byte>, b: seq<byte>, off: nat, f: Fields, p: u16)
    requires HasFields(a, off, f) && Agree(a, b, off + PROTO, off + PROTO + 2) && Get(b, off + PROTO, 2) == ToLE(p, 2)
    ensures HasFields(b, off, f.(proto := p))
    ensures HasOffsets(a, off, RULE_SIZE) ==> HasOffsets(b, off, RULE_SIZE)
  {
    hide Get, ToLE;
  }

  /** One store of an address field, in the entry at `off`. */
  method StoreField(buf: array<byte>, off: nat, d: nat, x: seq<byte>, ghost f: Fields)
    requires HasFields(buf[..], off, f) && HasOffsets(buf[..], off, RULE_SIZE)
    requires (d in {SRC, DST, SMSK, DMSK} && |x| == 4) || (d == INVFLAGS && |x| == 1)
    modifies buf
    ensures HasFields(buf[..], off, if d == SRC then f.(src := x) else if d == DST then f.(dst := x)
                      else if d == SMSK then f.(smsk := x) else if d == DMSK then f.(dmsk := x) else f.(inv := x[0]))
    ensures HasOffsets(buf[..], off, RULE_SIZE) && Agree(old(buf[..]), buf[..], off, off + RULE_SIZE)
  {
    hide HasFields, HasOffsets, Agree;
    ghost var a := buf[..];
    assert off + RULE_SIZE <= buf.Length by {
      FieldsInside(a, off, f);
    }
    StoreAt(buf, off + d, x);
    StoredField(a, buf[..], off, f, d, x);
    AgreeWider(a, buf[..], off + d, off + d + |x|, off, off + RULE_SIZE);
  }

  lemma FieldsInside(b: seq<byte>, off: nat, f: Fields)
    requires HasFields(b, off, f)
    ensures off + RULE_SIZE <= |b| && b[off + INVFLAGS] == f.inv
  {
    ByteAt(b, off + INVFLAGS);
  }

  lemma AgreeChain(a: seq<byte>, b: seq<byte>, c: seq<byte>, lo: nat, hi: nat)
    requires Agree(a, b, lo, hi) && Agree(b, c, lo, hi)
    ensures Agree(a, c, lo, hi)
  {
    AgreeTrans(a, b, c, lo, hi, lo, hi);
  }

  lemma AgreeSelf(a: seq<byte>, lo: nat, hi: nat)
    ensures Agree(a, a, lo, hi)
  {
  }

  /** Address and mask of a matcher, and its inversion flag. */
  method PutAddr(buf: array<byte>, off: nat, m: Matcher, src: bool, ghost f: Fields)
    requires HasFields(buf[..], off, f) && FieldsOk(f) && HasOffsets(buf[..], off, RULE_SIZE) && IptPayloadOk(m)
    requires m.kind == if src then Ip4SrcAddr else Ip4DstAddr
    modifies buf
    ensures Put(f, m).Ok? && HasFields(buf[..], off, Put(f, m).value)
    ensures HasOffsets(buf[..], off, RULE_SIZE) && Agree(old(buf[..]), buf[..], off, off + RULE_SIZE)
  {
    hide HasFields, HasOffsets, Agree, Or, And;
    ghost var a, g := buf[..], f;
    AgreeSelf(a, off, off + RULE_SIZE);
    var flag := if src then INV_SRCIP else INV_DSTIP;
    if m.op == Ne {
      FieldsInside(buf[..], off, f);
      StoreField(buf, off, INVFLAGS, [SetFlag(buf[off + INVFLAGS], flag)], f);
      g := f.(inv := SetFlag(f.inv, flag));
    }
    ghost var b := buf[..];
    StoreField(buf, off, if src then SRC else DST, m.payload[0..4], g);
    g := if src then g.(src := m.payload[0..4]) else g.(dst := m.payload[0..4]);
    ghost var c := buf[..];
    StoreField(buf, off, if src then SMSK else DMSK, m.payload[4..8], g);
    AgreeChain(a, b, c, off, off + RULE_SIZE);
    AgreeChain(a, c, buf[..], off, off + RULE_SIZE);
  }

  /** One matcher, over what the entry holds. */
  method PutMatcher(buf: array<byte>, off: nat, m: Matcher, ghost f: Fields) returns (r: Result<()>)
    requires HasFields(buf[..], off, f) && FieldsOk(f) && HasOffsets(buf[..], off, RULE_SIZE) && IptPayloadOk(m)
    modifies buf
    ensures HasOffsets(buf[..], off, RULE_SIZE) && Agree(old(buf[..]), buf[..], off, off + RULE_SIZE)
    ensures match Put(f, m) case Ok(g) => r.Ok? && HasFields(buf[..], off, g) case Err(e) => r == Err(e)
  {
    hide HasFields, HasOffsets, Agree, Or, And;
    ghost var a := buf[..];
    AgreeSelf(a, off, off + RULE_SIZE);
    if m.kind == Ip4SrcAddr {
      PutAddr(buf, off, m, true, f);
    } else if m.kind == Ip4DstAddr {
      PutAddr(buf, off, m, false, f);
    } else if m.kind == Ip4Proto {
      FieldsInside(a, off, f);
      StoreAt(buf, off + PROTO, ToLE(m.payload[0], 2));
      StoredProto(a, buf[..], off, f, m.payload[0]);
      AgreeWider(a, buf[..], off + PROTO, off + PROTO + 2, off, off + RULE_SIZE);
    } else {
      return Err(ENOTSUP);
    }
    r := Ok(());
  }

  /** The standard target's verdict and size. */
  method VerdictToTarget(buf: array<byte>, off: nat, v: Verdict, ghost f: Fields) returns (r: Result<()>)
    requires HasFields(buf[..], off, f) && HasOffsets(buf[..], off, RULE_SIZE)
    modifies buf
    ensures Agree(old(buf[..]), buf[..], off, off + RULE_SIZE)
    ensures if Terminal(v) then r.Ok? && EntryIs(buf[..], off, f, v) else r == Err(ENOTSUP)
  {
    hide Agree, HasFields, HasOffsets, HasVerdict;
    ghost var a := buf[..];
    AgreeSelf(a, off, off + RULE_SIZE);
    if !Terminal(v) {
      return Err(ENOTSUP);
    }
    FieldsInside(a, off, f);
    var t := off + ENTRY_SIZE;
    StoreAt(buf, t + TARGET_VERDICT, ToLE(VerdictNum(v), 4));
    ghost var b := buf[..];
    StoreAt(buf, t + TARGET_SIZE, ToLE(RULE_SIZE - ENTRY_SIZE, 2));
    StoredTarget(a, b, buf[..], off, f, v);
    r := Ok(());
  }

  lemma StoredTarget(a: seq<byte>, b: seq<byte>, c: seq<byte>, off: nat, f: Fields, v: Verdict)
    requires HasFields(a, off, f) && HasOffsets(a, off, RULE_SIZE)
    requires Agree(a, b, off + ENTRY_SIZE + TARGET_VERDICT, off + ENTRY_SIZE + TARGET_VERDICT + 4)
    requires Get(b, off + ENTRY_SIZE + TARGET_VERDICT, 4) == ToLE(VerdictNum(v), 4)
    requires Agree(b, c, off + ENTRY_SIZE, off + ENTRY_SIZE + 2)
    requires Get(c, off + ENTRY_SIZE + TARGET_SIZE, 2) == ToLE(RULE_SIZE - ENTRY_SIZE, 2)
    ensures EntryIs(c, off, f, v) && Agree(a, c, off, off + RULE_SIZE)
  {
    hide Get, ToLE, VerdictNum;
    assert HasFields(b, off, f) && HasOffsets(b, off, RULE_SIZE);
    assert HasFields(c, off, f) && HasOffsets(c, off, RULE_SIZE) && HasVerdict(c, off, v);
    AgreeWider(a, b, off + ENTRY_SIZE + TARGET_VERDICT, off + ENTRY_SIZE + TARGET_VERDICT + 4, off, off + RULE_SIZE);
    AgreeWider(b, c, off + ENTRY_SIZE, off + ENTRY_SIZE + 2, off, off + RULE_SIZE);
    AgreeChain(a, b, c, off, off + RULE_SIZE);
  }

  /** `_bf_rule_to_ipt_entry`: matchers one after the other, then the target. */
  method RuleToEntry(buf: array<byte>, off: nat, rule: Rule) returns (r: Result<()>)
    requires HasFields(buf[..], off, NO_FIELDS) && HasOffsets(buf[..], off, RULE_SIZE)
    requires forall m :: m in rule.matchers ==> IptPayloadOk(m)
    modifies buf
    ensures Agree(old(buf[..]), buf[..], off, off + RULE_SIZE)
    ensures match RuleFields(rule) case Ok(f) => r.Ok? && EntryIs(buf[..], off, f, rule.verdict) case Err(e) => r == Err(e)
  {
    hide HasFields, HasOffsets, Agree, EntryIs, Put, IptPayloadOk;
    ghost var a, f := buf[..], NO_FIELDS;
    AgreeSelf(a, off, off + RULE_SIZE);
    var ms := rule.matchers;
    var i := 0;
    while i < |ms|
      invariant 0 <= i <= |ms| && FieldsOk(f) && HasFields(buf[..], off, f) && HasOffsets(buf[..], off, RULE_SIZE)
      invariant Agree(a, buf[..], off, off + RULE_SIZE)
      invariant PutAll(NO_FIELDS, ms) == PutAll(f, ms[i..])
    {
      assert ms[i] in ms;
      assert ms[i..][0] == ms[i] && ms[i..][1..] == ms[i + 1..];
      ghost var b := buf[..];
      var q := PutMatcher(buf, off, ms[i], f);
      AgreeChain(a, b, buf[..], off, off + RULE_SIZE);
      if q.Err? {
        return q;
      }
      f := Put(f, ms[i]).value;
      i := i + 1;
    }
    ghost var b := buf[..];
    r := VerdictToTarget(buf, off, rule.verdict, f);
    AgreeChain(a, b, buf[..], off, off + RULE_SIZE);
  }

  lemma StoredOffsets(a: seq<byte>, b: seq<byte>, c: seq<byte>, off: nat)
    requires HasFields(a, off, NO_FIELDS)
    requires Agree(a, b, off + TARGET_OFFSET, off + TARGET_OFFSET + 2) && Get(b, off + TARGET_OFFSET, 2) == ToLE(ENTRY_SIZE, 2)
    requires Agree(b, c, off + NEXT_OFFSET, off + NEXT_OFFSET + 2) && Get(c, off + NEXT_OFFSET, 2) == ToLE(RULE_SIZE, 2)
    ensures HasFields(c, off, NO_FIELDS) && HasOffsets(c, off, RULE_SIZE) && Agree(a, c, off, off + RULE_SIZE)
  {
    hide Get, ToLE;
    assert HasFields(b, off, NO_FIELDS);
    AgreeWider(a, b, off + TARGET_OFFSET, off + TARGET_OFFSET + 2, off, off + RULE_SIZE);
    AgreeWider(b, c, off + NEXT_OFFSET, off + NEXT_OFFSET + 2, off, off + RULE_SIZE);
    AgreeChain(a, b, c, off, off + RULE_SIZE);
  }

  /** One row, in memory that is still zero. */
  method WriteRow(buf: array<byte>, off: nat, row: Row) returns (r: Result<()>)
    requires Zero(buf[..], off) && off + RULE_SIZE <= buf.Length && RowOk(row)
    modifies buf
    ensures Agree(old(buf[..]), buf[..], off, off + RULE_SIZE) && Zero(buf[..], off + RULE_SIZE)
    ensures match RowEntry(row) case Ok(_) => r.Ok? && RowIs(buf[..], off, row) case Err(e) => r == Err(e)
  {
    hide HasFields, HasOffsets, Agree, EntryIs, Zero, PutAll;
    ghost var a := buf[..];
    ZeroFields(a, off);
    StoreAt(buf, off + TARGET_OFFSET, ToLE(ENTRY_SIZE, 2));
    ghost var b := buf[..];
    StoreAt(buf, off + NEXT_OFFSET, ToLE(RULE_SIZE, 2));
    ghost var c := buf[..];
    StoredOffsets(a, b, c, off);
    match row {
    case RuleRow(rule) =>
      r := RuleToEntry(buf, off, rule);
    case PolicyRow(v) =>
      r := VerdictToTarget(buf, off, v, NO_FIELDS);
    }
    AgreeChain(a, c, buf[..], off, off + RULE_SIZE);
    ZeroLater(a, off, off + RULE_SIZE);
    ZeroKept(a, buf[..], off, off + RULE_SIZE, off + RULE_SIZE);
  }

  lemma ZeroLater(b: seq<byte>, off: nat, off2: nat)
    requires Zero(b, off) && off <= off2
    ensures Zero(b, off2)
  {
  }

  // ----- whole tables -----

  predicate RowsOk(rows: seq<Row>)
  {
    forall row :: row in rows ==> RowOk(row)
  }

  predicate AllWritable(rows: seq<Row>)
    requires RowsOk(rows)
  {
    forall row :: row in rows ==> RowEntry(row).Ok?
  }

  /** The rows lie in a row from `off` on. */
  predicate RowsFrom(b: seq<byte>, off: nat, rows: seq<Row>)
    requires RowsOk(rows)
  {
    forall k :: 0 <= k < |rows| ==> rows[k] in rows && RowIs(b, off + RULE_SIZE * k, rows[k])
  }

  lemma RowsFromKept(a: seq<byte>, b: seq<byte>, lo: nat, hi: nat, off: nat, rows: seq<Row>)
    requires RowsOk(rows) && RowsFrom(a, off, rows) && Agree(a, b, lo, hi) && off + RULE_SIZE * |rows| <= lo
    ensures RowsFrom(b, off, rows)
  {
    hide EntryIs, RowEntry, Agree, RowOk;
    forall k | 0 <= k < |rows| ensures RowIs(b, off + RULE_SIZE * k, rows[k]) {
      var e := RowEntry(rows[k]).value;
      EntryKept(a, b, lo, hi, off + RULE_SIZE * k, e.0, e.1);
    }
  }

  lemma RowsFromAppend(b: seq<byte>, off: nat, r1: seq<Row>, r2: seq<Row>)
    requires RowsOk(r1) && RowsOk(r2) && RowsFrom(b, off, r1) && RowsFrom(b, off + RULE_SIZE * |r1|, r2)
    ensures RowsOk(r1 + r2) && RowsFrom(b, off, r1 + r2)
  {
    hide RowIs, RowOk;
    var rows := r1 + r2;
    forall k | 0 <= k < |rows| ensures RowIs(b, off + RULE_SIZE * k, rows[k]) {
      if k >= |r1| {
        assert rows[k] == r2[k - |r1|];
        assert RowIs(b, off + RULE_SIZE * |r1| + RULE_SIZE * (k - |r1|), r2[k - |r1|]);
      }
    }
  }

  /** The rules of a chain, then its policy. */
  method WriteRows(buf: array<byte>, off: nat, rows: seq<Row>) returns (r: Result<()>)
    requires Zero(buf[..], off) && off + RULE_SIZE * |rows| <= buf.Length && RowsOk(rows)
    modifies buf
    ensures Agree(old(buf[..]), buf[..], off, off + RULE_SIZE * |rows|)
    ensures r.Ok? <==> AllWritable(rows)
    ensures r.Ok? ==> RowsFrom(buf[..], off, rows) && Zero(buf[..], off + RULE_SIZE * |rows|)
  {
    hide Agree, Zero, RowEntry, RowIs, RowOk;
    ghost var a := buf[..];
    AgreeSelf(a, off, off + RULE_SIZE * |rows|);
    var i, entry := 0, off;
    while i < |rows|
      invariant 0 <= i <= |rows| && entry == off + RULE_SIZE * i && Agree(a, buf[..], off, off + RULE_SIZE * |rows|)
      invariant RowsFrom(buf[..], off, rows[..i]) && Zero(buf[..], entry) && AllWritable(rows[..i])
    {
      ghost var b := buf[..];
      SplitAt(rows, i);
      assert rows[i] in rows;
      var q := WriteRow(buf, entry, rows[i]);
      AgreeWider(b, buf[..], entry, entry + RULE_SIZE, off, off + RULE_SIZE * |rows|);
      AgreeChain(a, b, buf[..], off, off + RULE_SIZE * |rows|);
      if q.Err? {
        return q;
      }
      RowsFromKept(b, buf[..], entry, entry + RULE_SIZE, off, rows[..i]);
      OneRow(buf[..], entry, rows[i]);
      RowsFromAppend(buf[..], off, rows[..i], [rows[i]]);
      entry := entry + RULE_SIZE;
      i := i + 1;
    }
    assert rows[..i] == rows;
    r := Ok(());
  }

  lemma OneRow(b: seq<byte>, off: nat, row: Row)
    requires RowOk(row) && RowIs(b, off, row)
    ensures RowsOk([row]) && RowsFrom(b, off, [row])
  {
    hide RowIs, RowOk;
    assert off + RULE_SIZE * 0 == off;
  }

  /** The entry that ends the table: the error target, named twice. */
  method WriteError(buf: array<byte>, off: nat)
    requires off + ERR_SIZE <= buf.Length
    modifies buf
    ensures Agree(old(buf[..]), buf[..], off, off + ERR_SIZE) && ErrorIs(buf[..], off)
  {
    hide Agree, Get, ToLE;
    ghost var a := buf[..];
    StoreAt(buf, off + TARGET_OFFSET, ToLE(ENTRY_SIZE, 2));
    ghost var b := buf[..];
    StoreAt(buf, off + NEXT_OFFSET, ToLE(ERR_SIZE, 2));
    ghost var c := buf[..];
    StoredErrorOffsets(a, b, c, off);
    var t := off + ENTRY_SIZE;
    StoreAt(buf, t + TARGET_ERRORNAME, ERROR_NAME);
    ghost var d := buf[..];
    StoreAt(buf, t + TARGET_SIZE, ToLE(ERR_SIZE - ENTRY_SIZE, 2));
    ghost var e := buf[..];
    StoreAt(buf, t + TARGET_NAME, ERROR_NAME);
    StoredErrorTarget(c, d, e, buf[..], off);
    AgreeChain(a, c, buf[..], off, off + ERR_SIZE);
  }

  lemma StoredErrorOffsets(a: seq<byte>, b: seq<byte>, c: seq<byte>, off: nat)
    requires off + ERR_SIZE <= |a|
    requires Agree(a, b, off + TARGET_OFFSET, off + TARGET_OFFSET + 2) && Get(b, off + TARGET_OFFSET, 2) == ToLE(ENTRY_SIZE, 2)
    requires Agree(b, c, off + NEXT_OFFSET, off + NEXT_OFFSET + 2) && Get(c, off + NEXT_OFFSET, 2) == ToLE(ERR_SIZE, 2)
    ensures Agree(a, c, off, off + ERR_SIZE) && Get(c, off + TARGET_OFFSET, 2) == ToLE(ENTRY_SIZE, 2)
  {
    hide Get, ToLE;
    AgreeWider(a, b, off + TARGET_OFFSET, off + TARGET_OFFSET + 2, off, off + ERR_SIZE);
    AgreeWider(b, c, off + NEXT_OFFSET, off + NEXT_OFFSET + 2, off, off + ERR_SIZE);
    AgreeChain(a, b, c, off, off + ERR_SIZE);
  }

  lemma StoredErrorTarget(c: seq<byte>, d: seq<byte>, e: seq<byte>, f: seq<byte>, off: nat)
    requires off + ERR_SIZE <= |c|
    requires Get(c, off + TARGET_OFFSET, 2) == ToLE(ENTRY_SIZE, 2) && Get(c, off + NEXT_OFFSET, 2) == ToLE(ERR_SIZE, 2)
    requires Agree(c, d, off + ENTRY_SIZE + TARGET_ERRORNAME, off + ENTRY_SIZE + TARGET_ERRORNAME + 6)
    requires Get(d, off + ENTRY_SIZE + TARGET_ERRORNAME, 6) == ERROR_NAME
    requires Agree(d, e, off + ENTRY_SIZE + TARGET_SIZE, off + ENTRY_SIZE + TARGET_SIZE + 2)
    requires Get(e, off + ENTRY_SIZE + TARGET_SIZE, 2) == ToLE(ERR_SIZE - ENTRY_SIZE, 2)
    requires Agree(e, f, off + ENTRY_SIZE + TARGET_NAME, off + ENTRY_SIZE + TARGET_NAME + 6)
    requires Get(f, off + ENTRY_SIZE + TARGET_NAME, 6) == ERROR_NAME
    ensures Agree(c, f, off, off + ERR_SIZE) && ErrorIs(f, off)
  {
    hide Get, ToLE;
    assert Get(e, off + ENTRY_SIZE + TARGET_ERRORNAME, 6) == ERROR_NAME;
    assert Get(d, off + TARGET_OFFSET, 2) == Get(e, off + TARGET_OFFSET, 2) && Get(d, off + NEXT_OFFSET, 2) == Get(e, off + NEXT_OFFSET, 2);
    AgreeWider(c, d, off + ENTRY_SIZE + TARGET_ERRORNAME, off + ENTRY_SIZE + TARGET_ERRORNAME + 6, off, off + ERR_SIZE);
    AgreeWider(d, e, off + ENTRY_SIZE + TARGET_SIZE, off + ENTRY_SIZE + TARGET_SIZE + 2, off, off + ERR_SIZE);
    AgreeWider(e, f, off + ENTRY_SIZE + TARGET_NAME, off + ENTRY_SIZE + TARGET_NAME + 6, off, off + ERR_SIZE);
    AgreeChain(c, d, e, off, off + ERR_SIZE);
    AgreeChain(c, e, f, off, off + ERR_SIZE);
  }

  lemma RowsOkAt(rs: Ruleset, h: nat)
    requires h < |rs| && RowsOk(Rows(rs))
    ensures RowsOk(HookRows(rs[h])) && RowsOk(Rows(rs[..h])) && RowsOk(Rows(rs[..h + 1]))
    ensures |Rows(rs[..h + 1])| == |Rows(rs[..h])| + |HookRows(rs[h])| <= |Rows(rs)|
  {
    hide Rows, HookRows, RowOk;
    RowsAt(rs, h);
    var a, b, c := Rows(rs[..h]), HookRows(rs[h]), Rows(rs[h + 1..]);
    assert forall row :: row in a || row in b ==> row in a + b + c;
  }

  /**
   * The table of a ruleset: chains one after the other, the error entry last. It fails exactly when
   * a rule cannot be written.
   */
  method GenReplace(rs: Ruleset, nrules: nat) returns (r: Result<Replace>)
    requires |rs| == 5 && nrules == |Rows(rs)| && RowsOk(Rows(rs))
    ensures r.Ok? <==> AllWritable(Rows(rs))
    ensures r.Ok? ==> TableIs(r.value, rs)
  {
    hide Agree, Zero, RowEntry, RowIs, RowOk, Rows, ErrorIs, HooksAre, RowsFrom, AllWritable, RowsOk;
    var buf := new byte[nrules * RULE_SIZE + ERR_SIZE](_ => 0);
    var t := Replace([false, false, false, false, false], [0, 0, 0, 0, 0], [0, 0, 0, 0, 0], nrules + 1, nrules * RULE_SIZE + ERR_SIZE, []);
    var hook, off := 0, 0;
    ZeroStart(buf[..]);
    NoRows(rs, buf[..]);
    assert HooksAre(t, rs, 0) by {
      HooksNone(t, rs);
    }
    while hook < 5
      invariant 0 <= hook <= 5 && off == RULE_SIZE * |Rows(rs[..hook])| && HooksAre(t, rs, hook)
      invariant |t.valid| == |t.hookEntry| == |t.underflow| == 5 && forall h :: hook <= h < 5 ==> !t.valid[h]
      invariant t.numEntries == nrules + 1 && t.size == buf.Length
      invariant RowsOk(Rows(rs[..hook])) && RowsFrom(buf[..], 0, Rows(rs[..hook])) && AllWritable(Rows(rs[..hook])) && Zero(buf[..], off)
      invariant fresh(buf)
    {
      ghost var b := buf[..];
      RowsAt(rs, hook);
      RowsOkAt(rs, hook);
      if rs[hook].Some? {
        var chain := rs[hook].value;
        HooksMore(t, rs, hook);
        t := t.(valid := t.valid[hook := true], hookEntry := t.hookEntry[hook := off],
                underflow := t.underflow[hook := off + |chain.rules| * RULE_SIZE]);
        var rows := ChainRows(chain);
        var q := WriteRows(buf, off, rows);
        if q.Err? {
          NotWritable(rs, hook);
          return Err(q.errno);
        }
        RowsFromKept(b, buf[..], off, off + RULE_SIZE * |rows|, 0, Rows(rs[..hook]));
        RowsFromAppend(buf[..], 0, Rows(rs[..hook]), rows);
        WritableAppend(Rows(rs[..hook]), rows);
        off := off + |rows| * RULE_SIZE;
      } else {
        HooksSkip(t, rs, hook);
        assert Rows(rs[..hook]) + [] == Rows(rs[..hook]);
      }
      hook := hook + 1;
    }
    assert rs[..hook] == rs;
    ghost var b := buf[..];
    WriteError(buf, off);
    RowsFromKept(b, buf[..], off, off + ERR_SIZE, 0, Rows(rs));
    FromZero(buf[..], Rows(rs));
    HooksEntries(t, rs, buf[..]);
    r := Ok(t.(entries := buf[..]));
  }

  lemma WritableAppend(a: seq<Row>, b: seq<Row>)
    requires RowsOk(a) && RowsOk(b) && AllWritable(a) && AllWritable(b)
    ensures RowsOk(a + b) && AllWritable(a + b)
  {
    hide RowOk, RowEntry;
  }

  lemma HooksNone(t: Replace, rs: Ruleset)
    requires |rs| == 5 && |t.valid| == |t.hookEntry| == |t.underflow| == 5
    ensures HooksAre(t, rs, 0)
  {
  }

  lemma HooksEntries(t: Replace, rs: Ruleset, b: seq<byte>)
    requires |rs| == 5 && HooksAre(t, rs, 5)
    ensures HooksAre(t.(entries := b), rs, 5)
  {
  }

  lemma HooksSkip(t: Replace, rs: Ruleset, h: nat)
    requires h < |rs| == 5 && HooksAre(t, rs, h) && rs[h] == None && !t.valid[h]
    ensures HooksAre(t, rs, h + 1)
  {
    hide Rows;
  }

  lemma HooksMore(t: Replace, rs: Ruleset, h: nat)
    requires h < |rs| == 5 && HooksAre(t, rs, h) && rs[h].Some?
    ensures var off := RULE_SIZE * |Rows(rs[..h])|;
            HooksAre(t.(valid := t.valid[h := true], hookEntry := t.hookEntry[h := off],
                        underflow := t.underflow[h := off + |rs[h].value.rules| * RULE_SIZE]), rs, h + 1)
  {
    hide Rows;
  }

  lemma ZeroStart(b: seq<byte>)
    requires forall k :: 0 <= k < |b| ==> b[k] == 0
    ensures Zero(b, 0)
  {
  }

  lemma NoRows(rs: Ruleset, b: seq<byte>)
    ensures Rows(rs[..0]) == [] && RowsOk([]) && RowsFrom(b, 0, []) && AllWritable([])
  {
  }

  lemma NotWritable(rs: Ruleset, h: nat)
    requires h < |rs| && RowsOk(Rows(rs)) && RowsOk(HookRows(rs[h])) && !AllWritable(HookRows(rs[h]))
    ensures !AllWritable(Rows(rs))
  {
    hide Rows, HookRows, RowOk, RowEntry;
    RowsAt(rs, h);
    var row :| row in HookRows(rs[h]) && RowEntry(row).Err?;
    assert row in Rows(rs);
  }

  lemma FromZero(b: seq<byte>, rows: seq<Row>)
    requires RowsOk(rows) && RowsFrom(b, 0, rows)
    ensures RowsIn(b, rows)
  {
    hide RowIs, RowOk;
  }
}
