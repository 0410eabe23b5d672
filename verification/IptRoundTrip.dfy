/** From a table to chains and back: chains that came from a table are reproduced exactly. */
module IptRoundTrip {
  import opened Bytes
  import opened Model
  import opened Iptables
  import opened IptEntries
  import opened IptTable
  import opened IptGenerate

  // ----- reading a table -----

  /** Options of the chains the front-end creates: attach is set, and is the only one used. */
  const IPT_OPTS := HookOpts(8, 0, None, None, true)

  function RuleIndex(i: nat): (r: u32)
  {
    i % 0x1_0000_0000
  }

  /** Rules between two offsets. The source does not stop on an entry of size 0; it is an error here. */
  function ReadRules(b: seq<byte>, first: nat, last: nat, index: nat): (r: Result<seq<Rule>>)
    decreases last - first
  {
    if first >= last then Ok([])
    else
      var rule :- EntryRule(b, first, RuleIndex(index));
      var step := Num(b, first + NEXT_OFFSET, 2);
      if step == 0 then Err(OutOfBounds)
      else
        var rest :- ReadRules(b, first + step, last, index + 1);
        Ok([rule] + rest)
  }

  /** `_bf_ipt_entries_to_chain`: the last entry is the policy. */
  function EntriesChain(b: seq<byte>, hook: Hook, first: nat, last: nat): (r: Result<Chain>)
  {
    if last + ENTRY_SIZE > |b| then Err(OutOfBounds)
    else
      var policy :- TargetVerdict(b, last + Num(b, last + TARGET_OFFSET, 2));
      var rules :- ReadRules(b, first, last, 0);
      Ok(Chain(hook, IPT_OPTS, policy, [], rules))
  }

  predicate TableOk(t: Replace)
  {
    |t.valid| == |t.hookEntry| == |t.underflow| == 5
  }

  function HookChain(t: Replace, h: nat): (r: Result<Option<Chain>>)
    requires TableOk(t) && h < 5
  {
    if !t.valid[h] then Ok(None)
    else
      var c :- EntriesChain(t.entries, NF_HOOKS[h], t.hookEntry[h], t.underflow[h]);
      Ok(Some(c))
  }

  /** The chains of hooks `h` and after. */
  function Xlate(t: Replace, h: nat): (r: Result<Ruleset>)
    requires TableOk(t) && h <= 5
    ensures r.Ok? ==> |r.value| == 5 - h
    decreases 5 - h
  {
    if h == 5 then Ok([])
    else
      var c :- HookChain(t, h);
      var rest :- Xlate(t, h + 1);
      Ok([c] + rest)
  }

  /** The entries between two offsets, each as far from the one before as its bytes 90 and 91 say. */
  function Visited(b: seq<byte>, first: nat, last: nat): (offs: seq<nat>)
    decreases last - first
  {
    if first >= last then []
    else if first + 112 > |b| || Half(b, first + 90) == 0 then [first]
    else [first] + Visited(b, first + Half(b, first + 90), last)
  }

  /** Every entry between the offsets can be translated and is followed by another one. */
  predicate AllTranslatable(b: seq<byte>, offs: seq<nat>)
  {
    forall i :: 0 <= i < |offs| ==> Translatable(b, offs[i]) && Half(b, offs[i] + 90) != 0
  }

  /** `rules` are the rules of the entries at `offs`, numbered from `index` on. */
  predicate RulesAre(b: seq<byte>, offs: seq<nat>, rules: seq<Rule>, index: nat)
    requires AllTranslatable(b, offs)
  {
    |rules| == |offs| && forall i :: 0 <= i < |offs| ==> rules[i] == RuleAt(b, offs[i], (index + i) % 0x1_0000_0000)
  }

  lemma RulesAreMore(b: seq<byte>, off: nat, offs: seq<nat>, rules: seq<Rule>, index: nat)
    requires Translatable(b, off) && Half(b, off + 90) != 0 && AllTranslatable(b, offs) && RulesAre(b, offs, rules, index + 1)
    ensures AllTranslatable(b, [off] + offs)
    ensures RulesAre(b, [off] + offs, [RuleAt(b, off, index % 0x1_0000_0000)] + rules, index)
  {
    hide Standard, RuleAt;
    var all, rs := [off] + offs, [RuleAt(b, off, index % 0x1_0000_0000)] + rules;
    forall i | 0 <= i < |all| ensures Translatable(b, all[i]) && Half(b, all[i] + 90) != 0 && rs[i] == RuleAt(b, all[i], (index + i) % 0x1_0000_0000) {
      if i > 0 {
        assert rules[i - 1] == RuleAt(b, offs[i - 1], (index + 1 + (i - 1)) % 0x1_0000_0000);
      }
    }
  }

  lemma NotAll(b: seq<byte>, off: nat, offs: seq<nat>)
    requires !(Translatable(b, off) && Half(b, off + 90) != 0) || !AllTranslatable(b, offs)
    ensures !AllTranslatable(b, [off] + offs)
  {
    hide Standard;
    var all := [off] + offs;
    if AllTranslatable(b, all) {
      assert all[0] == off;
      forall i | 0 <= i < |offs| ensures Translatable(b, offs[i]) && Half(b, offs[i] + 90) != 0 {
        assert all[i + 1] == offs[i];
      }
    }
  }

  /** The rules of a chain are read exactly if every entry of it can be translated. */
  lemma {:induction false} ReadRulesIff(b: seq<byte>, first: nat, last: nat, index: nat)
    ensures ReadRules(b, first, last, index).Ok? <==> AllTranslatable(b, Visited(b, first, last))
    ensures ReadRules(b, first, last, index).Ok? ==> RulesAre(b, Visited(b, first, last), ReadRules(b, first, last, index).value, index)
    decreases last - first
  {
    hide EntryRule, Translatable, RuleAt, AllTranslatable, RulesAre, Num, Half;
    if first >= last {
      NoneVisited(b, index);
    } else {
      EntryRuleIff(b, first, RuleIndex(index));
      if !Translatable(b, first) {
        NotAll(b, first, Visited(b, first, last)[1..]);
        FirstVisited(b, first, last);
      } else {
        EntryInside(b, first, RuleIndex(index));
        HalfIs(b, first + 90);
        var step := Half(b, first + 90);
        if step == 0 {
          NotAll(b, first, []);
          assert [first] + [] == [first];
        } else {
          ReadRulesIff(b, first + step, last, index + 1);
          var offs := Visited(b, first + step, last);
          if AllTranslatable(b, offs) {
            RulesAreMore(b, first, offs, ReadRules(b, first + step, last, index + 1).value, index);
          } else {
            NotAll(b, first, offs);
          }
        }
      }
    }
  }

  lemma NoneVisited(b: seq<byte>, index: nat)
    ensures AllTranslatable(b, []) && RulesAre(b, [], [], index)
  {
  }

  lemma FirstVisited(b: seq<byte>, first: nat, last: nat)
    requires first < last
    ensures Visited(b, first, last) != [] && Visited(b, first, last) == [first] + Visited(b, first, last)[1..]
  {
    hide Half;
  }

  /** The hooks by their Netfilter numbers. */
  function HookNamed(h: nat): (r: Hook)
    requires h < 5
  {
    if h == 0 then NfPreRouting
    else if h == 1 then NfLocalIn
    else if h == 2 then NfForward
    else if h == 3 then NfLocalOut
    else NfPostRouting
  }

  /** The last entry of a chain has a standard target, its policy. */
  predicate PolicyIs(b: seq<byte>, last: nat, v: Verdict)
  {
    last + 112 <= |b| && Standard(b, last + Half(b, last + 88), v)
  }

  predicate HookOk(t: Replace, h: nat)
    requires TableOk(t) && h < 5
  {
    t.valid[h] ==>
      (PolicyIs(t.entries, t.underflow[h], Accept) || PolicyIs(t.entries, t.underflow[h], Drop))
      && AllTranslatable(t.entries, Visited(t.entries, t.hookEntry[h], t.underflow[h]))
  }

  /** The chain of a hook: attached, without sets, with the policy and rules of its entries. */
  predicate HookIs(t: Replace, h: nat, c: Option<Chain>)
    requires TableOk(t) && h < 5 && HookOk(t, h)
  {
    if !t.valid[h] then c == None
    else
      && c.Some? && c.value.hook == HookNamed(h) && c.value.opts == HookOpts(8, 0, None, None, true) && c.value.sets == []
      && PolicyIs(t.entries, t.underflow[h], c.value.policy)
      && RulesAre(t.entries, Visited(t.entries, t.hookEntry[h], t.underflow[h]), c.value.rules, 0)
  }

  lemma HookChainIff(t: Replace, h: nat)
    requires TableOk(t) && h < 5
    ensures HookChain(t, h).Ok? <==> HookOk(t, h)
    ensures HookChain(t, h).Ok? ==> HookIs(t, h, HookChain(t, h).value)
  {
    hide Num, Standard, TargetVerdict, ReadRules, Visited, AllTranslatable, RulesAre, Half;
    if t.valid[h] && t.underflow[h] + 112 <= |t.entries| {
      var b, last := t.entries, t.underflow[h];
      HalfIs(b, last + 88);
      StandardIff(b, last + Half(b, last + 88), Accept);
      StandardIff(b, last + Half(b, last + 88), Drop);
      ReadRulesIff(b, t.hookEntry[h], last, 0);
    }
  }

  lemma {:induction false} XlateIff(t: Replace, h: nat)
    requires TableOk(t) && h <= 5
    ensures Xlate(t, h).Ok? <==> forall k :: h <= k < 5 ==> HookOk(t, k)
    ensures Xlate(t, h).Ok? ==> forall k :: 0 <= k < 5 - h ==> HookOk(t, h + k) && HookIs(t, h + k, Xlate(t, h).value[k])
    decreases 5 - h
  {
    hide HookChain, HookOk, HookIs;
    if h < 5 {
      HookChainIff(t, h);
      XlateIff(t, h + 1);
      if Xlate(t, h).Ok? {
        var all, rest := Xlate(t, h).value, Xlate(t, h + 1).value;
        forall k | 0 <= k < 5 - h ensures HookOk(t, h + k) && HookIs(t, h + k, all[k]) {
          if k > 0 {
            assert all[k] == rest[k - 1];
            assert HookIs(t, (h + 1) + (k - 1), rest[k - 1]);
          }
        }
      }
    }
  }

  /** The table can be translated: the chain of each of its hooks can. */
  predicate TableTranslatable(t: Replace)
    requires TableOk(t)
  {
    forall h :: 0 <= h < 5 ==> HookOk(t, h)
  }

  predicate ChainsAre(t: Replace, rs: Ruleset)
    requires TableOk(t) && TableTranslatable(t)
  {
    |rs| == 5 && forall h :: 0 <= h < 5 ==> HookIs(t, h, rs[h])
  }

  /** A table is translated exactly if every entry visited is translatable, and then hook by hook. */
  lemma XlateWholeIff(t: Replace)
    requires TableOk(t)
    ensures Xlate(t, 0).Ok? <==> TableTranslatable(t)
    ensures Xlate(t, 0).Ok? ==> ChainsAre(t, Xlate(t, 0).value)
  {
    hide Xlate, HookOk, HookIs;
    XlateIff(t, 0);
    if Xlate(t, 0).Ok? {
      forall h | 0 <= h < 5 ensures HookIs(t, h, Xlate(t, 0).value[h]) {
        assert HookIs(t, 0 + h, Xlate(t, 0).value[h]);
      }
    }
  }

  method UnpackRules(b: seq<byte>, first: nat, last: nat) returns (r: Result<seq<Rule>>)
    ensures r == ReadRules(b, first, last, 0)
    ensures r.Ok? <==> AllTranslatable(b, Visited(b, first, last))
    ensures r.Ok? ==> RulesAre(b, Visited(b, first, last), r.value, 0)
  {
    hide EntryRule, AllTranslatable, RulesAre, Visited;
    ReadRulesIff(b, first, last, 0);
    var cur, rules: seq<Rule> := first, [];
    JoinedNone(ReadRules(b, first, last, 0));
    while cur < last
      invariant ReadRules(b, first, last, 0) == Joined(rules, ReadRules(b, cur, last, |rules|))
      decreases last - cur
    {
      var rule := EntryRule(b, cur, RuleIndex(|rules|));
      if rule.Err? {
        return Err(rule.errno);
      }
      EntryInside(b, cur, RuleIndex(|rules|));
      var step := Num(b, cur + NEXT_OFFSET, 2);
      if step == 0 {
        return Err(OutOfBounds);
      }
      JoinedMore(rules, rule.value, ReadRules(b, cur + step, last, |rules| + 1));
      rules := rules + [rule.value];
      cur := cur + step;
    }
    assert rules + [] == rules;
    r := Ok(rules);
  }

  function Joined(rules: seq<Rule>, r: Result<seq<Rule>>): (s: Result<seq<Rule>>)
  {
    match r case Ok(rest) => Ok(rules + rest) case Err(e) => Err(e)
  }

  lemma JoinedNone(r: Result<seq<Rule>>)
    ensures Joined([], r) == r
  {
    if r.Ok? {
      assert [] + r.value == r.value;
    }
  }

  lemma JoinedMore(rules: seq<Rule>, rule: Rule, r: Result<seq<Rule>>)
    ensures Joined(rules, Joined([rule], r)) == Joined(rules + [rule], r)
  {
    if r.Ok? {
      assert rules + ([rule] + r.value) == rules + [rule] + r.value;
    }
  }

  lemma EntryInside(b: seq<byte>, off: nat, i: u32)
    requires EntryRule(b, off, i).Ok?
    ensures off + ENTRY_SIZE <= |b|
  {
  }

  // ----- chains that came from a table -----

  ghost predicate RuleFromTable(r: Rule, i: nat)
  {
    r.index == RuleIndex(i) && r.counters && Terminal(r.verdict) && FromEntry(r.matchers)
  }

  ghost predicate RulesFromTable(rules: seq<Rule>, index: nat)
  {
    forall i :: 0 <= i < |rules| ==> RuleFromTable(rules[i], index + i)
  }

  ghost predicate ChainFromTable(c: Chain, h: Hook)
  {
    c.hook == h && Terminal(c.policy) && c.sets == [] && RulesFromTable(c.rules, 0)
  }

  ghost predicate FromTable(rs: Ruleset)
  {
    |rs| == 5 && forall h :: 0 <= h < 5 && rs[h].Some? ==> ChainFromTable(rs[h].value, NF_HOOKS[h])
  }

  lemma EntryFromTable(b: seq<byte>, off: nat, i: nat)
    requires EntryRule(b, off, RuleIndex(i)).Ok?
    ensures RuleFromTable(EntryRule(b, off, RuleIndex(i)).value, i)
  {
    hide FieldsMatchers, TargetVerdict;
    assert FieldsOk(FieldsAt(b, off));
  }

  lemma {:induction false} ReadFromTable(b: seq<byte>, first: nat, last: nat, index: nat)
    requires ReadRules(b, first, last, index).Ok?
    ensures RulesFromTable(ReadRules(b, first, last, index).value, index)
    decreases last - first
  {
    hide EntryRule, RuleFromTable;
    if first < last {
      EntryFromTable(b, first, index);
      EntryInside(b, first, RuleIndex(index));
      var step := Num(b, first + NEXT_OFFSET, 2);
      ReadFromTable(b, first + step, last, index + 1);
      var rules, rest := ReadRules(b, first, last, index).value, ReadRules(b, first + step, last, index + 1).value;
      forall i | 0 <= i < |rules| ensures RuleFromTable(rules[i], index + i) {
        if i > 0 {
          assert rules[i] == rest[i - 1];
          assert RuleFromTable(rest[i - 1], (index + 1) + (i - 1));
        }
      }
    }
  }

  ghost predicate HookFromTable(c: Option<Chain>, h: nat)
    requires h < 5
  {
    c.Some? ==> ChainFromTable(c.value, NF_HOOKS[h]) && c.value.opts == IPT_OPTS
  }

  lemma HookChainFromTable(t: Replace, h: nat)
    requires TableOk(t) && h < 5 && HookChain(t, h).Ok?
    ensures HookFromTable(HookChain(t, h).value, h)
  {
    hide ReadRules, TargetVerdict, RulesFromTable;
    if t.valid[h] {
      ReadFromTable(t.entries, t.hookEntry[h], t.underflow[h], 0);
    }
  }

  lemma {:induction false} XlateFromTable(t: Replace, h: nat)
    requires TableOk(t) && h <= 5 && Xlate(t, h).Ok?
    ensures forall k :: 0 <= k < 5 - h ==> HookFromTable(Xlate(t, h).value[k], h + k)
    decreases 5 - h
  {
    hide HookChain, HookFromTable;
    if h < 5 {
      HookChainFromTable(t, h);
      XlateFromTable(t, h + 1);
      var all, rest := Xlate(t, h).value, Xlate(t, h + 1).value;
      forall k | 0 <= k < 5 - h ensures HookFromTable(all[k], h + k) {
        if k > 0 {
          assert all[k] == rest[k - 1];
          assert HookFromTable(rest[k - 1], (h + 1) + (k - 1));
        }
      }
    }
  }

  // ----- back -----

  /** A rule that came from a table is read back from the entry it is written to. */
  lemma RuleBack(b: seq<byte>, off: nat, r: Rule, i: nat)
    requires RuleFromTable(r, i) && RowOk(RuleRow(r)) && RowIs(b, off, RuleRow(r))
    ensures EntryRule(b, off, RuleIndex(i)) == Ok(r)
    ensures off + RULE_SIZE <= |b| && Num(b, off + NEXT_OFFSET, 2) == RULE_SIZE
  {
    hide EntryIs, EntryRule, FieldsMatchers, PutAll, Num, Kept;
    var f: Fields :| FieldsOk(f) && FieldsMatchers(f) == Ok(r.matchers);
    PutBack(f, r.matchers);
    KeptMatchers(f);
    EntrySize(b, off, Kept(f), r.verdict);
    EntryBack(b, off, Kept(f), r.verdict, RuleIndex(i));
  }

  lemma EntrySize(b: seq<byte>, off: nat, f: Fields, v: Verdict)
    requires EntryIs(b, off, f, v)
    ensures off + RULE_SIZE <= |b|
  {
  }

  lemma {:induction false} RulesBack(b: seq<byte>, off: nat, c: Chain, i: nat)
    requires i <= |c.rules| && RulesFromTable(c.rules, 0) && RowsOk(ChainRows(c)) && RowsFrom(b, off, ChainRows(c))
    ensures ReadRules(b, off + RULE_SIZE * i, off + RULE_SIZE * |c.rules|, i) == Ok(c.rules[i..])
    decreases |c.rules| - i
  {
    hide EntryRule, RowIs, RuleFromTable, RowOk, Num;
    if i < |c.rules| {
      var rows := ChainRows(c);
      assert rows[i] == RuleRow(c.rules[i]) && rows[i] in rows;
      assert RowIs(b, off + RULE_SIZE * i, rows[i]);
      assert RuleFromTable(c.rules[i], 0 + i);
      RuleBack(b, off + RULE_SIZE * i, c.rules[i], i);
      RulesBack(b, off, c, i + 1);
      assert c.rules[i..] == [c.rules[i]] + c.rules[i + 1..];
    } else {
      assert c.rules[i..] == [];
    }
  }

  lemma ChainBack(b: seq<byte>, off: nat, c: Chain, h: Hook)
    requires ChainFromTable(c, h) && RowsOk(ChainRows(c)) && RowsFrom(b, off, ChainRows(c))
    ensures EntriesChain(b, h, off, off + RULE_SIZE * |c.rules|) == Ok(c.(opts := IPT_OPTS))
  {
    hide EntryRule, RulesFromTable, RowOk, ReadRules, EntryIs;
    var rows, last := ChainRows(c), off + RULE_SIZE * |c.rules|;
    RulesBack(b, off, c, 0);
    assert c.rules[0..] == c.rules;
    assert rows[|c.rules|] in rows && RowIs(b, off + RULE_SIZE * |c.rules|, rows[|c.rules|]);
    EntrySize(b, last, NO_FIELDS, c.policy);
    EntryBack(b, last, NO_FIELDS, c.policy, 0);
  }

  /** The rows of one hook's chain, where its table says they are. */
  lemma RowsOfHook(b: seq<byte>, rs: Ruleset, h: nat)
    requires h < |rs| && rs[h].Some? && RowsOk(Rows(rs)) && RowsIn(b, Rows(rs))
    ensures RowsOk(ChainRows(rs[h].value)) && RowsFrom(b, RULE_SIZE * |Rows(rs[..h])|, ChainRows(rs[h].value))
  {
    hide Rows, RowIs, RowOk, ChainRows;
    RowsAt(rs, h);
    RowsOkAt(rs, h);
    var all, rows, n := Rows(rs), ChainRows(rs[h].value), |Rows(rs[..h])|;
    forall k | 0 <= k < |rows| ensures rows[k] in rows && RowIs(b, RULE_SIZE * n + RULE_SIZE * k, rows[k]) {
      assert all[n + k] == rows[k];
      assert RowIs(b, RULE_SIZE * (n + k), all[n + k]);
    }
  }

  function Relabel(rs: Ruleset): (r: Ruleset)
    ensures |r| == |rs|
    ensures forall h :: 0 <= h < |rs| ==> r[h] == match rs[h] case Some(c) => Some(c.(opts := IPT_OPTS)) case None => None
  {
    if rs == [] then []
    else [match rs[0] case Some(c) => Some(c.(opts := IPT_OPTS)) case None => None] + Relabel(rs[1..])
  }

  lemma HookBack(t: Replace, rs: Ruleset, h: nat)
    requires h < 5 && FromTable(rs) && RowsOk(Rows(rs)) && TableIs(t, rs)
    ensures TableOk(t) && HookChain(t, h) == Ok(Relabel(rs)[h])
  {
    hide Rows, EntriesChain, ChainFromTable, RowsIn, ErrorIs, RowOk, RowsOk, Relabel, RowsFrom, ChainRows;
    if rs[h].Some? {
      RowsOfHook(t.entries, rs, h);
      ChainBack(t.entries, t.hookEntry[h], rs[h].value, NF_HOOKS[h]);
    }
  }

  /** Translating a generated table gives back the chains it was generated from. */
  lemma {:induction false} XlateBack(t: Replace, rs: Ruleset, h: nat)
    requires h <= 5 && FromTable(rs) && RowsOk(Rows(rs)) && TableIs(t, rs)
    ensures TableOk(t) && Xlate(t, h) == Ok(Relabel(rs)[h..])
    decreases 5 - h
  {
    hide Rows, HookChain, ChainFromTable, RowsIn, ErrorIs, RowOk, Relabel;
    if h < 5 {
      XlateBack(t, rs, h + 1);
      HookBack(t, rs, h);
      SplitTail(Relabel(rs), h);
    } else {
      assert Relabel(rs)[h..] == [];
    }
  }

  lemma SplitTail<T>(s: seq<T>, h: nat)
    requires h < |s|
    ensures s[h..] == [s[h]] + s[h + 1..]
  {
  }

  /** Everything that came from a table can be written to one. */
  lemma FromTableWritable(rs: Ruleset)
    requires FromTable(rs)
    ensures RowsOk(Rows(rs)) && AllWritable(Rows(rs))
  {
    hide ChainFromTable;
    RowsFromTable(rs);
  }

  lemma {:induction false} RowsFromTable(rs: Ruleset)
    requires forall h :: 0 <= h < |rs| && rs[h].Some? ==> exists k :: ChainFromTable(rs[h].value, k)
    ensures RowsOk(Rows(rs)) && AllWritable(Rows(rs))
  {
    hide ChainFromTable, RowOk, RowEntry;
    if rs != [] {
      RowsFromTable(rs[1..]);
      if rs[0].Some? {
        var k :| ChainFromTable(rs[0].value, k);
        ChainWritable(rs[0].value, k);
        WritableAppend(ChainRows(rs[0].value), Rows(rs[1..]));
      } else {
        WritableAppend([], Rows(rs[1..]));
      }
    }
  }

  lemma ChainWritable(c: Chain, h: Hook)
    requires ChainFromTable(c, h)
    ensures RowsOk(ChainRows(c)) && AllWritable(ChainRows(c))
  {
    hide FieldsMatchers, PutAll, IptPayloadOk;
    var rows := ChainRows(c);
    forall k | 0 <= k < |rows| ensures RowOk(rows[k]) && RowEntry(rows[k]).Ok? {
      if k < |c.rules| {
        assert RuleFromTable(c.rules[k], 0 + k);
        var f: Fields :| FieldsOk(f) && FieldsMatchers(f) == Ok(c.rules[k].matchers);
        PutBack(f, c.rules[k].matchers);
      }
    }
  }

  // ----- the ruleset iptables asks for -----

  function DummyChain(h: nat): (c: Chain)
    requires h < 5
  {
    Chain(NF_HOOKS[h], HookOpts(0, 0, None, None, false), Accept, [], [])
  }

  /** INPUT, FORWARD and OUTPUT always exist for iptables. */
  function Mandatory(c: Option<Chain>, h: nat): (r: Option<Chain>)
    requires h < 5
  {
    if c == None && 1 <= h <= 3 then Some(DummyChain(h)) else c
  }

  lemma RowsPut(rs: Ruleset, h: nat, c: Chain)
    requires h < |rs| && rs[h] == None
    ensures |Rows(rs[h := Some(c)])| == |Rows(rs)| + |c.rules| + 1
  {
    hide Rows;
    var ss := rs[h := Some(c)];
    RowsAt(rs, h);
    RowsAt(ss, h);
    assert ss[..h] == rs[..h] && ss[h + 1..] == rs[h + 1..];
  }

  predicate NfChains(chains: seq<Chain>)
  {
    && (forall i :: 0 <= i < |chains| ==> chains[i].hook in NF_HOOKS)
    && (forall i, j :: 0 <= i < j < |chains| ==> chains[i].hook != chains[j].hook)
  }

  /** The chain of hook `h` among `chains`. */
  function ChainOf(chains: seq<Chain>, h: nat): (r: Option<Chain>)
    requires h < 5
  {
    if chains == [] then None
    else if chains[|chains| - 1].hook == NF_HOOKS[h] then Some(chains[|chains| - 1])
    else ChainOf(chains[..|chains| - 1], h)
  }

  lemma {:induction false} ChainOfNone(chains: seq<Chain>, h: nat)
    requires h < 5 && forall i :: 0 <= i < |chains| ==> chains[i].hook != NF_HOOKS[h]
    ensures ChainOf(chains, h) == None
  {
    if chains != [] {
      ChainOfNone(chains[..|chains| - 1], h);
    }
  }

  lemma ChainOfNext(chains: seq<Chain>, k: nat, h: nat)
    requires k < |chains| && h < 5
    ensures ChainOf(chains[..k + 1], h) == if chains[k].hook == NF_HOOKS[h] then Some(chains[k]) else ChainOf(chains[..k], h)
  {
    assert chains[..k + 1][..k] == chains[..k];
  }

  /** Every hook has its chain, or the one that iptables wants there. */
  predicate RulesetOf(rs: Ruleset, chains: seq<Chain>)
  {
    |rs| == 5 && forall h :: 0 <= h < 5 ==> rs[h] == Mandatory(ChainOf(chains, h), h)
  }

  /** The place of a hook: its chain if it has one, else an empty accepting one if there must be one. */
  predicate Wanted(chains: seq<Chain>, hook: Hook, must: bool, x: Option<Chain>)
  {
    if exists c :: c in chains && c.hook == hook then x.Some? && x.value in chains && x.value.hook == hook
    else if must then x.Some? && x.value.hook == hook && x.value.policy == Accept && x.value.rules == [] && x.value.sets == []
    else x == None
  }

  lemma {:induction false} ChainOfIs(chains: seq<Chain>, h: nat)
    requires h < 5
    ensures Wanted(chains, HookNamed(h), false, ChainOf(chains, h))
  {
    if chains != [] {
      var n := |chains| - 1;
      assert chains == chains[..n] + [chains[n]];
      ChainOfIs(chains[..n], h);
    }
  }

  lemma RulesetWanted(rs: Ruleset, chains: seq<Chain>)
    requires RulesetOf(rs, chains)
    ensures Wanted(chains, NfPreRouting, false, rs[0]) && Wanted(chains, NfPostRouting, false, rs[4])
    ensures Wanted(chains, NfLocalIn, true, rs[1]) && Wanted(chains, NfForward, true, rs[2]) && Wanted(chains, NfLocalOut, true, rs[3])
  {
    hide ChainOf;
    ChainOfIs(chains, 0);
    ChainOfIs(chains, 1);
    ChainOfIs(chains, 2);
    ChainOfIs(chains, 3);
    ChainOfIs(chains, 4);
  }

  /** The number of rules, policies included, is the number of rows of the table. */
  method GetRuleset(chains: seq<Chain>) returns (rs: Ruleset, nrules: nat)
    requires NfChains(chains)
    ensures RulesetOf(rs, chains) && nrules == |Rows(rs)|
    ensures Wanted(chains, NfPreRouting, false, rs[0]) && Wanted(chains, NfPostRouting, false, rs[4])
    ensures Wanted(chains, NfLocalIn, true, rs[1]) && Wanted(chains, NfForward, true, rs[2]) && Wanted(chains, NfLocalOut, true, rs[3])
  {
    hide Rows, ChainOf, Wanted;
    rs, nrules := [None, None, None, None, None], 0;
    NoChains(rs);
    assert chains[..0] == [];
    var k := 0;
    while k < |chains|
      invariant 0 <= k <= |chains| && |rs| == 5 && nrules == |Rows(rs)|
      invariant forall h :: 0 <= h < 5 ==> rs[h] == ChainOf(chains[..k], h)
    {
      var c := chains[k];
      var i := NfIndex(c.hook);
      ChainOfNone(chains[..k], i);
      RowsPut(rs, i, c);
      rs := rs[i := Some(c)];
      nrules := nrules + |c.rules| + 1;
      forall h | 0 <= h < 5 ensures rs[h] == ChainOf(chains[..k + 1], h) {
        ChainOfNext(chains, k, h);
        HooksDiffer(h, i);
      }
      k := k + 1;
    }
    assert chains[..k] == chains;
    var hook := 1;
    while hook <= 3
      invariant 1 <= hook <= 4 && |rs| == 5 && nrules == |Rows(rs)|
      invariant forall h :: 0 <= h < 5 ==> rs[h] == if h < hook then Mandatory(ChainOf(chains, h), h) else ChainOf(chains, h)
    {
      if rs[hook] == None {
        RowsPut(rs, hook, DummyChain(hook));
        rs := rs[hook := Some(DummyChain(hook))];
        nrules := nrules + 1;
      }
      hook := hook + 1;
    }
    RulesetWanted(rs, chains);
  }

  lemma HooksDiffer(h: nat, i: nat)
    requires h < 5 && i < 5
    ensures NF_HOOKS[h] == NF_HOOKS[i] <==> h == i
  {
  }

  lemma NoChains(rs: Ruleset)
    requires |rs| == 5 && forall h :: 0 <= h < 5 ==> rs[h] == None
    ensures Rows(rs) == [] && forall h :: 0 <= h < 5 ==> ChainOf([], h) == None
  {
    RowsNone(rs);
  }

  lemma {:induction false} RowsNone(rs: Ruleset)
    requires forall h :: 0 <= h < |rs| ==> rs[h] == None
    ensures Rows(rs) == []
  {
    if rs != [] {
      RowsNone(rs[1..]);
    }
  }

  // ----- tiling -----

  /** Offsets of the entries, following their sizes. */
  function Offsets(b: seq<byte>, off: nat): (r: seq<nat>)
    decreases |b| - off
  {
    if off + ENTRY_SIZE > |b| then []
    else
      var step := Num(b, off + NEXT_OFFSET, 2);
      [off] + if step == 0 then [] else Offsets(b, off + step)
  }

  lemma ErrorStep(b: seq<byte>, off: nat)
    requires ErrorIs(b, off)
    ensures Num(b, off + NEXT_OFFSET, 2) == ERR_SIZE
  {
    assert Pow256(2) == 0x1_0000;
    LEOfToLE(ERR_SIZE, 2);
  }

  lemma RowStep(b: seq<byte>, off: nat, row: Row)
    requires RowOk(row) && RowIs(b, off, row)
    ensures off + RULE_SIZE <= |b| && Num(b, off + NEXT_OFFSET, 2) == RULE_SIZE
  {
    hide EntryIs, RowEntry, Num;
    var e := RowEntry(row).value;
    EntrySize(b, off, e.0, e.1);
    EntryBack(b, off, e.0, e.1, 0);
  }

  lemma OffsetsEnd(b: seq<byte>, off: nat)
    requires ErrorIs(b, off) && |b| == off + ERR_SIZE
    ensures Offsets(b, off) == [off]
  {
    hide ErrorIs, Num;
    ErrorStep(b, off);
    assert Offsets(b, off + ERR_SIZE) == [];
  }

  lemma OffsetsNext(b: seq<byte>, off: nat, row: Row)
    requires RowOk(row) && RowIs(b, off, row)
    ensures Offsets(b, off) == [off] + Offsets(b, off + RULE_SIZE)
  {
    hide RowIs, RowOk, Num;
    RowStep(b, off, row);
  }

  lemma OffsetsMore(p: seq<nat>, k: nat, n: nat)
    requires k < n && |p| == n - k && forall i :: 0 <= i <= n - k - 1 ==> p[i] == RULE_SIZE * (k + 1 + i)
    ensures forall i :: 0 <= i <= n - k ==> ([RULE_SIZE * k] + p)[i] == RULE_SIZE * (k + i)
  {
    forall i | 0 <= i <= n - k ensures ([RULE_SIZE * k] + p)[i] == RULE_SIZE * (k + i) {
      if i > 0 {
        assert ([RULE_SIZE * k] + p)[i] == p[i - 1] == RULE_SIZE * (k + 1 + (i - 1));
      }
    }
  }

  /** The entries tile the table: they start at the multiples of the rule size, and the error entry ends it. */
  lemma {:induction false} Tiles(t: Replace, rs: Ruleset, k: nat)
    requires |rs| == 5 && RowsOk(Rows(rs)) && TableIs(t, rs) && k <= |Rows(rs)|
    ensures |Offsets(t.entries, RULE_SIZE * k)| == |Rows(rs)| + 1 - k
    ensures forall i :: 0 <= i <= |Rows(rs)| - k ==> Offsets(t.entries, RULE_SIZE * k)[i] == RULE_SIZE * (k + i)
    ensures RULE_SIZE * |Rows(rs)| + ERR_SIZE == t.size
    decreases |Rows(rs)| - k
  {
    hide Rows, RowIs, ErrorIs, HooksAre, RowOk, Num, Offsets;
    var b, n := t.entries, |Rows(rs)|;
    if k == n {
      OffsetsEnd(b, RULE_SIZE * n);
    } else {
      assert RowIs(b, RULE_SIZE * k, Rows(rs)[k]);
      OffsetsNext(b, RULE_SIZE * k, Rows(rs)[k]);
      Tiles(t, rs, k + 1);
      assert RULE_SIZE * (k + 1) == RULE_SIZE * k + RULE_SIZE;
      OffsetsMore(Offsets(b, RULE_SIZE * (k + 1)), k, n);
    }
  }

  // ----- the bytes of a generated table -----

  lemma Two(n: u16)
    ensures ToLE(n, 2) == [n % 0x100, n / 0x100]
  {
    assert ToLE(n / 0x100, 1) == [n / 0x100] + ToLE(0, 0);
  }

  /** Entry `k`: sizes and offsets. */
  lemma RowBytes(t: Replace, rs: Ruleset, k: nat)
    requires |rs| == 5 && RowsOk(Rows(rs)) && TableIs(t, rs) && k < |Rows(rs)|
    ensures var b, o := t.entries, 152 * k;
            o + 152 <= |b| && b[o + 88..o + 90] == [112, 0] && b[o + 90..o + 92] == [152, 0] && b[o + 112..o + 114] == [40, 0]
  {
    hide Rows, RowOk, ToLE, HasFields, ErrorIs, HooksAre, RowEntry;
    assert RowIs(t.entries, RULE_SIZE * k, Rows(rs)[k]);
    Two(112);
    Two(152);
    Two(40);
  }

  /** The entry that ends the table: sizes, offsets and "ERROR" twice. */
  lemma ErrorBytes(t: Replace, rs: Ruleset)
    requires |rs| == 5 && RowsOk(Rows(rs)) && TableIs(t, rs)
    ensures var b, o := t.entries, 152 * |Rows(rs)|;
            && t.size == |b| == o + 176 && t.numEntries == |Rows(rs)| + 1
            && b[o + 88..o + 90] == [112, 0] && b[o + 90..o + 92] == [176, 0] && b[o + 112..o + 114] == [64, 0]
            && b[o + 114..o + 120] == [69, 82, 82, 79, 82, 0] && b[o + 144..o + 150] == [69, 82, 82, 79, 82, 0]
  {
    hide Rows, RowOk, ToLE, RowsIn, HooksAre;
    Two(112);
    Two(176);
    Two(64);
  }

  // ----- round trip -----

  method XlateTable(t: Replace) returns (r: Result<Ruleset>)
    requires TableOk(t)
    ensures r == Xlate(t, 0)
    ensures r.Ok? <==> TableTranslatable(t)
    ensures r.Ok? ==> ChainsAre(t, r.value)
  {
    hide ReadRules, TargetVerdict, TableTranslatable, ChainsAre, AllTranslatable, Visited, RulesAre;
    XlateWholeIff(t);
    var rs: Ruleset := [];
    var h := 0;
    PrefixNone(Xlate(t, 0));
    while h < 5
      invariant 0 <= h <= 5 && Xlate(t, 0) == Prefixed(rs, Xlate(t, h))
    {
      if !t.valid[h] {
        PrefixMore(rs, None, Xlate(t, h + 1));
        rs := rs + [None];
      } else {
        var last := t.underflow[h];
        if last + ENTRY_SIZE > |t.entries| {
          return Err(OutOfBounds);
        }
        var policy := TargetVerdict(t.entries, last + Num(t.entries, last + TARGET_OFFSET, 2));
        if policy.Err? {
          return Err(policy.errno);
        }
        var rules := UnpackRules(t.entries, t.hookEntry[h], last);
        if rules.Err? {
          return Err(rules.errno);
        }
        var c := Chain(NF_HOOKS[h], IPT_OPTS, policy.value, [], rules.value);
        PrefixMore(rs, Some(c), Xlate(t, h + 1));
        rs := rs + [Some(c)];
      }
      h := h + 1;
    }
    assert rs + [] == rs;
    r := Ok(rs);
  }

  function Prefixed(rs: Ruleset, r: Result<Ruleset>): (s: Result<Ruleset>)
  {
    match r case Ok(rest) => Ok(rs + rest) case Err(e) => Err(e)
  }

  lemma PrefixNone(r: Result<Ruleset>)
    ensures Prefixed([], r) == r
  {
    if r.Ok? {
      assert [] + r.value == r.value;
    }
  }

  lemma PrefixMore(rs: Ruleset, c: Option<Chain>, r: Result<Ruleset>)
    ensures Prefixed(rs, Prefixed([c], r)) == Prefixed(rs + [c], r)
  {
    if r.Ok? {
      assert rs + ([c] + r.value) == rs + [c] + r.value;
    }
  }

  /** The chains that a ruleset defines. */
  method Collect(rs: Ruleset) returns (chains: seq<Chain>)
    requires |rs| == 5 && forall h :: 0 <= h < 5 ==> HookFromTable(rs[h], h)
    ensures NfChains(chains) && forall h :: 0 <= h < 5 ==> ChainOf(chains, h) == rs[h]
  {
    hide ChainOf, RulesFromTable;
    chains := [];
    var k := 0;
    NoneYet();
    while k < 5
      invariant 0 <= k <= 5 && NfChains(chains)
      invariant forall i :: 0 <= i < |chains| ==> NfIndex(chains[i].hook) < k
      invariant forall h :: 0 <= h < 5 ==> ChainOf(chains, h) == if h < k then rs[h] else None
    {
      if rs[k].Some? {
        var c := rs[k].value;
        assert HookFromTable(rs[k], k);
        forall h | 0 <= h < 5 ensures ChainOf(chains + [c], h) == if h == k then Some(c) else ChainOf(chains, h) {
          ChainOfNext(chains + [c], |chains|, h);
          assert (chains + [c])[..|chains| + 1] == chains + [c] && (chains + [c])[..|chains|] == chains;
          HooksDiffer(h, k);
        }
        HookAt(k);
        chains := chains + [c];
      }
      k := k + 1;
    }
  }

  lemma HookAt(k: nat)
    requires k < 5
    ensures NF_HOOKS[k] in NF_HOOKS && NfIndex(NF_HOOKS[k]) == k
  {
    HooksDiffer(k, NfIndex(NF_HOOKS[k]));
  }

  lemma NoneYet()
    ensures forall h :: 0 <= h < 5 ==> ChainOf([], h) == None
  {
  }

  /** What comes back for a hook: its chain, or an empty accepting one where iptables wants a chain. */
  function Expected(c: Option<Chain>, h: nat): (r: Option<Chain>)
    requires h < 5
  {
    if c.Some? then c
    else if HookNamed(h) in {NfLocalIn, NfForward, NfLocalOut} then Some(Chain(HookNamed(h), HookOpts(8, 0, None, None, true), Accept, [], []))
    else None
  }

  /**
   * A table is translated, the chains are kept, a table is generated from them on demand and
   * translated again: every chain is reproduced exactly.
   */
  method Reproduce(t: Replace) returns (r: Result<Ruleset>)
    requires TableOk(t)
    ensures match Xlate(t, 0)
            case Err(e) => r == Err(e)
            case Ok(rs) => r.Ok? && |r.value| == 5 && forall h :: 0 <= h < 5 ==> r.value[h] == Expected(rs[h], h)
  {
    hide Xlate, Rows, ChainOf, RowOk, AllWritable, TableIs, HookFromTable;
    var first :- XlateTable(t);
    XlateFromTable(t, 0);
    assert forall h :: 0 <= h < 5 ==> HookFromTable(first[h], 0 + h);
    var chains := Collect(first);
    var rs, n := GetRuleset(chains);
    RulesetFromTable(first, rs);
    FromTableWritable(rs);
    var t2 := GenReplace(rs, n);
    XlateBack(t2.value, rs, 0);
    Relabeled(first, rs);
    r := XlateTable(t2.value);
    assert Relabel(rs)[0..] == Relabel(rs);
  }

  lemma RulesetFromTable(first: Ruleset, rs: Ruleset)
    requires |first| == |rs| == 5 && forall h :: 0 <= h < 5 ==> HookFromTable(first[h], h) && rs[h] == Mandatory(first[h], h)
    ensures FromTable(rs)
  {
    hide RuleFromTable;
    forall h | 0 <= h < 5 && rs[h].Some? ensures ChainFromTable(rs[h].value, NF_HOOKS[h]) {
      assert HookFromTable(first[h], h);
    }
  }

  lemma {:induction false} Relabeled(first: Ruleset, rs: Ruleset)
    requires |first| == |rs| == 5 && forall h :: 0 <= h < 5 ==> HookFromTable(first[h], h) && rs[h] == Mandatory(first[h], h)
    ensures forall h :: 0 <= h < 5 ==> Relabel(rs)[h] == Expected(first[h], h)
  {
    hide ChainFromTable, Relabel;
    forall h | 0 <= h < 5 ensures Relabel(rs)[h] == Expected(first[h], h) {
      assert HookFromTable(first[h], h);
    }
  }
}
