/** The table of log messages shared by the generated programs. */
module Printer {
  import opened Bytes
  import opened Marsh

  /** A message, its place in the assembled string, and its length with the NUL. */
  datatype Msg = Msg(offset: nat, len: nat, str: seq<byte>)

  /** The bytes of a message. */
  function Text(m: Msg): (b: seq<byte>)
  {
    m.str + [0]
  }

  function Texts(msgs: seq<Msg>): (b: seq<byte>)
  {
    if msgs == [] then [] else Texts(msgs[..|msgs| - 1]) + Text(msgs[|msgs| - 1])
  }

  /** Offsets are the sums of the lengths before; lengths are right. */
  predicate Laid(msgs: seq<Msg>)
  {
    forall i :: 0 <= i < |msgs| ==> msgs[i].offset == |Texts(msgs[..i])| && msgs[i].len == |Text(msgs[i])|
  }

  predicate DistinctStrs(msgs: seq<Msg>)
  {
    forall i, j :: 0 <= i < j < |msgs| ==> msgs[i].str != msgs[j].str
  }

  /** `m` selects its string and the NUL after it in `buf`. */
  predicate Selects(buf: seq<byte>, m: Msg)
  {
    m.offset + m.len <= |buf| && buf[m.offset..m.offset + m.len] == m.str + [0]
  }

  lemma {:induction false} TextsPrefix(msgs: seq<Msg>, i: nat)
    requires i <= |msgs|
    ensures Texts(msgs[..i]) <= Texts(msgs)
    decreases |msgs|
  {
    if i < |msgs| {
      var n := |msgs| - 1;
      TextsPrefix(msgs[..n], i);
      assert msgs[..n][..i] == msgs[..i];
    } else {
      assert msgs[..i] == msgs;
    }
  }

  lemma TextsNext(msgs: seq<Msg>, i: nat)
    requires i < |msgs|
    ensures Texts(msgs[..i + 1]) == Texts(msgs[..i]) + Text(msgs[i])
  {
    assert msgs[..i + 1][..i] == msgs[..i];
  }

  lemma MiddleOf(a: seq<byte>, t: seq<byte>, all: seq<byte>)
    requires a + t <= all
    ensures |a| + |t| <= |all| && all[|a|..|a| + |t|] == t
  {
    var n := |a| + |t|;
    assert |a + t| == n;
    forall j | 0 <= j < |t| ensures all[|a|..n][j] == t[j] {
      assert all[|a| + j] == (a + t)[|a| + j];
    }
  }

  /** Every message is where its offset says, in the concatenation. */
  lemma LaidSelects(msgs: seq<Msg>, i: nat)
    requires Laid(msgs) && i < |msgs|
    ensures Selects(Texts(msgs), msgs[i])
  {
    hide Texts;
    TextsNext(msgs, i);
    TextsPrefix(msgs, i + 1);
    MiddleOf(Texts(msgs[..i]), Text(msgs[i]), Texts(msgs));
  }

  class Printer {
    var msgs: seq<Msg>

    constructor ()
      ensures Valid() && msgs == []
    {
      msgs := [];
    }

    ghost predicate Valid()
      reads this
    {
      Laid(msgs) && DistinctStrs(msgs)
    }

    /** Where the next message goes: the end of the last one. */
    function TotalSize(): (n: nat)
      reads this
    {
      if msgs == [] then 0 else msgs[|msgs| - 1].offset + msgs[|msgs| - 1].len
    }

    lemma TotalIs()
      requires Valid()
      ensures TotalSize() == |Texts(msgs)|
    {
      if msgs != [] {
        TextsNext(msgs, |msgs| - 1);
        assert msgs[..|msgs|] == msgs;
      }
    }

    /** Find or append a message; nothing that was there before moves. */
    method AddMsg(str: seq<byte>) returns (m: Msg)
      requires Valid()
      modifies this
      ensures Valid() && old(msgs) <= msgs && m in msgs && m.str == str
      ensures (exists o :: o in old(msgs) && o.str == str) <==> msgs == old(msgs)
      ensures |msgs| <= |old(msgs)| + 1
    {
      var i := 0;
      while i < |msgs|
        invariant 0 <= i <= |msgs| && msgs == old(msgs)
        invariant forall j :: 0 <= j < i ==> msgs[j].str != str
      {
        if msgs[i].str == str {
          return msgs[i];
        }
        i := i + 1;
      }
      TotalIs();
      m := Msg(TotalSize(), |str| + 1, str);
      LaidMore(msgs, m);
      msgs := msgs + [m];
    }

    /** One buffer with every message; a lone NUL when there is none. */
    method Assemble() returns (buf: array<byte>)
      requires Valid()
      ensures fresh(buf) && buf[..] == if msgs == [] then [0] else Texts(msgs)
      ensures forall m :: m in msgs ==> Selects(buf[..], m)
    {
      hide Laid, Texts, DistinctStrs;
      TotalIs();
      var size := TotalSize();
      if size == 0 {
        NoTexts(msgs);
        buf := new byte[1];
        buf[0] := 0;
        return;
      }
      buf := new byte[size];
      var i := 0;
      TextsNone(msgs);
      while i < |msgs|
        invariant 0 <= i <= |msgs| && |Texts(msgs[..i])| <= buf.Length && buf[..|Texts(msgs[..i])|] == Texts(msgs[..i])
      {
        var m := msgs[i];
        MsgAt(msgs, i);
        Memcpy(buf, m.offset, Text(m));
        assert buf[..m.offset + m.len] == buf[..m.offset] + buf[m.offset..m.offset + m.len];
        i := i + 1;
      }
      assert msgs[..i] == msgs;
      assert buf[..size] == buf[..];
      forall m | m in msgs ensures Selects(buf[..], m) {
        var j :| 0 <= j < |msgs| && msgs[j] == m;
        LaidSelects(msgs, j);
      }
    }
  }

  lemma LaidMore(msgs: seq<Msg>, m: Msg)
    requires Laid(msgs) && m.offset == |Texts(msgs)| && m.len == |Text(m)|
    ensures Laid(msgs + [m])
  {
    var all := msgs + [m];
    forall i | 0 <= i < |all| ensures all[i].offset == |Texts(all[..i])| && all[i].len == |Text(all[i])| {
      if i < |msgs| {
        assert all[..i] == msgs[..i] && all[i] == msgs[i];
      } else {
        assert all[..i] == msgs;
      }
    }
  }

  lemma NoTexts(msgs: seq<Msg>)
    requires Texts(msgs) == []
    ensures msgs == []
  {
  }

  lemma TextsNone(msgs: seq<Msg>)
    ensures Texts(msgs[..0]) == []
  {
  }

  lemma MsgAt(msgs: seq<Msg>, i: nat)
    requires Laid(msgs) && i < |msgs|
    ensures msgs[i].offset == |Texts(msgs[..i])| && msgs[i].len == |Text(msgs[i])|
    ensures Texts(msgs[..i + 1]) == Texts(msgs[..i]) + Text(msgs[i]) && |Texts(msgs[..i + 1])| <= |Texts(msgs)|
  {
    TextsNext(msgs, i);
    TextsPrefix(msgs, i + 1);
  }

  /**
   * Whatever messages are requested and in whatever order, what each request returned still selects
   * its string in the final buffer, and equal strings share one place.
   */
  method AddAll(strs: seq<seq<byte>>) returns (ms: seq<Msg>, buf: array<byte>)
    ensures |ms| == |strs| && forall i :: 0 <= i < |ms| ==> ms[i].str == strs[i] && Selects(buf[..], ms[i])
    ensures forall i, j :: 0 <= i < |ms| && 0 <= j < |ms| ==> (ms[i] == ms[j] <==> strs[i] == strs[j])
  {
    var p := new Printer();
    ms := [];
    var k := 0;
    while k < |strs|
      invariant 0 <= k <= |strs| && fresh(p) && p.Valid() && |ms| == k
      invariant forall i :: 0 <= i < k ==> ms[i].str == strs[i] && ms[i] in p.msgs
    {
      hide Printer.Valid;
      var m := p.AddMsg(strs[k]);
      ms := ms + [m];
      k := k + 1;
    }
    buf := p.Assemble();
    forall i, j | 0 <= i < |ms| && 0 <= j < |ms| ensures ms[i] == ms[j] <==> strs[i] == strs[j] {
      SameStr(p.msgs, ms[i], ms[j]);
    }
  }

  lemma SameStr(msgs: seq<Msg>, a: Msg, b: Msg)
    requires DistinctStrs(msgs) && a in msgs && b in msgs
    ensures a == b <==> a.str == b.str
  {
  }
}
