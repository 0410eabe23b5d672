/** The program under construction: its image, grown and patched in place, and its pending fixups. */
module Emitter {
  import opened Bytes
  import opened Bpf
  import opened Model
  import opened Machine
  import opened Fragment
  import opened Codegen
  import opened Growth

  const DEFAULT_IMG_SIZE := 64

  datatype FixupType = JmpNextRule | CountersMapFd | SetMapFd | FuncCall

  /** A fixup: the instruction it belongs to, and what is to be filled in. */
  datatype Fixup = Fixup(insn: nat, tag: Tag)

  predicate HasType(tag: Tag, ft: FixupType)
  {
    match tag
    case Done => false
    case NextRule => ft == JmpNextRule
    case CountersFd => ft == CountersMapFd
    case SetFd(_) => ft == SetMapFd
    case UpdateCounters => ft == FuncCall
  }

  /** The fixups of the instructions of `code` that are not done, in order. */
  function Pending(code: Code): (fs: seq<Fixup>)
  {
    if code == [] then []
    else
      var n := |code| - 1;
      Pending(code[..n]) + if code[n].tag == Done then [] else [Fixup(n, code[n].tag)]
  }

  /** The field a fixup fills in is still zero: nothing is patched twice. */
  predicate Unpatched(t: Tagged)
  {
    match t.tag
    case Done => true
    case NextRule => IsJump(t.insn) && t.insn.off == 0
    case CountersFd | SetFd(_) => t.insn.LdMapFd? && t.insn.imm == 0
    case UpdateCounters => t.insn.CallRel? && t.insn.imm == 0
  }

  predicate AllUnpatched(code: Code)
  {
    forall t :: t in code ==> Unpatched(t)
  }

  /** Values the fixups of a program resolve to. */
  datatype Symbols = Symbols(size: nat, fnLoc: nat, cmapFd: i32, setFds: seq<i32>)

  /** What `_bf_program_fixup` writes in the instruction of slot `i`. */
  function Resolve(t: Tagged, i: nat, y: Symbols): (r: Insn)
  {
    match t.tag
    case Done => t.insn
    case NextRule => SetOff(t.insn, y.size - i - 1)
    case CountersFd => SetImm(t.insn, y.cmapFd)
    case SetFd(_) => if y.setFds == [] then t.insn else SetImm(t.insn, y.setFds[0])
    case UpdateCounters => SetImm(t.insn, ToI32(y.fnLoc - i - 1))
  }

  function SetImm(insn: Insn, imm: i32): (r: Insn)
  {
    match insn
    case CallRel(_) => CallRel(imm)
    case LdMapFd(dst, _) => LdMapFd(dst, imm)
    case _ => insn
  }

  function LinkSlot(t: Tagged, i: nat, ft: FixupType, y: Symbols): (r: Tagged)
  {
    if HasType(t.tag, ft) then T(Resolve(t, i, y)) else t
  }

  /** The code with every fixup of a type resolved. */
  function Link(code: Code, ft: FixupType, y: Symbols): (c: Code)
    ensures |c| == |code|
    ensures forall i :: 0 <= i < |c| ==> c[i] == LinkSlot(code[i], i, ft, y)
  {
    seq(|code|, i requires 0 <= i < |code| => LinkSlot(code[i], i, ft, y))
  }

  /** Sizes the buffer can have: none, or a power of two that is at least 64 and less than twice the size. */
  ghost predicate CapOk(size: nat, cap: nat)
  {
    size <= cap && (cap == 0 || (IsPow2(cap) && DEFAULT_IMG_SIZE <= cap && (cap > DEFAULT_IMG_SIZE ==> cap < 2 * size)))
  }

  // ----- pending fixups -----

  lemma {:induction false} PendingBounds(code: Code)
    ensures forall k :: 0 <= k < |Pending(code)| ==> Pending(code)[k].insn < |code| && code[Pending(code)[k].insn].tag == Pending(code)[k].tag != Done
  {
    if code != [] {
      PendingBounds(code[..|code| - 1]);
    }
  }

  lemma {:induction false} PendingAppend(a: Code, b: Code)
    ensures Pending(a + b) == Pending(a) + Moved(Pending(b), |a|)
    decreases |b|
  {
    if b == [] {
      assert a + b == a;
    } else {
      var n := |b| - 1;
      assert (a + b)[..|a| + n] == a + b[..n];
      PendingAppend(a, b[..n]);
    }
  }

  function Moved(fs: seq<Fixup>, base: nat): (r: seq<Fixup>)
  {
    seq(|fs|, i requires 0 <= i < |fs| => Fixup(fs[i].insn + base, fs[i].tag))
  }

  predicate SameTags(a: Code, b: Code)
  {
    |a| == |b| && forall i :: 0 <= i < |a| ==> a[i].tag == b[i].tag
  }

  lemma {:induction false} PendingTags(a: Code, b: Code)
    requires SameTags(a, b)
    ensures Pending(a) == Pending(b)
    decreases |a|
  {
    if a != [] {
      PendingTags(a[..|a| - 1], b[..|b| - 1]);
    }
  }

  predicate NoTags(code: Code)
  {
    forall i :: 0 <= i < |code| ==> code[i].tag == Done
  }

  lemma {:induction false} PendingNone(code: Code)
    requires NoTags(code)
    ensures Pending(code) == []
  {
    if code != [] {
      PendingNone(code[..|code| - 1]);
    }
  }

  /** The first fixup after slot `d`: no instruction between them is pending. */
  lemma PendingSplit(code: Code, d: nat)
    requires d <= |code|
    ensures |Pending(code[..d])| <= |Pending(code)| && Pending(code)[..|Pending(code[..d])|] == Pending(code[..d])
    ensures |Pending(code[..d])| == |Pending(code)| ==> NoTags(code[d..])
    ensures |Pending(code[..d])| < |Pending(code)| ==>
              var f := Pending(code)[|Pending(code[..d])|];
              d <= f.insn < |code| && code[f.insn].tag == f.tag != Done && NoTags(code[d..f.insn])
              && Pending(code[..f.insn]) == Pending(code[..d])
  {
    hide Pending;
    var a, b := code[..d], code[d..];
    assert code == a + b;
    PendingAppend(a, b);
    PendingFirst(b);
    if Pending(b) != [] {
      var k := Pending(b)[0].insn;
      assert code[d..d + k] == b[..k];
      PendingBounds(b);
      assert code[..d + k] == a + b[..k];
      PendingAppend(a, b[..k]);
      PendingNone(b[..k]);
    }
  }

  lemma {:induction false} PendingFirst(code: Code)
    ensures Pending(code) == [] ==> NoTags(code)
    ensures Pending(code) != [] ==> Pending(code)[0].insn <= |code| && NoTags(code[..Pending(code)[0].insn])
  {
    if code != [] {
      var n := |code| - 1;
      PendingFirst(code[..n]);
      if Pending(code[..n]) != [] {
        PendingBounds(code[..n]);
        var k := Pending(code)[0].insn;
        assert code[..n][..k] == code[..k];
      }
    }
  }

  class Program {
    const chain: Chain
    const btf: Btf
    var img: array?<Insn>
    var size: nat
    var cap: nat
    var fixups: seq<Fixup>
    var fnLoc: nat
    var numCounters: nat
    var cmapFd: i32
    var setFds: seq<i32>
    ghost var code: Code

    constructor (chain: Chain, btf: Btf)
      ensures this.chain == chain && this.btf == btf && Valid() && code == [] && fnLoc == 0
      ensures img == null
    {
      this.chain, this.btf := chain, btf;
      img, size, cap, fixups, fnLoc, numCounters, setFds := null, 0, 0, [], 0, 0, [];
      code := [];
    }

    /** The buffer holds the code, and the fixups are those of the code. */
    ghost predicate Stored()
      reads this, img
    {
      && (img == null <==> cap == 0) && (img != null ==> img.Length == cap)
      && |code| == size <= cap
      && (forall i :: 0 <= i < size ==> img[i] == code[i].insn)
      && fixups == Pending(code) && AllUnpatched(code)
    }

    ghost predicate Valid()
      reads this, img
    {
      Stored() && CapOk(size, cap)
    }

    function Syms(): (y: Symbols)
      reads this
    {
      Symbols(size, fnLoc, cmapFd, setFds)
    }

    /** The rest of the program's state is as it was. */
    twostate predicate Framed()
      reads this, img
    {
      (img == old(img) || (img != null && fresh(img))) && fnLoc == old(fnLoc) && numCounters == old(numCounters) && cmapFd == old(cmapFd) && setFds == old(setFds)
    }

    /** `c` was appended to the code; everything emitted before is unchanged. */
    twostate predicate Emitted(c: Code)
      reads this, img
    {
      Valid() && Framed() && code == old(code) + c
    }

    method GrowImg()
      requires Stored() && CapOk(size, cap) && size == cap
      modifies this
      ensures Stored() && Framed() && code == old(code)
      ensures IsPow2(cap) && cap == if old(cap) == 0 then 64 else 2 * old(cap)
    {
      var newCap := DEFAULT_IMG_SIZE;
      assert IsPow2(64) by {
        assert Pow2(6) == 64;
      }
      if img != null {
        DoublePow2(cap);
        newCap := RoundNextPowerOf2(2 * cap);
        LeastOfPow2(2 * cap, newCap);
      }
      var grown := new Insn[newCap];
      var i: nat := 0;
      while i < size
        modifies grown
        invariant 0 <= i <= size
        invariant forall j :: 0 <= j < i ==> grown[j] == img[j]
      {
        grown[i] := img[i];
        i := i + 1;
      }
      img, cap := grown, newCap;
    }

    /** Append an instruction that is complete. */
    method Emit(insn: Insn)
      requires Valid()
      modifies this, img
      ensures Emitted([T(insn)])
    {
      hide Pending, Unpatched, IsPow2, AllUnpatched;
      if size == cap {
        GrowImg();
      }
      img[size] := insn;
      size := size + 1;
      PendingEmit(code, T(insn));
      code := code + [T(insn)];
    }

    /** Append an instruction and record what is to be filled in later. */
    method EmitFixup(insn: Insn, tag: Tag)
      requires Valid() && tag != Done && Unpatched(Tagged(insn, tag))
      modifies this, img
      ensures Emitted([Tagged(insn, tag)])
    {
      hide Pending, Unpatched, IsPow2, AllUnpatched;
      if size == cap {
        GrowImg();
      }
      fixups := fixups + [Fixup(size, tag)];
      img[size] := insn;
      size := size + 1;
      PendingEmit(code, Tagged(insn, tag));
      code := code + [Tagged(insn, tag)];
    }

    /** A run of consecutive instructions. */
    method EmitRun(insns: seq<Insn>)
      requires Valid()
      modifies this, img
      ensures Emitted(Untagged(insns))
    {
      hide Valid, Untagged;
      var i: nat := 0;
      while i < |insns|
        invariant 0 <= i <= |insns|
        invariant Emitted(Untagged(insns[..i]))
      {
        Emit(insns[i]);
        UntaggedSnoc(insns, i);
        i := i + 1;
      }
      assert insns[..i] == insns;
    }

    /** The end of a jump's scope: the jump emitted at `idx` goes to the next instruction emitted. */
    method JmpctxCleanup(idx: nat)
      requires Valid() && idx < size && code[idx].tag == Done && IsJump(code[idx].insn)
      modifies this, img
      ensures Valid() && Resolved()
      ensures code == old(code)[idx := T(SetOff(old(code)[idx].insn, size - idx - 1))]
    {
      img[idx] := SetOff(img[idx], size - idx - 1);
      ghost var c := code[idx := T(SetOff(code[idx].insn, size - idx - 1))];
      PendingTags(code, c);
      code := c;
    }

    /** Replace the pending instruction of fixup `i`, and drop the fixup. */
    method Patch(i: nat, insn: Insn)
      requires Valid() && i < |fixups|
      modifies this, img
      ensures Valid() && Resolved()
      ensures old(fixups[i].insn) < size && code == old(code)[old(fixups[i].insn) := T(insn)]
      ensures fixups == old(fixups)[..i] + old(fixups)[i + 1..]
    {
      hide Pending, AllUnpatched, Unpatched, IsPow2;
      var f := fixups[i];
      PendingBounds(code);
      img[f.insn] := insn;
      fixups := fixups[..i] + fixups[i + 1..];
      PendingDrop(code, i, T(insn));
      code := code[f.insn := T(insn)];
    }

    /**
     * Resolve the fixups of a type, deleting them from the list that is walked. Only a program with
     * set lookups and no set map fails.
     */
    method ResolveFixups(ft: FixupType) returns (r: Result<()>)
      requires Valid()
      modifies this, img
      ensures Valid() && Resolved()
      ensures r.Err? <==> ft == SetMapFd && setFds == [] && exists t :: t in old(code) && HasType(t.tag, ft)
      ensures code == if r.Ok? then Link(old(code), ft, old(Syms())) else old(code)
    {
      hide Valid, Walked, Pending, HasType, Link, LinkSlot;
      ghost var c0, y := code, Syms();
      ghost var blocked := ft == SetMapFd && setFds == [];
      var i: nat := 0;
      WalkStart(c0, ft, y);
      ShapeFacts();
      while i < |fixups|
        invariant Valid() && Resolved() && fixups == Pending(code) && |code| == size
        invariant i <= |fixups| && Walked(c0, code, ft, y, i)
        invariant blocked ==> code == c0 && forall k :: 0 <= k < i ==> !HasType(fixups[k].tag, ft)
        decreases |fixups| - i
      {
        var f := fixups[i];
        PendingBounds(code);
        if HasType(f.tag, ft) {
          var insn := Value(f, ft);
          if insn == None {
            assert c0[f.insn] in c0;
            return Err(ENOENT);
          }
          WalkPatch(c0, code, ft, y, i, insn.value);
          Patch(i, insn.value);
          ShapeFacts();
        } else {
          WalkKeep(c0, code, ft, y, i);
          i := i + 1;
        }
      }
      WalkEnd(c0, code, ft, y);
      if blocked {
        NoneOfType(code, ft);
      }
      r := Ok(());
    }

    /** Instructions were patched in place; the rest of the program is as it was. */
    twostate predicate Resolved()
      reads this, img
    {
      Framed() && img == old(img) && size == old(size) && cap == old(cap) && |code| == old(|code|)
    }

    /** The image: what is handed to the kernel. */
    function Insns(): (r: seq<Insn>)
      requires Valid()
      reads this, img
    {
      if img == null then [] else img[..size]
    }

    method SetNumCounters(n: nat)
      requires Valid()
      modifies this`numCounters
      ensures Valid() && numCounters == n
    {
      numCounters := n;
    }

    method SetMaps(cmapFd: i32, setFds: seq<i32>)
      requires Valid()
      modifies this`cmapFd, this`setFds
      ensures Valid() && this.cmapFd == cmapFd && this.setFds == setFds
    {
      this.cmapFd, this.setFds := cmapFd, setFds;
    }

    method SetFunctionLocation(off: nat)
      requires Valid()
      modifies this`fnLoc
      ensures Valid() && fnLoc == off
    {
      fnLoc := off;
    }

    lemma SizeIs()
      requires Valid()
      ensures |code| == size
    {
    }

    lemma ShapeFacts()
      requires Valid()
      ensures |code| == size && fixups == Pending(code) && AllUnpatched(code)
    {
    }

    /** The patched instruction of a fixup of the given type. */
    method Value(f: Fixup, ft: FixupType) returns (r: Option<Insn>)
      requires Valid() && f.insn < size && code[f.insn].tag == f.tag && HasType(f.tag, ft)
      ensures r == None <==> ft == SetMapFd && setFds == []
      ensures r != None ==> LinkSlot(code[f.insn], f.insn, ft, Syms()) == T(r.value)
    {
      var insn := img[f.insn];
      UnpatchedAt(code, f.insn);
      match ft
      case JmpNextRule =>
        r := Some(SetOff(insn, size - f.insn - 1));
      case CountersMapFd =>
        r := Some(SetImm(insn, cmapFd));
      case SetMapFd =>
        var index := insn.imm;
        r := if index < |setFds| then Some(SetImm(insn, setFds[index])) else None;
      case FuncCall =>
        r := Some(SetImm(insn, ToI32(fnLoc - f.insn - 1)));
    }
  }

  lemma PendingEmit(code: Code, t: Tagged)
    ensures AllUnpatched(code) && Unpatched(t) ==> AllUnpatched(code + [t])
    ensures t.tag == Done ==> Unpatched(t)
    ensures Pending(code + [t]) == Pending(code) + if t.tag == Done then [] else [Fixup(|code|, t.tag)]
  {
    assert (code + [t])[..|code|] == code;
  }

  lemma UntaggedSnoc(insns: seq<Insn>, i: nat)
    requires i < |insns|
    ensures Untagged(insns[..i + 1]) == Untagged(insns[..i]) + [T(insns[i])]
  {
  }

  // ----- resolving fixups -----

  /** The code with the fixups of a type resolved in its first `d` slots. */
  function LinkedTo(code: Code, ft: FixupType, y: Symbols, d: nat): (c: Code)
    requires d <= |code|
    ensures |c| == |code|
  {
    Link(code, ft, y)[..d] + code[d..]
  }

  lemma LinkStart(code: Code, ft: FixupType, y: Symbols)
    ensures LinkedTo(code, ft, y, 0) == code && Pending(code[..0]) == []
  {
  }

  lemma LinkEnd(code: Code, ft: FixupType, y: Symbols)
    ensures LinkedTo(code, ft, y, |code|) == Link(code, ft, y)
  {
  }

  /** Slots without a fixup stay as they are. */
  lemma LinkSkip(code: Code, ft: FixupType, y: Symbols, d: nat, e: nat)
    requires d <= e <= |code| && NoTags(LinkedTo(code, ft, y, d)[d..e])
    ensures LinkedTo(code, ft, y, d) == LinkedTo(code, ft, y, e)
    ensures forall j :: d <= j < e ==> code[j].tag == Done
  {
    hide Resolve;
    var a := LinkedTo(code, ft, y, d);
    forall j | d <= j < e ensures code[j].tag == Done {
      assert a[d..e][j - d] == code[j];
    }
  }

  lemma LinkStep(code: Code, ft: FixupType, y: Symbols, d: nat)
    requires d < |code|
    ensures LinkedTo(code, ft, y, d)[d := LinkSlot(code[d], d, ft, y)] == LinkedTo(code, ft, y, d + 1)
    ensures LinkedTo(code, ft, y, d)[d] == code[d]
  {
    hide Resolve, LinkSlot;
  }

  lemma UnpatchedAt(code: Code, i: nat)
    requires AllUnpatched(code) && i < |code|
    ensures Unpatched(code[i])
  {
  }

  /** Resolving the fixup number `i` removes it from the pending ones. */
  lemma PendingDrop(code: Code, i: nat, u: Tagged)
    requires i < |Pending(code)| && u.tag == Done && AllUnpatched(code)
    ensures var f := Pending(code)[i];
            f.insn < |code| && Pending(code[f.insn := u]) == Pending(code)[..i] + Pending(code)[i + 1..]
            && AllUnpatched(code[f.insn := u])
  {
    PendingBounds(code);
    var s := Pending(code)[i].insn;
    PendingIndex(code, i);
    var a, t, b := code[..s], code[s], code[s + 1..];
    assert code == (a + [t]) + b && code[s := u] == (a + [u]) + b;
    PendingAppend(a + [t], b);
    PendingAppend(a + [u], b);
    PendingEmit(a, t);
    PendingEmit(a, u);
  }

  lemma {:induction false} PendingIndex(code: Code, i: nat)
    requires i < |Pending(code)|
    ensures Pending(code)[i].insn < |code| && |Pending(code[..Pending(code)[i].insn])| == i
  {
    var n := |code| - 1;
    if i < |Pending(code[..n])| {
      PendingIndex(code[..n], i);
      var s := Pending(code)[i].insn;
      assert code[..n][..s] == code[..s];
    }
  }

  lemma PendingPrefixDrop(code: Code, s: nat)
    requires s < |code| && code[s].tag == Done
    ensures Pending(code[..s + 1]) == Pending(code[..s])
  {
    PendingEmit(code[..s], code[s]);
    assert code[..s + 1] == code[..s] + [code[s]];
  }

  lemma PendingPrefixKeep(code: Code, s: nat)
    requires s < |code| && code[s].tag != Done
    ensures |Pending(code[..s + 1])| == |Pending(code[..s])| + 1
  {
    PendingEmit(code[..s], code[s]);
    assert code[..s + 1] == code[..s] + [code[s]];
  }

  // ----- walking the fixups while deleting some -----

  /** The first `i` pending fixups are of another type, and every one of the type before them is resolved. */
  ghost predicate Walked(c0: Code, code: Code, ft: FixupType, y: Symbols, i: nat)
  {
    exists d: nat :: d <= |c0| && WalkedTo(c0, code, ft, y, i, d)
  }

  ghost predicate WalkedTo(c0: Code, code: Code, ft: FixupType, y: Symbols, i: nat, d: nat)
    requires d <= |c0|
  {
    code == LinkedTo(c0, ft, y, d) && i == |Pending(code[..d])|
  }

  lemma WalkStart(c0: Code, ft: FixupType, y: Symbols)
    ensures Walked(c0, c0, ft, y, 0)
  {
    LinkStart(c0, ft, y);
    assert WalkedTo(c0, c0, ft, y, 0, 0);
  }

  /** Everything before the fixup number `i` is linked. */
  lemma WalkAt(c0: Code, code: Code, ft: FixupType, y: Symbols, i: nat)
    requires Walked(c0, code, ft, y, i) && i < |Pending(code)|
    ensures var s := Pending(code)[i].insn;
            s < |c0| && WalkedTo(c0, code, ft, y, i, s) && code[s] == c0[s] && code[s].tag == Pending(code)[i].tag != Done
  {
    hide Pending, Link, LinkSlot;
    var d: nat :| d <= |c0| && WalkedTo(c0, code, ft, y, i, d);
    PendingSplit(code, d);
    var s := Pending(code)[i].insn;
    LinkSkip(c0, ft, y, d, s);
    LinkStep(c0, ft, y, s);
  }

  lemma WalkPatch(c0: Code, code: Code, ft: FixupType, y: Symbols, i: nat, insn: Insn)
    requires Walked(c0, code, ft, y, i) && i < |Pending(code)| && HasType(Pending(code)[i].tag, ft)
    requires var s := Pending(code)[i].insn; s < |code| && LinkSlot(code[s], s, ft, y) == T(insn)
    ensures var s := Pending(code)[i].insn; Walked(c0, code[s := T(insn)], ft, y, i)
  {
    hide Pending, Link, LinkSlot, LinkedTo, HasType;
    WalkAt(c0, code, ft, y, i);
    var s := Pending(code)[i].insn;
    var c := code[s := T(insn)];
    LinkStep(c0, ft, y, s);
    PendingPrefixDrop(c, s);
    assert c[..s] == code[..s];
    assert WalkedTo(c0, c, ft, y, i, s + 1);
  }

  lemma WalkKeep(c0: Code, code: Code, ft: FixupType, y: Symbols, i: nat)
    requires Walked(c0, code, ft, y, i) && i < |Pending(code)| && !HasType(Pending(code)[i].tag, ft)
    ensures Walked(c0, code, ft, y, i + 1)
  {
    hide Pending, Link, LinkedTo, HasType;
    WalkAt(c0, code, ft, y, i);
    var s := Pending(code)[i].insn;
    LinkStep(c0, ft, y, s);
    PendingPrefixKeep(code, s);
    assert code[s := c0[s]] == code;
    assert WalkedTo(c0, code, ft, y, i + 1, s + 1);
  }

  lemma WalkEnd(c0: Code, code: Code, ft: FixupType, y: Symbols)
    requires Walked(c0, code, ft, y, |Pending(code)|)
    ensures code == Link(c0, ft, y)
  {
    hide Pending, Link, LinkSlot;
    var d: nat :| d <= |c0| && WalkedTo(c0, code, ft, y, |Pending(code)|, d);
    PendingSplit(code, d);
    LinkSkip(c0, ft, y, d, |c0|);
    LinkEnd(c0, ft, y);
  }

  lemma NoneOfType(code: Code, ft: FixupType)
    requires forall k :: 0 <= k < |Pending(code)| ==> !HasType(Pending(code)[k].tag, ft)
    ensures forall t :: t in code ==> !HasType(t.tag, ft)
  {
    hide Pending;
    forall j | 0 <= j < |code| ensures !HasType(code[j].tag, ft) {
      if code[j].tag != Done {
        PendingHas(code, j);
      }
    }
  }

  lemma {:induction false} PendingHas(code: Code, j: nat)
    requires j < |code| && code[j].tag != Done
    ensures Fixup(j, code[j].tag) in Pending(code)
  {
    if j < |code| - 1 {
      PendingHas(code[..|code| - 1], j);
    }
  }
}
