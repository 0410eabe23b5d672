/** The doubly linked list that every other part is built on. */
module LinkedList {
  import opened Model

  class Node<T> {
    const data: T
    var prev: Node?<T>
    var next: Node?<T>

    constructor (data: T)
      ensures this.data == data && prev == null && next == null
    {
      this.data, prev, next := data, null, null;
    }
  }

  /** `s` without its element `i`. */
  function Without<T>(s: seq<T>, i: nat): (r: seq<T>)
    requires i < |s|
    ensures |r| == |s| - 1
    ensures forall j :: 0 <= j < i ==> r[j] == s[j]
    ensures forall j :: i <= j < |r| ==> r[j] == s[j + 1]
  {
    s[..i] + s[i + 1..]
  }

  predicate Distinct<T(==)>(s: seq<T>)
  {
    forall i, j :: 0 <= i < j < |s| ==> s[i] != s[j]
  }

  /** The data of the nodes. */
  ghost function Datas<T>(nodes: seq<Node<T>>): (s: seq<T>)
    ensures |s| == |nodes|
    ensures forall i :: 0 <= i < |s| ==> s[i] == nodes[i].data
  {
    seq(|nodes|, i requires 0 <= i < |nodes| => nodes[i].data)
  }

  /** Links go to the neighbours, both ways. */
  ghost predicate Linked<T>(nodes: seq<Node<T>>)
    reads nodes
  {
    && (forall i, j :: 0 <= i && j == i + 1 < |nodes| ==> nodes[i].next == nodes[j] && nodes[j].prev == nodes[i])
    && (nodes != [] ==> nodes[0].prev == null && nodes[|nodes| - 1].next == null)
  }

  class List<T> {
    var len: nat
    var head: Node?<T>
    var tail: Node?<T>
    ghost var nodes: seq<Node<T>>

    constructor ()
      ensures Valid() && nodes == []
    {
      len, head, tail, nodes := 0, null, null, [];
    }

    ghost predicate Valid()
      reads this, nodes
    {
      && len == |nodes| && Distinct(nodes) && Linked(nodes)
      && (if nodes == [] then head == null && tail == null else head == nodes[0] && tail == nodes[len - 1])
    }

    /** The sequence the list stands for. */
    ghost function Contents(): (s: seq<T>)
      reads this
    {
      Datas(nodes)
    }

    method AddHead(data: T)
      requires Valid()
      modifies this, nodes
      ensures Valid() && nodes != [] && fresh(nodes[0]) && nodes[1..] == old(nodes)
      ensures Contents() == [data] + old(Contents())
    {
      hide Linked, Distinct;
      ghost var was := nodes;
      if nodes != [] {
        FirstOnce(nodes);
      }
      var node := new Node(data);
      node.next := head;
      if head != null {
        head.prev := node;
      }
      head := node;
      if tail == null {
        tail := node;
      }
      len := len + 1;
      nodes := [node] + nodes;
      Prepended(was, node);
    }

    method AddTail(data: T)
      requires Valid()
      modifies this, nodes
      ensures Valid() && nodes != [] && fresh(nodes[|nodes| - 1]) && nodes[..|nodes| - 1] == old(nodes)
      ensures Contents() == old(Contents()) + [data]
    {
      hide Linked;
      ghost var was := nodes;
      var node := new Node(data);
      node.prev := tail;
      if tail != null {
        tail.next := node;
      }
      tail := node;
      if head == null {
        head := node;
      }
      len := len + 1;
      nodes := nodes + [node];
      Appended(was, node);
    }

    /** Unlink the node at position `i`. */
    method Delete(node: Node<T>, ghost i: nat)
      requires Valid() && i < |nodes| && nodes[i] == node
      modifies this, nodes
      ensures Valid() && nodes == Without(old(nodes), i)
      ensures Contents() == Without(old(Contents()), i)
    {
      hide Linked, Distinct;
      ghost var was := nodes;
      EndsOf(nodes, i);
      if head == node {
        head := node.next;
      }
      if tail == node {
        tail := node.prev;
      }
      Unlink(node, was, i);
      len := len - 1;
      nodes := Without(nodes, i);
    }

    /** The node `i` places from the head. */
    ghost predicate IsAt(node: Node?<T>, i: int)
      reads this
    {
      -1 <= i <= |nodes| && if 0 <= i < |nodes| then node == nodes[i] else node == null
    }

    method GetAt(index: nat) returns (r: Option<T>)
      requires Valid()
      ensures r == if index < |nodes| then Some(Contents()[index]) else None
    {
      var node, k := head, index;
      ghost var i := 0;
      while node != null
        invariant 0 <= i && IsAt(node, i) && k + i == index
        decreases |nodes| - i
      {
        if k == 0 {
          return Some(node.data);
        }
        k := k - 1;
        node := node.next;
        i := i + 1;
      }
      return None;
    }

    method NodeAt(index: nat) returns (node: Node<T>)
      requires Valid() && index < |nodes|
      ensures node == nodes[index]
    {
      var n, i := head, 0;
      while i < index
        invariant 0 <= i <= index && n == nodes[i]
      {
        n := n.next;
        i := i + 1;
      }
      node := n;
    }

    /** The forward walk. */
    method Forward() returns (s: seq<T>)
      requires Valid()
      ensures s == Contents() && |s| == len
    {
      s := [];
      var node := head;
      while node != null
        invariant IsAt(node, |s|) && s == Datas(nodes[..|s|])
        decreases |nodes| - |s|
      {
        s := s + [node.data];
        node := node.next;
      }
      assert nodes[..|s|] == nodes;
    }

    /**
     * Walk the list and delete the nodes `chosen` says, by the order of the visit. The next node is
     * read before a node is deleted: every original node is visited once, and the rest remains.
     */
    method ForeachDelete(chosen: nat -> bool) returns (visited: seq<T>)
      requires Valid()
      modifies this, nodes
      ensures Valid() && visited == old(Contents())
      ensures nodes == Rest(old(nodes), chosen, 0) && Contents() == Rest(old(Contents()), chosen, 0)
    {
      hide Linked, Distinct, Rest, Walking, Without, Datas;
      ghost var was := nodes;
      visited := [];
      var node := head;
      ghost var i: nat := 0;
      WalkStart(was, chosen);
      while node != null
        invariant Valid() && IsAt(node, i)
        invariant Walking(was, nodes, chosen, |visited|, i)
        invariant |visited| <= |was| && visited == Datas(was[..|visited|])
        decreases |was| - |visited|
      {
        var next := node.next;
        var k := |visited|;
        NextOf(nodes, i);
        WalkAt(was, nodes, chosen, k, i);
        if chosen(k) {
          Delete(node, i);
        } else {
          i := i + 1;
        }
        visited := visited + [node.data];
        node := next;
      }
      WalkEnd(was, nodes, chosen, |visited|, i);
    }

    /** The backward walk: the reverse. */
    method Backward() returns (s: seq<T>)
      requires Valid()
      ensures |s| == |Contents()| && forall i :: 0 <= i < |s| ==> s[i] == Contents()[|s| - 1 - i]
    {
      s := [];
      var node := tail;
      while node != null
        invariant IsAt(node, |nodes| - 1 - |s|)
        invariant forall i :: 0 <= i < |s| ==> s[i] == nodes[|nodes| - 1 - i].data
        decreases |nodes| - |s|
      {
        s := s + [node.data];
        node := node.prev;
      }
    }
  }

  /** Link the neighbours of a node to each other. */
  method Unlink<T>(node: Node<T>, ghost nodes: seq<Node<T>>, ghost i: nat)
    requires Linked(nodes) && Distinct(nodes) && i < |nodes| && nodes[i] == node
    modifies nodes
    ensures Linked(Without(nodes, i)) && Distinct(Without(nodes, i)) && Datas(Without(nodes, i)) == Without(Datas(nodes), i)
  {
    assert i > 0 ==> node.prev == nodes[i - 1];
    assert i + 1 < |nodes| ==> node.next == nodes[i + 1];
    if node.prev != null {
      node.prev.next := node.next;
    }
    if node.next != null {
      node.next.prev := node.prev;
    }
    Unlinked(nodes, i);
  }

  lemma FirstOnce<T>(nodes: seq<Node<T>>)
    requires Distinct(nodes) && nodes != []
    ensures forall j :: 0 < j < |nodes| ==> nodes[j] != nodes[0]
  {
  }

  lemma EndsOf<T>(nodes: seq<Node<T>>, i: nat)
    requires Linked(nodes) && Distinct(nodes) && i < |nodes|
    ensures nodes[0] == nodes[i] <==> i == 0
    ensures nodes[|nodes| - 1] == nodes[i] <==> i == |nodes| - 1
    ensures |nodes| > 1 && i == 0 ==> nodes[i].next == nodes[1]
    ensures |nodes| > 1 && i == |nodes| - 1 ==> nodes[i].prev == nodes[|nodes| - 2]
    ensures |nodes| == 1 ==> nodes[i].next == null && nodes[i].prev == null
  {
  }

  /** Adding a node that the last one has been linked to. */
  twostate lemma Appended<T>(was: seq<Node<T>>, new node: Node<T>)
    requires node !in was && Distinct(was) && old(Linked(was)) && node.next == null
    requires if was == [] then node.prev == null else node.prev == was[|was| - 1] && was[|was| - 1].next == node
    requires forall j :: 0 <= j < |was| - 1 ==> was[j].next == old(was[j].next)
    requires forall j :: 0 <= j < |was| ==> was[j].prev == old(was[j].prev)
    ensures Linked(was + [node]) && Distinct(was + [node]) && Datas(was + [node]) == Datas(was) + [node.data]
  {
  }

  /** Adding a node before the first one. */
  twostate lemma Prepended<T>(was: seq<Node<T>>, new node: Node<T>)
    requires node !in was && Distinct(was) && old(Linked(was)) && node.prev == null
    requires if was == [] then node.next == null else node.next == was[0] && was[0].prev == node
    requires forall j :: 0 < j < |was| ==> was[j].prev == old(was[j].prev)
    requires forall j :: 0 <= j < |was| ==> was[j].next == old(was[j].next)
    ensures Linked([node] + was) && Distinct([node] + was) && Datas([node] + was) == [node.data] + Datas(was)
  {
    var nodes := [node] + was;
    forall i, j | 0 <= i && j == i + 1 < |nodes| ensures nodes[i].next == nodes[j] && nodes[j].prev == nodes[i] {
      assert nodes[j] == was[i];
      assert i > 0 ==> nodes[i] == was[i - 1];
    }
  }

  /** Removing a node whose neighbours have been linked to each other. */
  twostate lemma Unlinked<T>(was: seq<Node<T>>, new i: nat)
    requires i < |was| && Distinct(was) && old(Linked(was))
    requires forall j :: 0 <= j < |was| && j != i - 1 ==> was[j].next == old(was[j].next)
    requires forall j :: 0 <= j < |was| && j != i + 1 ==> was[j].prev == old(was[j].prev)
    requires i > 0 ==> was[i - 1].next == old(was[i].next)
    requires i + 1 < |was| ==> was[i + 1].prev == old(was[i].prev)
    ensures Linked(Without(was, i)) && Distinct(Without(was, i)) && Datas(Without(was, i)) == Without(Datas(was), i)
  {
  }

  // ----- walking while deleting -----

  /** The elements that are not chosen; the first one has number `k`. */
  ghost function Rest<T>(s: seq<T>, chosen: nat -> bool, k: nat): (r: seq<T>)
  {
    if s == [] then [] else (if chosen(k) then [] else [s[0]]) + Rest(s[1..], chosen, k + 1)
  }

  lemma {:induction false} RestAppend<T>(a: seq<T>, b: seq<T>, chosen: nat -> bool, k: nat)
    ensures Rest(a + b, chosen, k) == Rest(a, chosen, k) + Rest(b, chosen, k + |a|)
    decreases |a|
  {
    if a == [] {
      assert a + b == b;
    } else {
      assert (a + b)[1..] == a[1..] + b;
      RestAppend(a[1..], b, chosen, k + 1);
    }
  }

  lemma RestSnoc<T>(s: seq<T>, chosen: nat -> bool, k: nat)
    requires k < |s|
    ensures Rest(s[..k + 1], chosen, 0) == Rest(s[..k], chosen, 0) + if chosen(k) then [] else [s[k]]
  {
    RestAppend(s[..k], [s[k]], chosen, 0);
    assert s[..k + 1] == s[..k] + [s[k]];
    assert [s[k]][1..] == [];
    assert Rest([s[k]], chosen, k) == if chosen(k) then [] else [s[k]];
  }

  lemma {:induction false} RestDatas<T>(nodes: seq<Node<T>>, chosen: nat -> bool, k: nat)
    ensures Datas(Rest(nodes, chosen, k)) == Rest(Datas(nodes), chosen, k)
    decreases |nodes|
  {
    if nodes != [] {
      RestDatas(nodes[1..], chosen, k + 1);
      assert Datas(nodes)[1..] == Datas(nodes[1..]);
    }
  }

  /** After `k` visits the list is what is kept of the first `k` nodes, `i` of them, and then the other nodes. */
  ghost predicate Walking<T>(was: seq<T>, nodes: seq<T>, chosen: nat -> bool, k: nat, i: nat)
  {
    k <= |was| && nodes == Rest(was[..k], chosen, 0) + was[k..] && i == |Rest(was[..k], chosen, 0)|
  }

  lemma WalkStart<T>(was: seq<Node<T>>, chosen: nat -> bool)
    ensures Walking(was, was, chosen, 0, 0) && Datas(was[..0]) == []
  {
    assert was[..0] == [] && was == [] + was[0..];
  }

  lemma {:induction false} RestSubset<T>(s: seq<T>, chosen: nat -> bool, k: nat)
    ensures forall x :: x in Rest(s, chosen, k) ==> x in s
    decreases |s|
  {
    if s != [] {
      RestSubset(s[1..], chosen, k + 1);
    }
  }

  /** The current node is the next original one, whether it is deleted or not. */
  lemma WalkAt<T>(was: seq<Node<T>>, nodes: seq<Node<T>>, chosen: nat -> bool, k: nat, i: nat)
    requires Walking(was, nodes, chosen, k, i) && i < |nodes|
    ensures k < |was| && nodes[i] == was[k] && (forall j :: 0 <= j < |nodes| ==> nodes[j] in was)
    ensures if chosen(k) then Walking(was, Without(nodes, i), chosen, k + 1, i) else Walking(was, nodes, chosen, k + 1, i + 1)
    ensures Datas(was[..k + 1]) == Datas(was[..k]) + [was[k].data]
    ensures i + 1 < |nodes| ==> |Without(nodes, i)| > i && Without(nodes, i)[i] == nodes[i + 1]
    ensures i + 1 == |nodes| ==> |Without(nodes, i)| == i
  {
    hide Rest;
    RestSnoc(was, chosen, k);
    RestSubset(was[..k], chosen, 0);
    var kept := Rest(was[..k], chosen, 0);
    forall j | 0 <= j < |nodes| ensures nodes[j] in was {
      if j < i {
        assert nodes[j] == kept[j] && kept[j] in was[..k];
      } else {
        assert nodes[j] == was[k + j - i];
      }
    }
    if chosen(k) {
      assert Without(nodes, i) == kept + [] + was[k + 1..];
    } else {
      assert nodes == kept + [was[k]] + was[k + 1..];
    }
  }

  lemma WalkEnd<T>(was: seq<Node<T>>, nodes: seq<Node<T>>, chosen: nat -> bool, k: nat, i: nat)
    requires Walking(was, nodes, chosen, k, i) && i >= |nodes|
    ensures nodes == Rest(was, chosen, 0) && Datas(was[..k]) == Datas(was) && Datas(nodes) == Rest(Datas(was), chosen, 0)
  {
    assert was[..k] == was && was[k..] == [];
    RestDatas(was, chosen, 0);
  }

  lemma NextOf<T>(nodes: seq<Node<T>>, i: nat)
    requires Linked(nodes) && i < |nodes|
    ensures if i + 1 < |nodes| then nodes[i].next == nodes[i + 1] else nodes[i].next == null
  {
  }

  // ----- runs -----

  datatype Op<T> = Head(x: T) | Tail(x: T) | Remove(i: nat)

  /** What an operation does to the sequence; a position outside the list is not a node. */
  function Apply<T>(s: seq<T>, op: Op<T>): (r: seq<T>)
  {
    match op
    case Head(x) => [x] + s
    case Tail(x) => s + [x]
    case Remove(i) => if i < |s| then Without(s, i) else s
  }

  function ApplyAll<T>(s: seq<T>, ops: seq<Op<T>>): (r: seq<T>)
    decreases |ops|
  {
    if ops == [] then s else ApplyAll(Apply(s, ops[0]), ops[1..])
  }

  lemma InTail<T>(s: seq<T>)
    requires s != []
    ensures forall i :: 0 < i < |s| ==> s[i] in s[1..]
  {
    forall i | 0 < i < |s| ensures s[i] in s[1..] {
      assert s[1..][i - 1] == s[i];
    }
  }

  lemma InInit<T>(s: seq<T>)
    requires s != []
    ensures forall i :: 0 <= i < |s| - 1 ==> s[i] in s[..|s| - 1]
  {
    forall i | 0 <= i < |s| - 1 ensures s[i] in s[..|s| - 1] {
      assert s[..|s| - 1][i] == s[i];
    }
  }

  method Do<T>(list: List<T>, op: Op<T>)
    requires list.Valid()
    modifies list, list.nodes
    ensures list.Valid() && list.Contents() == Apply(old(list.Contents()), op)
    ensures forall i :: 0 <= i < |list.nodes| ==> list.nodes[i] in old(list.nodes) || fresh(list.nodes[i])
  {
    hide Linked, Distinct, Without;
    match op
    case Head(x) =>
      list.AddHead(x);
      InTail(list.nodes);
    case Tail(x) =>
      list.AddTail(x);
      InInit(list.nodes);
    case Remove(i) =>
      if i < list.len {
        var node := list.NodeAt(i);
        list.Delete(node, i);
      }
  }

  /** After any operations, both walks agree with the sequence. */
  method RunAll<T>(ops: seq<Op<T>>) returns (forward: seq<T>, backward: seq<T>)
    ensures forward == ApplyAll([], ops) && |backward| == |forward|
    ensures forall i :: 0 <= i < |forward| ==> backward[i] == forward[|forward| - 1 - i]
  {
    hide List.Valid, Apply;
    var list := new List<T>();
    var k := 0;
    while k < |ops|
      invariant 0 <= k <= |ops| && list.Valid() && fresh(list) && (forall i :: 0 <= i < |list.nodes| ==> fresh(list.nodes[i]))
      invariant ApplyAll([], ops) == ApplyAll(list.Contents(), ops[k..])
    {
      assert ops[k..][0] == ops[k] && ops[k..][1..] == ops[k + 1..];
      Do(list, ops[k]);
      k := k + 1;
    }
    forward := list.Forward();
    backward := list.Backward();
  }
}
