/** A singly linked list behind a dummy head. */
module LinkedList {
  class Node<T> {
    const data: T
    var next: Node?<T>

    constructor (data: T, next: Node?<T>)
      ensures this.data == data && this.next == next
    {
      this.data := data;
      this.next := next;
    }
  }

  function DataOf<T>(nodes: seq<Node<T>>): (s: seq<T>)
    ensures |s| == |nodes|
    ensures forall k :: 0 <= k < |nodes| ==> s[k] == nodes[k].data
  {
    seq(|nodes|, k requires 0 <= k < |nodes| => nodes[k].data)
  }

  ghost function Pushed<T>(nodes: seq<Node<T>>, n: Node<T>): seq<Node<T>>
    requires nodes != []
  {
    [nodes[0], n] + nodes[1..]
  }

  lemma PushedIs<T>(nodes: seq<Node<T>>, n: Node<T>)
    requires nodes != []
    ensures var p := Pushed(nodes, n);
            && |p| == |nodes| + 1 && p[0] == nodes[0] && p[1] == n && p[2..] == nodes[1..]
            && (forall k :: 2 <= k < |p| ==> p[k] == nodes[k - 1])
  {
  }

  lemma PushedData<T>(nodes: seq<Node<T>>, n: Node<T>)
    requires nodes != []
    ensures DataOf(Pushed(nodes, n)[1..]) == [n.data] + DataOf(nodes[1..])
  {
    var tail := nodes[1..];
    assert Pushed(nodes, n)[1..] == [n] + tail;
    DataOfCons(n, tail);
  }

  lemma DataOfCons<T>(n: Node<T>, tail: seq<Node<T>>)
    ensures DataOf([n] + tail) == [n.data] + DataOf(tail)
  {
  }

  class List<T> {
    const dummyHead: Node<T>
    /** The dummy head and the nodes behind it, in order. */
    ghost var nodes: seq<Node<T>>

    ghost predicate Valid()
      reads this, nodes
    {
      && nodes != [] && nodes[0] == dummyHead
      && (forall i, j :: 0 <= i < j < |nodes| ==> nodes[i] != nodes[j])
      && forall k :: 0 <= k < |nodes| ==> nodes[k].next == After(k)
    }

    ghost function After(k: int): Node?<T>
      reads this
    {
      if 0 <= k < |nodes| - 1 then nodes[k + 1] else null
    }

    ghost function Contents(): seq<T>
      requires nodes != []
      reads this
    {
      DataOf(nodes[1..])
    }

    /** The data of the dummy head is never looked at. */
    constructor (unused: T)
      ensures Valid() && fresh(nodes) && Contents() == []
    {
      dummyHead := new Node(unused, null);
      new;
      nodes := [dummyHead];
    }

    method IsEmpty() returns (empty: bool)
      requires Valid()
      ensures empty <==> Contents() == []
    {
      assert dummyHead.next == After(0);
      empty := dummyHead.next == null;
    }

    method Push(data: T)
      requires Valid()
      modifies this, dummyHead
      ensures Valid() && Contents() == [data] + old(Contents())
      ensures forall n :: n in nodes ==> n in old(nodes) || fresh(n)
      ensures |nodes| == |old(nodes)| + 1 && fresh(nodes[1]) && nodes[2..] == old(nodes)[1..] && nodes[0] == old(nodes)[0]
    {
      ghost var was := nodes;
      assert dummyHead.next == After(0);
      var n := new Node(data, dummyHead.next);
      dummyHead.next := n;
      nodes := Pushed(was, n);
      PushedIs(was, n);
      PushedData(was, n);
      assert forall k :: 0 < k < |was| ==> was[k].next == old(After(k));
      forall k | 0 <= k < |nodes| ensures nodes[k].next == After(k) {
        if k >= 2 {
          assert nodes[k] == was[k - 1] && was[k - 1].next == old(After(k - 1));
        }
      }
    }

    method Top() returns (data: T)
      requires Valid() && Contents() != []
      ensures data == Contents()[0]
    {
      assert dummyHead.next == After(0);
      data := dummyHead.next.data;
    }

    method Pop() returns (data: T)
      requires Valid() && Contents() != []
      modifies this, dummyHead
      ensures Valid() && old(Contents()) == [data] + Contents()
      ensures nodes[0] == old(nodes)[0] && nodes[1..] == old(nodes)[2..]
      ensures forall n :: n in nodes ==> n in old(nodes)
    {
      assert dummyHead.next == After(0) && nodes[1].next == After(1);
      data := dummyHead.next.data;
      RemoveAfter(dummyHead, 0);
    }

    /** The unlinking step of list_pop and list_remove_if_true. */
    method RemoveAfter(n: Node<T>, ghost k: nat)
      requires Valid() && k + 1 < |nodes| && n == nodes[k]
      modifies this, n
      ensures Valid() && nodes == old(nodes)[..k + 1] + old(nodes)[k + 2..]
      ensures forall n :: n in nodes ==> n in old(nodes)
    {
      ghost var was := nodes;
      assert n.next == After(k) && nodes[k + 1].next == After(k + 1);
      n.next := n.next.next;
      nodes := was[..k + 1] + was[k + 2..];
      forall j | 0 <= j < |nodes| ensures nodes[j].next == After(j) {
        if j < k {
          assert was[j].next == was[j + 1];
        } else if j > k {
          assert nodes[j] == was[j + 1];
        }
      }
    }
  }
}
