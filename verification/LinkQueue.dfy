/** The linked queue of the link emulator, and the sequence that it stands for. */
module LinkQueue {
  import opened Wrappers

  class Node<T> {
    const crt: T
    var prev: Node?<T>  // the entry that was enqueued next

    constructor (m: T)
      ensures crt == m && prev == null
    {
      crt, prev := m, null;
    }
  }

  /** first is the newest entry, last the oldest. */
  class Queue<T> {
    var size: nat
    var first: Node?<T>
    var last: Node?<T>
    ghost var nodes: seq<Node<T>>  // oldest first

    ghost predicate Valid()
      reads this, nodes
    {
      && size == |nodes|
      && (forall i, j :: 0 <= i < j < |nodes| ==> nodes[i] != nodes[j])
      && (if nodes == [] then first == null && last == null
          else last == nodes[0] && first == nodes[|nodes| - 1])
      && (nodes != [] ==> nodes[|nodes| - 1].prev == null)
      && (forall i {:trigger nodes[i].prev} :: 0 <= i < |nodes| - 1 ==> nodes[i].prev == nodes[i + 1])
    }

    /** The queued values, oldest first. */
    ghost function Contents(): (s: seq<T>)
      reads this
      ensures |s| == |nodes|
    {
      seq(|nodes|, i requires 0 <= i < |nodes| reads this => nodes[i].crt)
    }

    constructor ()
      ensures Valid() && Contents() == [] && nodes == []
    {
      size, first, last, nodes := 0, null, null, [];
    }

    method Enqueue(m: T)
      requires Valid()
      modifies this, nodes
      ensures Valid() && Contents() == old(Contents()) + [m]
      ensures |nodes| == |old(nodes)| + 1 && nodes[..|old(nodes)|] == old(nodes) && fresh(nodes[|old(nodes)|])
    {
      if first == null {
        assert last == null;
        first := new Node(m);
        last := first;
      } else {
        var t := new Node(m);
        first.prev := t;
        first := t;
      }
      size := size + 1;
      nodes := nodes + [first];
    }

    /** The oldest value, or nothing (NULL) when the queue is empty. */
    method Dequeue() returns (m: Option<T>)
      requires Valid()
      modifies this
      ensures Valid()
      ensures old(Contents()) == [] ==> m == None && Contents() == []
      ensures old(Contents()) != [] ==> m == Some(old(Contents())[0]) && Contents() == old(Contents())[1..]
      ensures nodes == if old(nodes) == [] then [] else old(nodes)[1..]
    {
      if first == null {
        assert size == 0;
        return None;
      }
      var t := last;
      assert |nodes| > 1 ==> nodes[0] != nodes[|nodes| - 1];
      assert |nodes| > 1 ==> nodes[0].prev == nodes[1];
      if first == last {
        assert first.prev == null;
        first, last := null, null;
      } else {
        last := last.prev;
      }
      m := Some(t.crt);
      size := size - 1;
      nodes := nodes[1..];
      assert forall i {:trigger nodes[i]} :: 0 <= i < |nodes| ==> nodes[i] == old(nodes)[i + 1];
    }

    /** The prev chain from the oldest entry visits exactly the queued values and ends at the newest. */
    method Walk() returns (values: seq<T>)
      requires Valid()
      ensures values == Contents()
    {
      values := [];
      var at := last;
      while at != null
        invariant |values| <= |nodes| && values == Contents()[..|values|]
        invariant at == if |values| < |nodes| then nodes[|values|] else null
        decreases |nodes| - |values|
      {
        assert nodes[|values|].prev == if |values| + 1 < |nodes| then nodes[|values| + 1] else null;
        assert Contents()[|values|] == at.crt;
        values := values + [at.crt];
        at := at.prev;
      }
    }
  }
}
