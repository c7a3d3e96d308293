/** The pool's task list: a singly linked list of heap nodes, pushed at the
    tail and popped at the head, under the pool's mutex. */
module LinkedQueue {
  import opened Tasks

  datatype Option<T> = None | Some(value: T)

  /** A `task` struct: its payload and the `next` link. */
  class Node {
    const task: Task
    var next: Node?

    constructor (t: Task)
      ensures task == t && next == null
    {
      task := t;
      next := null;
    }
  }

  class Queue {
    var head: Node?
    var tail: Node?

    // the tasks from head to tail, and the nodes that hold them
    ghost var contents: seq<Task>
    ghost var nodes: seq<Node>
    ghost var Repr: set<object>

    /** The representation invariant. The nodes from `head` follow `next`
        links in order, and the last one ends the list. When the list is
        empty, `head` is null but `tail` may still name the node popped last:
        popping clears only `head`, and pushing reads `tail` only when `head`
        is not null. */
    ghost predicate Valid()
      reads this, Repr
    {
      && this in Repr
      && |nodes| == |contents|
      && (forall i :: 0 <= i < |nodes| ==> nodes[i] in Repr && nodes[i].task == contents[i])
      && (forall i :: 0 <= i < |nodes| - 1 ==> nodes[i].next == nodes[i + 1])
      && (head == null <==> contents == [])
      && (nodes != [] ==> head == nodes[0] && tail == nodes[|nodes| - 1] && tail.next == null)
    }

    /** The zero value of the list fields in a fresh `pool`. */
    constructor ()
      ensures Valid() && fresh(Repr)
      ensures contents == [] && head == null
    {
      head := null;
      tail := null;
      contents := [];
      nodes := [];
      Repr := {this};
    }

    /** Tail push: the new node becomes the successor of `tail`, or `head`
        when the list is empty; in both cases it becomes the new `tail`. */
    method Push(t: Task)
      requires Valid()
      modifies Repr
      ensures Valid() && fresh(Repr - old(Repr))
      ensures contents == old(contents) + [t]
      ensures tail != null && tail.task == t && tail.next == null
      ensures old(contents) == [] ==> head == tail
      ensures old(contents) != [] ==> head == old(head)
    {
      var ask := new Node(t);
      ghost var last := |nodes| - 1;
      if head != null {
        assert forall i :: 0 <= i < last ==> nodes[i] != tail by {
          forall i | 0 <= i < last
            ensures nodes[i] != tail
          {
            assert nodes[i].next == nodes[i + 1];
          }
        }
        tail.next := ask;
      } else {
        head := ask;
      }
      tail := ask;
      contents := contents + [t];
      nodes := nodes + [ask];
      Repr := Repr + {ask};
    }

    /** Head pop: take the first node and advance `head` to its successor;
        report `None` on an empty list. The popped node keeps its `next` link
        and may stay the `tail`. */
    method Pop() returns (t: Option<Task>)
      requires Valid()
      modifies this
      ensures Valid() && Repr == old(Repr) && tail == old(tail)
      ensures old(contents) == [] ==> t == None && contents == []
      ensures old(contents) != [] ==> t == Some(old(contents)[0]) && contents == old(contents)[1..]
    {
      if head == null {
        return None;
      }
      var now := head;
      assert |nodes| > 1 ==> now.next == nodes[1];
      head := now.next;
      contents := contents[1..];
      nodes := nodes[1..];
      t := Some(now.task);
    }
  }
}
