// The bounded queue on a linked list with a sentinel in front, as its callers use it: one operation at a time.
module BoundedQueues {

  class Node<T(0)> {
    var entity: T
    var next: Node?<T>

    constructor ()
      ensures next == null
    {
      entity, next := *, null;
    }
  }

  class LockFreeQueue<T(0)> {
    var head: Node<T>
    var tail: Node<T>
    var size: nat
    var maxQueueSize: nat
    ghost var spine: seq<Node<T>>   // the linked nodes from the sentinel on
    ghost var contents: seq<T>

    // The sentinel reaches the tail through the spine without a cycle, and the size counts the nodes behind it.
    ghost predicate Valid()
      reads this, spine
    {
      && |spine| == |contents| + 1
      && size == |contents| <= maxQueueSize
      && head == spine[0] && tail == spine[|spine| - 1]
      && (forall i, j :: 0 <= i < j < |spine| ==> spine[i] != spine[j])
      && (forall i :: 0 <= i < |contents| ==> spine[i].next == spine[i + 1] && spine[i + 1].entity == contents[i])
      && spine[|spine| - 1].next == null
    }

    constructor (maxQueueSize: nat)
      ensures Valid() && contents == [] && this.maxQueueSize == maxQueueSize && fresh(spine)
    {
      var sentinel := new Node<T>();
      head, tail, size := sentinel, sentinel, 0;
      this.maxQueueSize := maxQueueSize;
      spine, contents := [sentinel], [];
    }

    method Size() returns (n: nat)
      requires Valid()
      ensures n == |contents|
    {
      n := size;
    }

    method Empty() returns (empty: bool)
      requires Valid()
      ensures empty <==> contents == []
    {
      assert contents != [] ==> spine[0].next == spine[1];
      empty := head.next == null;
    }

    method Push(entity: T) returns (ok: bool)
      requires Valid()
      modifies this, spine
      ensures Valid() && maxQueueSize == old(maxQueueSize)
      ensures ok <==> |old(contents)| < maxQueueSize
      ensures contents == if ok then old(contents) + [entity] else old(contents)
      ensures forall node :: node in spine ==> node in old(spine) || fresh(node)
    {
      if size >= maxQueueSize {
        return false;
      }
      size := size + 1;
      var node := new Node<T>();
      node.entity := entity;
      var last := tail;
      tail := node;
      last.next := node;
      spine, contents := spine + [node], contents + [entity];
      return true;
    }

    method Pop() returns (ok: bool, entity: T)
      requires Valid()
      modifies this
      ensures Valid() && maxQueueSize == old(maxQueueSize)
      ensures ok <==> old(contents) != []
      ensures ok ==> entity == old(contents)[0] && contents == old(contents)[1..]
      ensures !ok ==> contents == old(contents)
      ensures forall node :: node in spine ==> node in old(spine)
    {
      entity := *;
      if size == 0 {
        return false, entity;
      }
      assert spine[0].next == spine[1];
      size := size - 1;
      // There is a node behind the sentinel, so the branch that restores the size is never taken.
      var first := head;
      assert first.next != null;
      head := first.next;
      entity := first.next.entity;
      spine, contents := spine[1..], contents[1..];
      return true, entity;
    }
  }
}
