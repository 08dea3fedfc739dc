// The work queues of memcache_lite: threadqueue.c and the request queue of hashmap.c are
// the same linked queue with head and tail.
module WorkQueues {
  import opened Wrappers

  class Link<T> {
    const item: T
    var next: Link?<T>

    constructor (item: T)
      ensures this.item == item && next == null
    {
      this.item, next := item, null;
    }
  }

  class WorkQueue<T> {
    var head: Link?<T>
    var tail: Link?<T>
    ghost var spine: seq<Link<T>>

    // Unlike the broadcast queue, an empty queue has no tail.
    ghost predicate Valid()
      reads this, spine
    {
      && (forall i, j :: 0 <= i < j < |spine| ==> spine[i] != spine[j])
      && (forall i {:trigger spine[i].next} :: 0 <= i < |spine| - 1 ==> spine[i].next == spine[i + 1])
      && (spine == [] ==> head == null && tail == null)
      && (spine != [] ==> head == spine[0] && tail == spine[|spine| - 1] && tail.next == null)
    }

    ghost function Contents(): seq<T>
      reads this
    {
      seq(|spine|, (i: int) requires 0 <= i < |spine| reads this => spine[i].item)
    }

    constructor ()
      ensures Valid() && Contents() == []
    {
      head, tail, spine := null, null, [];
    }

    method Enqueue(item: T)
      requires Valid()
      modifies this, set l | l in spine
      ensures Valid() && Contents() == old(Contents()) + [item]
      ensures fresh((set l | l in spine) - old(set l | l in spine))
    {
      var node := new Link(item);
      if tail == null {
        head := node;
      } else {
        tail.next := node;
      }
      tail := node;
      spine := spine + [node];
    }

    method Dequeue() returns (r: Option<T>)
      requires Valid()
      modifies this
      ensures Valid()
      ensures old(Contents()) == [] ==> r == None && Contents() == []
      ensures old(Contents()) != [] ==> r == Some(old(Contents())[0]) && Contents() == old(Contents())[1..]
    {
      if head == null {
        return None;
      }
      assert |spine| > 1 ==> spine[0].next == spine[1];
      r := Some(head.item);
      head := head.next;
      if head == null {
        tail := null;
      }
      spine := spine[1..];
    }
  }
}
