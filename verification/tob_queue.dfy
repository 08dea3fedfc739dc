// TOB/queue.c on the heap: a singly linked queue with head and tail pointers, sorted
// in place by relinking its nodes.
module NodeQueues {
  import opened QueueSpec

  class Node {
    const msg: Message
    const nprocs: nat
    var ackFlg: bool
    var ackCount: nat
    var next: Node?

    constructor (msg: Message, nprocs: nat)
      ensures this.msg == msg && this.nprocs == nprocs
      ensures !ackFlg && ackCount == 0 && next == null
    {
      this.msg, this.nprocs := msg, nprocs;
      ackFlg, ackCount, next := false, 0, null;
    }

    function Value(): Entry
      reads `ackFlg, `ackCount
    {
      Entry(msg, ackFlg, ackCount)
    }
  }

  ghost function Nodes(s: seq<Node>): set<Node> {
    set n | n in s
  }

  lemma Members(s: seq<Node>)
    ensures forall i :: 0 <= i < |s| ==> s[i] in Nodes(s)
  {
  }

  ghost predicate Distinct(s: seq<Node>) {
    forall i, j :: 0 <= i < j < |s| ==> s[i] != s[j]
  }

  // The list that starts at `first` visits exactly the nodes of s, each once, and ends.
  ghost predicate Linked(first: Node?, s: seq<Node>)
    reads s`next
  {
    && Distinct(s)
    && first == (if s == [] then null else s[0])
    && (forall i {:trigger s[i].next} :: 0 <= i < |s| - 1 ==> s[i].next == s[i + 1])
    && (s != [] ==> s[|s| - 1].next == null)
  }

  ghost function Values(s: seq<Node>): (q: seq<Entry>)
    reads s`ackFlg, s`ackCount
    ensures |q| == |s|
    ensures forall i :: 0 <= i < |s| ==> q[i] == s[i].Value()
  {
    ValuesUpTo(s, |s|)
  }

  ghost function ValuesUpTo(s: seq<Node>, k: nat): (q: seq<Entry>)
    requires k <= |s|
    reads s`ackFlg, s`ackCount
    ensures |q| == k
    ensures forall i :: 0 <= i < k ==> q[i] == s[i].Value()
  {
    if k == 0 then [] else ValuesUpTo(s, k - 1) + [s[k - 1].Value()]
  }

  lemma LinkedWith(first: Node, s: seq<Node>, p: nat, n: Node)
    requires 0 < p <= |s| && first == s[0] && n !in s
    requires Distinct(s)
    requires forall i {:trigger s[i].next} :: 0 <= i < |s| - 1 && i != p - 1 ==> s[i].next == s[i + 1]
    requires p < |s| ==> s[|s| - 1].next == null
    requires s[p - 1].next == n && n.next == if p < |s| then s[p] else null
    ensures Linked(first, InsertAt(s, p, n))
  {
    var t := InsertAt(s, p, n);
    forall i | 0 <= i < |t| - 1 ensures t[i].next == t[i + 1] {
      if i < p { assert t[i] == s[i]; }
      if i > p { assert t[i] == s[i - 1] && t[i + 1] == s[i]; }
    }
  }

  lemma LinkedWithout(first: Node, s: seq<Node>, k: nat)
    requires 0 < k < |s| && first == s[0]
    requires Distinct(s)
    requires forall i {:trigger s[i].next} :: 0 <= i < |s| - 1 && i != k - 1 ==> s[i].next == s[i + 1]
    requires k < |s| - 1 ==> s[|s| - 1].next == null
    requires s[k - 1].next == if k + 1 < |s| then s[k + 1] else null
    ensures Linked(first, s[..k] + s[k + 1..])
  {
    var t := s[..k] + s[k + 1..];
    forall i | 0 <= i < |t| - 1 ensures t[i].next == t[i + 1] {
      if i < k { assert t[i] == s[i]; }
      if i >= k { assert t[i] == s[i + 1] && t[i + 1] == s[i + 2]; }
    }
  }

  // The inner loop of order_queue: the node behind which m belongs.
  method FindSlot(sorted: Node, m: Message, ghost s: seq<Node>) returns (temp: Node, ghost k: nat)
    requires Linked(sorted, s) && s != [] && !Before(m, sorted.msg)
    ensures k < |s| && temp == s[k] && InsertPos(Values(s), m) == k + 1
  {
    temp, k := sorted, 0;
    while temp.next != null && !Before(m, temp.next.msg)
      invariant k < |s| && temp == s[k]
      invariant forall i :: 0 <= i <= k ==> !Before(m, s[i].msg)
      decreases |s| - k
    {
      temp, k := temp.next, k + 1;
    }
    InsertPosIs(Values(s), m, k + 1);
  }

  // One round of order_queue: current is linked into the sorted list behind every node
  // that does not come strictly after it.
  method LinkInto(sorted: Node?, current: Node, ghost s: seq<Node>)
    returns (sorted': Node, ghost s': seq<Node>)
    requires Linked(sorted, s) && current !in s
    modifies Nodes(s)`next, current`next
    ensures Values(s') == Insert(Values(s), current.Value())
    ensures multiset(s') == multiset(s) + multiset{current}
    ensures Linked(sorted', s')
  {
    hide InsertPos, Values, Linked, InsertAt;
    ghost var p := InsertPos(Values(s), current.msg);
    sorted', s' := Relink(sorted, current, s);
    InsertAtPermutes(s, p, current);
    InsertedValues(s, p, current);
  }

  method Relink(sorted: Node?, current: Node, ghost s: seq<Node>)
    returns (sorted': Node, ghost s': seq<Node>)
    requires Linked(sorted, s) && current !in s
    modifies Nodes(s)`next, current`next
    ensures s' == InsertAt(s, InsertPos(Values(s), current.msg), current)
    ensures Linked(sorted', s')
  {
    hide InsertPos, Values;
    if sorted == null || Before(current.msg, sorted.msg) {
      InsertPosIs(Values(s), current.msg, 0);
      current.next := sorted;
      sorted' := current;
      s' := InsertAt(s, 0, current);
    } else {
      var temp; ghost var k;
      temp, k := FindSlot(sorted, current.msg, s);
      current.next := temp.next;
      temp.next := current;
      sorted' := sorted;
      s' := InsertAt(s, k + 1, current);
      LinkedWith(sorted, s, k + 1, current);
    }
  }

  // One turn of the outer loop of order_queue: the first unsorted node changes lists.
  method MoveFirst(head: Node, sorted: Node?, ghost all: seq<Node>, ghost k: nat, ghost s: seq<Node>)
    returns (head': Node?, sorted': Node?, ghost s': seq<Node>)
    requires k <= |all| && Linked(head, all[k..]) && Linked(sorted, s) && multiset(s) == multiset(all[..k])
    requires Distinct(all)
    modifies Nodes(all)`next
    ensures k < |all|
    ensures Linked(head', all[k + 1..]) && Linked(sorted', s') && multiset(s') == multiset(all[..k + 1])
    ensures Values(s') == Insert(Values(s), all[k].Value())
  {
    hide Values, Insert, Linked;
    SplitAt(head, all, k);
    SameNodes(s, all[..k]);
    head' := head.next;
    sorted', s' := LinkInto(sorted, head, s);
  }

  // The outer loop of order_queue.
  method SortNodes(first: Node?, ghost all: seq<Node>) returns (sorted: Node?, ghost s: seq<Node>)
    requires Linked(first, all)
    modifies Nodes(all)`next
    ensures Linked(sorted, s)
    ensures Values(s) == Sort(Values(all))
    ensures multiset(s) == multiset(all)
  {
    hide Values, Insert, Sort, Linked, Nodes, Distinct;
    ghost var q := Values(all);
    var head := first;
    sorted, s := null, [];
    ghost var k := 0;
    StartSort(first, all);
    while head != null
      invariant 0 <= k <= |all| && Distinct(all)
      invariant Linked(head, all[k..])
      invariant Linked(sorted, s)
      invariant multiset(s) == multiset(all[..k])
      invariant Values(all) == q && Values(s) == Sort(q[..k])
      decreases |all| - k
    {
      head, sorted, s := MoveFirst(head, sorted, all, k, s);
      SortStep(q, k);
      k := k + 1;
    }
    EndSort(all, k);
  }

  lemma StartSort(first: Node?, all: seq<Node>)
    requires Linked(first, all)
    ensures Linked(first, all[0..]) && Linked(null, [])
    ensures Values([]) == Sort(Values(all)[..0]) && Distinct(all)
  {
    assert all[0..] == all;
  }

  lemma EndSort(all: seq<Node>, k: nat)
    requires k <= |all| && Linked(null, all[k..])
    ensures all[..k] == all && Values(all)[..k] == Values(all)
  {
  }

  lemma SameNodes(s: seq<Node>, t: seq<Node>)
    requires multiset(s) == multiset(t)
    ensures |s| == |t|
    ensures forall n :: n in s <==> n in t
  {
    assert |multiset(s)| == |multiset(t)|;
    assert forall n :: n in s <==> n in multiset(s);
    assert forall n :: n in t <==> n in multiset(t);
  }

  lemma SplitAt(h: Node, all: seq<Node>, k: nat)
    requires k <= |all|
    requires Distinct(all) && Linked(h, all[k..])
    ensures k < |all| && h == all[k]
    ensures Linked(h.next, all[k + 1..])
    ensures all[..k + 1] == all[..k] + [all[k]]
    ensures all[k] !in all[..k] && all[k] !in all[k + 1..]
    ensures forall n :: n in all[..k] ==> n in all && n !in all[k + 1..]
  {
    assert all[k..][0] == all[k];
    var t, u := all[k + 1..], all[k..];
    forall i | 0 <= i < |t| - 1 ensures t[i].next == t[i + 1] {
      assert u[i + 1].next == u[i + 2];
    }
  }

  // Inserting a node among nodes inserts its value among their values.
  lemma InsertedValues(s: seq<Node>, p: nat, n: Node)
    requires p <= |s|
    ensures Values(InsertAt(s, p, n)) == InsertAt(Values(s), p, n.Value())
  {
    var l, r := Values(InsertAt(s, p, n)), InsertAt(Values(s), p, n.Value());
    forall i | 0 <= i < |s| + 1 ensures l[i] == r[i] {
    }
  }

  lemma RemoveMissing(q: seq<Entry>, uid: nat)
    requires Find(q, uid) == |q|
    ensures Remove(q, uid) == q
  {
  }

  lemma RemovedValues(s: seq<Node>, k: nat, uid: nat)
    requires k < |s| && Find(Values(s), uid) == k
    ensures Values(s[..k] + s[k + 1..]) == Remove(Values(s), uid)
  {
    var l, r := Values(s[..k] + s[k + 1..]), Remove(Values(s), uid);
    forall i | 0 <= i < |s| - 1 ensures l[i] == r[i] {
    }
  }

  lemma ShortList(first: Node?, s: seq<Node>)
    requires Linked(first, s)
    ensures first == if s == [] then null else s[0]
    ensures first != null && first.next == null ==> |s| == 1
  {
    if |s| >= 2 {
      assert s[0].next == s[1];
    }
  }

  lemma KeysInOrder(s: seq<Node>, q: seq<Entry>)
    requires Values(s) == Sort(q)
    ensures forall i, j :: 0 <= i < j < |s| ==>
              s[i].msg.lc < s[j].msg.lc || (s[i].msg.lc == s[j].msg.lc && s[i].msg.pid >= s[j].msg.pid)
  {
    hide Values, Sort;
    SortSorted(q);
    assert forall i :: 0 <= i < |s| ==> Values(s)[i].msg == s[i].msg;
  }

  class NodeQueue {
    var head: Node?
    var tail: Node?
    ghost var spine: seq<Node>  // the nodes reachable from head, in order

    ghost predicate Valid()
      reads `head, `tail, `spine, spine`next
    {
      Linked(head, spine) && (spine != [] ==> tail == spine[|spine| - 1])
    }

    // The tail still names a removed node although nothing is queued any more.
    ghost predicate Stale()
      reads `tail, `spine
    {
      spine == [] && tail != null
    }

    ghost function Contents(): seq<Entry>
      reads `spine, spine`ackFlg, spine`ackCount
    {
      Values(spine)
    }

    constructor ()
      ensures Valid() && !Stale() && Contents() == [] && spine == [] && tail == null
    {
      head, tail, spine := null, null, [];
    }

    // Through a stale tail the new node is linked behind a removed one and stays
    // unreachable from head.
    method Enqueue(newNode: Node)
      requires Valid() && newNode !in spine && newNode != tail && newNode.next == null
      modifies this, if tail == null then {} else {tail}
      ensures Valid() && tail == newNode
      ensures old(Stale()) ==> spine == [] && Stale()
      ensures !old(Stale()) ==> spine == old(spine) + [newNode] && !Stale()
      ensures Contents() == if old(Stale()) then [] else old(Contents()) + [newNode.Value()]
    {
      if tail == null {
        head := newNode;
        spine := [newNode];
      } else {
        tail.next := newNode;
        spine := if spine == [] then [] else spine + [newNode];
      }
      tail := newNode;
    }

    // The first queued node with this uid and the node in front of it.
    method Search(uid: nat) returns (temp: Node?, prev: Node?, ghost k: nat)
      requires Valid()
      ensures k == Find(Contents(), uid) <= |spine|
      ensures temp == if k < |spine| then spine[k] else null
      ensures prev == if k > 0 then spine[k - 1] else null
      ensures prev != null ==> prev in Nodes(spine)
    {
      temp, prev, k := head, null, 0;
      while temp != null && temp.msg.uid != uid
        invariant k <= |spine|
        invariant temp == if k < |spine| then spine[k] else null
        invariant prev == if k > 0 then spine[k - 1] else null
        invariant forall j :: 0 <= j < k ==> spine[j].msg.uid != uid
        decreases |spine| - k
      {
        temp, prev, k := temp.next, temp, k + 1;
      }
      FindIs(Contents(), uid, k);
    }

    method FindNode(uid: nat) returns (r: Node?)
      requires Valid()
      ensures var i := Find(Contents(), uid);
              r == if i < |spine| then spine[i] else null
    {
      var prev; ghost var k;
      r, prev, k := Search(uid);
    }

    // In-place insertion sort; a queue of at most one node is left alone, its tail too.
    method OrderQueue()
      requires Valid()
      modifies this, Nodes(spine)`next
      ensures Valid() && Stale() == old(Stale())
      ensures old(spine) == [] ==> tail == old(tail)
      ensures Contents() == Sort(old(Contents()))
      ensures forall i, j :: 0 <= i < j < |spine| ==>
                spine[i].msg.lc < spine[j].msg.lc || (spine[i].msg.lc == spine[j].msg.lc && spine[i].msg.pid >= spine[j].msg.pid)
      ensures multiset(spine) == multiset(old(spine))
      ensures Nodes(spine) == Nodes(old(spine)) && forall n :: n in spine <==> n in old(spine)
    {
      hide Values, Sort, Linked;
      ShortList(head, spine);
      if head == null || head.next == null {
        SortOfSorted(Contents());
        return;
      }
      ghost var q := Contents();
      head, spine := SortNodes(head, spine);
      SameNodes(spine, old(spine));
      KeysInOrder(spine, q);
      SetTail();
    }

    // The closing loop of order_queue: tail walks to the last node.
    method SetTail()
      requires Linked(head, spine) && spine != []
      modifies `tail
      ensures Valid()
    {
      tail := head;
      ghost var t := 0;
      while tail != null && tail.next != null
        invariant 0 <= t < |spine| && tail == spine[t]
        decreases |spine| - t
      {
        tail := tail.next;
        t := t + 1;
      }
    }

    // dequeue's first branch. It leaves tail alone.
    method DropHead()
      requires Valid() && spine != []
      modifies `head, `spine
      ensures Valid() && spine == old(spine)[1..]
    {
      assert spine[0..] == spine;
      SplitAt(head, spine, 0);
      head, spine := head.next, spine[1..];
    }

    // dequeue's second branch, for the node behind prev.
    method DropAfter(prev: Node, temp: Node, ghost k: nat)
      requires Valid() && 0 < k < |spine| && prev == spine[k - 1] && temp == spine[k]
      modifies `tail, `spine, prev`next
      ensures Valid() && spine == old(spine)[..k] + old(spine)[k + 1..]
      ensures tail != null
    {
      prev.next := temp.next;
      if temp == tail {
        tail := prev;
      }
      LinkedWithout(head, spine, k);
      spine := spine[..k] + spine[k + 1..];
    }

    // The relinking half of dequeue. prev is null when the node to remove is the head.
    method Drop(prev: Node?, temp: Node, ghost k: nat)
      requires Valid() && k < |spine| && temp == spine[k]
      requires prev == if k > 0 then spine[k - 1] else null
      requires prev != null ==> prev in Nodes(spine)
      modifies this, Nodes(spine)`next
      ensures Valid() && spine == old(spine)[..k] + old(spine)[k + 1..]
      ensures Stale() <==> |old(spine)| == 1
    {
      hide Linked, Nodes;
      if prev == null {
        DropHead();
      } else {
        DropAfter(prev, temp, k);
      }
    }

    // dequeue by uid. The tail is stale afterwards exactly when it was stale before or the
    // removed head was the last node.
    method Dequeue(uid: nat)
      requires Valid()
      modifies this, Nodes(spine)`next
      ensures Valid()
      ensures Contents() == Remove(old(Contents()), uid)
      ensures forall n :: n in spine ==> n in old(spine)
      ensures Stale() <==> old(Stale()) || (|old(spine)| == 1 && old(spine)[0].msg.uid == uid)
    {
      hide Values, Find, Remove, Linked, Nodes;
      var temp, prev; ghost var k;
      temp, prev, k := Search(uid);
      if temp == null {
        RemoveMissing(Contents(), uid);
      } else {
        RemovedValues(spine, k, uid);
        Drop(prev, temp, k);
      }
    }
  }
}
