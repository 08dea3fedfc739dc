// One process of the broadcast system: a Lamport clock and the node queue, updated in
// place by the handlers of TOB/client_handle.c, which run one at a time.
module Processes {
  import opened Uid
  import opened QueueSpec
  import opened Handlers
  import opened NodeQueues

  class Process {
    const pid: nat      // getpid()
    const index: nat    // the process listens on BASEPORT + index
    const nprocs: nat
    var lc: nat
    const queue: NodeQueue

    ghost predicate Valid()
      reads this, queue, queue.spine`next
    {
      queue.Valid() && forall n :: n in queue.spine ==> n.nprocs == nprocs
    }

    ghost function State(): Proc
      reads this, queue, queue.spine`ackFlg, queue.spine`ackCount
    {
      Proc(lc, queue.Contents(), queue.Stale())
    }

    // What the handlers may change: the process, its queue and the queue's nodes.
    ghost function Footprint(): set<object>
      reads this, queue
    {
      {this, queue} + Nodes(queue.spine) + (if queue.tail == null then {} else {queue.tail})
    }

    constructor (pid: nat, index: nat, nprocs: nat)
      ensures Valid() && State() == Proc(0, [], false)
      ensures this.pid == pid && this.index == index && this.nprocs == nprocs
      ensures fresh(queue)
    {
      this.pid, this.index, this.nprocs := pid, index, nprocs;
      lc := 0;
      queue := new NodeQueue();
    }

    method HandleIssue(text: string) returns (sent: seq<Envelope>, written: seq<Message>)
      requires Valid()
      modifies `lc
      ensures Valid()
      ensures Outcome(State(), sent, written) == OnIssue(old(State()), nprocs, pid, index, text)
    {
      lc := Tick(lc);
      var buffer := text;
      if buffer == [] || buffer[|buffer| - 1] != '\0' {
        buffer := buffer + "\0";
      }
      var uid := GenerateUid(pid, lc);
      lc := Tick(lc);
      sent, written := ToAll(nprocs, Broad(Message(pid, index, lc, uid, buffer))), [];
    }

    method HandleBroadcast(m: Message) returns (sent: seq<Envelope>, written: seq<Message>)
      requires Valid()
      modifies Footprint()
      ensures Valid()
      ensures Outcome(State(), sent, written) == OnBroad(old(State()), m)
    {
      hide Values, Sort, Linked;
      lc := Tick(lc);
      if m.lc > lc {
        lc := m.lc;
      }
      var node := new Node(m, nprocs);
      queue.Enqueue(node);
      assert Sort(queue.Contents()) == Arrived(old(State()), m);
      sent := CheckAndAckHead();
      written := [];
    }

    method CheckAndAckHead() returns (sent: seq<Envelope>)
      requires Valid()
      modifies queue, Nodes(queue.spine)
      ensures Valid() && queue.Stale() == old(queue.Stale())
      ensures queue.Contents() == AckHead(Sort(old(queue.Contents())))
      ensures sent == HeadAck(Sort(old(queue.Contents())))
    {
      hide Values, Linked, Sort, Nodes;
      queue.OrderQueue();
      ShortList(queue.head, queue.spine);
      Members(queue.spine);
      sent := [];
      if queue.head != null && !queue.head.ackFlg {
        sent := AckNode(queue.head);
      }
    }

    // The assignment of check_and_ack_head and the send_p2p_ack that follows it.
    method AckNode(head: Node) returns (sent: seq<Envelope>)
      requires queue.spine != [] && queue.spine[0] == head && !head.ackFlg
      requires queue.Valid()
      modifies head`ackFlg
      ensures queue.Contents() == AckHead(old(queue.Contents()))
      ensures sent == HeadAck(old(queue.Contents()))
    {
      hide Values;
      var s := queue.spine;
      ghost var q := queue.Contents();
      head.ackFlg := true;
      sent := [Envelope(head.msg.src, Ack(head.msg.pid, head.msg.uid))];
      forall i | 0 <= i < |q| ensures queue.Contents()[i] == AckHead(q)[i] {
        assert queue.spine[i] == head ==> i == 0;
      }
    }

    method HandleAck(uid: nat) returns (sent: seq<Envelope>, written: seq<Message>)
      requires Valid()
      modifies `lc, Nodes(queue.spine)`ackCount
      ensures Valid()
      ensures Outcome(State(), sent, written) == OnAck(old(State()), nprocs, uid)
    {
      hide Values, Find, Linked, Nodes, OnAck;
      Members(queue.spine);
      sent, written := [], [];
      ghost var p, i := State(), Find(queue.Contents(), uid);
      var node := queue.FindNode(uid);
      AckOutcomes(p, nprocs, uid);
      if node != null {
        assert p.queue[i] == node.Value();
        CountAck(node, i);
        if node.ackCount == node.nprocs {
          lc := Tick(lc);
          sent := ToAll(nprocs, Ready(node.msg.uid));
          written := [node.msg];
        }
      }
    }

    lemma AckOutcomes(p: Proc, n: nat, uid: nat)
      ensures var i := Find(p.queue, uid);
              && (i == |p.queue| ==> OnAck(p, n, uid) == Outcome(p, [], []))
              && (i < |p.queue| ==>
                    var e := p.queue[i].(acks := p.queue[i].acks + 1);
                    OnAck(p, n, uid) ==
                      if e.acks == n
                      then Outcome(p.(lc := Tick(p.lc), queue := p.queue[i := e]), ToAll(n, Ready(uid)), [e.msg])
                      else Outcome(p.(queue := p.queue[i := e]), [], []))
    {
    }

    method CountAck(node: Node, ghost i: nat)
      requires queue.Valid() && i < |queue.spine| && queue.spine[i] == node
      modifies node`ackCount
      ensures node.ackCount == old(node.ackCount) + 1
      ensures queue.Contents() ==
              var q := old(queue.Contents()); q[i := q[i].(acks := q[i].acks + 1)]
    {
      hide Values;
      ghost var q := queue.Contents();
      node.ackCount := node.ackCount + 1;
      forall j | 0 <= j < |q|
        ensures queue.Contents()[j] == if j == i then q[i].(acks := q[i].acks + 1) else q[j]
      {
        assert queue.spine[j] == node ==> i == j;
      }
    }

    method HandleReady(uid: nat) returns (sent: seq<Envelope>, written: seq<Message>)
      requires Valid()
      modifies queue, Nodes(queue.spine)`next
      ensures Valid()
      ensures Outcome(State(), sent, written) == OnReady(old(State()), false, uid)
    {
      hide Values, Find, Remove, Linked;
      queue.Dequeue(uid);
      sent, written := [], [];
    }
  }
}
