// What the four message handlers of TOB/client_handle.c do to one process, as functions
// of its clock and queue. The class in Processes is proved to compute them.
module Handlers {
  import opened Uid
  import opened QueueSpec

  // A message on its way; Ack and Ready name a queued message by uid only. The pid an
  // Ack carries is the issuer's, and nobody reads it.
  datatype Packet =
    | Broad(msg: Message)
    | Ack(pid: nat, uid: nat)
    | Ready(uid: nat)

  // `to` is the index of the receiving process.
  datatype Envelope = Envelope(to: nat, packet: Packet)

  // `stale` says that the tail pointer still names a removed node while nothing is
  // queued; new nodes are then linked where head never finds them.
  datatype Proc = Proc(lc: nat, queue: seq<Entry>, stale: bool)

  datatype Outcome = Outcome(proc: Proc, sent: seq<Envelope>, written: seq<Message>)

  // One copy for every process, the sender included.
  function ToAll(n: nat, p: Packet): (s: seq<Envelope>)
    ensures |s| == n
    ensures forall i :: 0 <= i < n ==> s[i] == Envelope(i, p)
  {
    seq(n, (i: nat) => Envelope(i, p))
  }

  // What handle_issue hands on of the text it received: a terminator is added unless the
  // text ends in one already.
  function Terminated(text: string): string {
    if text != [] && text[|text| - 1] == '\0' then text else text + "\0"
  }

  // Nothing of the text is lost, the result ends in NUL, and it is longer by that only when
  // the text did not end in one.
  lemma TerminatedText(text: string)
    ensures var t := Terminated(text);
            && text <= t && t != [] && t[|t| - 1] == '\0'
            && |t| == |text| + (if text != [] && text[|text| - 1] == '\0' then 0 else 1)
  {
  }

  // handle_issue and total_broadcast: the uid is made from the first tick of the clock,
  // the timestamp that travels is the second. Nothing is enqueued here.
  function IssuedMessage(p: Proc, pid: nat, src: nat, text: string): Message {
    Message(pid, src, Tick(Tick(p.lc)), GenerateUid(pid, Tick(p.lc)), Terminated(text))
  }

  function OnIssue(p: Proc, n: nat, pid: nat, src: nat, text: string): Outcome {
    var m := IssuedMessage(p, pid, src, text);
    Outcome(p.(lc := m.lc), ToAll(n, Broad(m)), [])
  }

  function Max(a: nat, b: nat): nat {
    if a > b then a else b
  }

  // check_and_ack_head on a sorted queue: a head not acked yet is acked to its issuer.
  function AckHead(q: seq<Entry>): seq<Entry> {
    if q != [] && !q[0].acked then q[0 := q[0].(acked := true)] else q
  }

  function HeadAck(q: seq<Entry>): seq<Envelope> {
    if q != [] && !q[0].acked then [Envelope(q[0].msg.src, Ack(q[0].msg.pid, q[0].msg.uid))] else []
  }

  // handle_broadcast.
  function Arrived(p: Proc, m: Message): seq<Entry> {
    Sort(if p.stale then p.queue else p.queue + [Entry(m, false, 0)])
  }

  function OnBroad(p: Proc, m: Message): Outcome {
    var q := Arrived(p, m);
    Outcome(p.(lc := Max(m.lc, Tick(p.lc)), queue := AckHead(q)), HeadAck(q), [])
  }

  // handle_ack: the ack that completes the count makes the message ready and writes it.
  // An ack for a uid that is not queued is dropped.
  function OnAck(p: Proc, n: nat, uid: nat): Outcome {
    var i := Find(p.queue, uid);
    if i == |p.queue| then Outcome(p, [], [])
    else
      var e := p.queue[i].(acks := p.queue[i].acks + 1);
      var q := p.queue[i := e];
      if e.acks == n then Outcome(p.(lc := Tick(p.lc), queue := q), ToAll(n, Ready(uid)), [e.msg])
      else Outcome(p.(queue := q), [], [])
  }

  // handle_ready. With `resets` false this is dequeue as written, which forgets to clear
  // tail when the removed head was the last node; with `resets` true it clears it.
  function OnReady(p: Proc, resets: bool, uid: nat): Outcome {
    var emptied := |p.queue| == 1 && p.queue[0].msg.uid == uid;
    Outcome(p.(queue := Remove(p.queue, uid), stale := p.stale || (emptied && !resets)), [], [])
  }
}
