// What every state of every run satisfies.
module Invariants {
  import opened Uid
  import opened QueueSpec
  import opened Handlers
  import opened Broadcast

  // ----- The invariant, one concern at a time -----

  // Issued messages carry their issuer's pid, a timestamp no later than its clock and the
  // uid made one tick earlier; one process never uses a timestamp twice.
  ghost predicate IssuedOk(c: Config, s: State) {
    && (forall m :: m in s.hist.issued ==> GoodMessage(c, s, m))
    && (forall a, b :: a in s.hist.issued && b in s.hist.issued && a.src == b.src && a.lc == b.lc ==> a == b)
  }

  ghost predicate GoodMessage(c: Config, s: State, m: Message) {
    && m.src < |s.procs| && m.src < |c.pids|
    && m.pid == c.pids[m.src]
    && 2 <= m.lc <= s.procs[m.src].lc
    && m.uid == GenerateUid(m.pid, m.lc - 1)
  }

  // A BROAD is in flight to every process that has not handled it, once.
  ghost predicate BroadOk(c: Config, s: State) {
    && (forall j :: 0 <= j < |s.hist.handled| ==> s.hist.handled[j] <= s.hist.issued)
    && (forall j, m {:trigger s.net[Envelope(j, Broad(m))]} ::
          s.net[Envelope(j, Broad(m))] == if AwaitsBroad(s, j, m) then 1 else 0)
  }

  ghost predicate AwaitsBroad(s: State, j: nat, m: Message) {
    j < |s.hist.handled| && m in s.hist.issued && m !in s.hist.handled[j]
  }

  // Queues are sorted and hold handled messages only; ack_flg records the ACK sent; only
  // the issuer's own copy counts ACKs.
  ghost predicate QueueOk(p: Proc, j: nat, handled: set<Message>, acked: set<Message>, counted: multiset<nat>) {
    && StrictlySorted(p.queue)
    && acked <= handled
    && (p.stale ==> p.queue == [])
    && (forall i :: 0 <= i < |p.queue| ==> EntryOk(p.queue[i], j, handled, acked, counted))
  }

  ghost predicate EntryOk(e: Entry, j: nat, handled: set<Message>, acked: set<Message>, counted: multiset<nat>) {
    && e.msg in handled
    && (e.acked <==> e.msg in acked)
    && e.acks == if e.msg.src == j then counted[e.msg.uid] else 0
  }

  ghost predicate QueuesOk(s: State) {
    forall j :: 0 <= j < |s.procs| && j < |s.hist.handled| && j < |s.hist.acked| ==>
      QueueOk(s.procs[j], j, s.hist.handled[j], s.hist.acked[j], s.hist.counted)
  }

  // A handled message is still queued unless it has been written; an acked one even
  // where a stale tail swallows later arrivals.
  ghost predicate PlacedOk(s: State) {
    forall j, m :: 0 <= j < |s.procs| && j < |s.hist.handled| && j < |s.hist.acked| &&
      (m in s.hist.acked[j] || (m in s.hist.handled[j] && !s.procs[j].stale))
      ==> Queued(s.procs[j].queue, m) || m in s.log
  }

  // A READY is in flight to every process that still queues a written message, once.
  ghost predicate ReadyDue(s: State, j: nat, uid: nat) {
    j < |s.procs| && exists i :: 0 <= i < |s.procs[j].queue| && s.procs[j].queue[i].msg.uid == uid &&
                                 s.procs[j].queue[i].msg in s.log
  }

  ghost predicate ReadyOk(s: State) {
    forall j, uid {:trigger s.net[Envelope(j, Ready(uid))]} ::
      s.net[Envelope(j, Ready(uid))] == if ReadyDue(s, j, uid) then 1 else 0
  }

  // The processes that have acked m.
  ghost function Ackers(s: State, m: Message): set<nat> {
    set j | 0 <= j < |s.hist.acked| && m in s.hist.acked[j]
  }

  // Every ACK ever sent for m is counted, dropped or in flight.
  ghost predicate CountOk(s: State) {
    && (forall m :: m in s.hist.issued ==> AcksBalance(s, m))
    && (forall m :: m in s.hist.issued && !HasHandled(s, m.src, m) ==> s.hist.counted[m.uid] == 0)
  }

  ghost predicate AcksBalance(s: State, m: Message) {
    s.hist.counted[m.uid] + s.hist.dropped[m.uid] + s.net[Envelope(m.src, Ack(m.pid, m.uid))] == |Ackers(s, m)|
  }

  ghost predicate HasHandled(s: State, j: nat, m: Message) {
    j < |s.hist.handled| && m in s.hist.handled[j]
  }

  // ACKs name issued messages and travel to their issuers.
  ghost predicate AcksKnown(s: State) {
    && (forall j, pid, uid :: Envelope(j, Ack(pid, uid)) in s.net ==>
          exists m :: m in s.hist.issued && m.src == j && m.pid == pid && m.uid == uid)
    && (forall uid :: uid in s.hist.counted || uid in s.hist.dropped ==>
          exists m :: m in s.hist.issued && m.uid == uid)
  }

  // The log holds a message exactly when its issuer has counted an ACK from everyone.
  ghost predicate LogOk(c: Config, s: State) {
    && (forall i, j :: 0 <= i < j < |s.log| ==> s.log[i] != s.log[j])
    && (forall m :: m in s.log ==> m in s.hist.issued)
    && (forall m :: m in s.hist.issued ==> (m in s.log <==> s.hist.counted[m.uid] == |c.pids|))
  }

  ghost predicate ClockOk(s: State) {
    forall j, m :: 0 <= j < |s.procs| && j < |s.hist.handled| && m in s.hist.handled[j] ==> m.lc <= s.procs[j].lc
  }

  ghost predicate Inv(c: Config, s: State) {
    && ConfigOk(c) && Shaped(c, s) && InRange(s)
    && IssuedOk(c, s) && BroadOk(c, s) && QueuesOk(s) && PlacedOk(s) && ReadyOk(s)
    && CountOk(s) && AcksKnown(s) && LogOk(c, s) && ClockOk(s)
  }

  // ----- Consequences within one state -----

  lemma UidNamesOne(c: Config, s: State, a: Message, b: Message)
    requires ConfigOk(c) && Shaped(c, s) && InRange(s) && IssuedOk(c, s)
    requires a in s.hist.issued && b in s.hist.issued && a.uid == b.uid
    ensures a == b
  {
    assert GoodMessage(c, s, a) && GoodMessage(c, s, b);
    UidInjective(a.pid, a.lc - 1, b.pid, b.lc - 1);
    assert a.src == b.src;
  }

  // Two issued messages are always ordered one way or the other.
  lemma BeforeTotal(c: Config, s: State, a: Message, b: Message)
    requires ConfigOk(c) && Shaped(c, s) && IssuedOk(c, s)
    requires a in s.hist.issued && b in s.hist.issued && a != b
    ensures Before(a, b) || Before(b, a)
  {
    assert GoodMessage(c, s, a) && GoodMessage(c, s, b);
  }

  lemma AckersBounded(c: Config, s: State, m: Message)
    requires Shaped(c, s)
    ensures |Ackers(s, m)| <= |c.pids|
    ensures |Ackers(s, m)| == |c.pids| ==> forall j :: 0 <= j < |c.pids| ==> m in s.hist.acked[j]
  {
    var all := UpTo(|c.pids|);
    SubsetSize(Ackers(s, m), all);
    forall j | 0 <= j < |c.pids| && |Ackers(s, m)| == |c.pids| ensures m in s.hist.acked[j] {
      assert j in all;
      assert j in Ackers(s, m);
    }
  }

  ghost function UpTo(n: nat): (r: set<nat>)
    ensures |r| == n
    ensures forall j: nat :: j in r <==> j < n
  {
    if n == 0 then {} else UpTo(n - 1) + {n - 1}
  }

  lemma {:induction false} SubsetSize(a: set<nat>, b: set<nat>)
    requires a <= b
    ensures |a| <= |b|
    ensures |a| == |b| ==> a == b
  {
    if a != {} {
      var x :| x in a;
      SubsetSize(a - {x}, b - {x});
    }
  }
}
