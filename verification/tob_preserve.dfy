// Every event of a run keeps the invariant.
module Preservation {
  import opened Uid
  import opened QueueSpec
  import opened Handlers
  import opened Broadcast
  import opened Invariants

  lemma InitInv(c: Config)
    requires ConfigOk(c)
    ensures Inv(c, Init(c))
  {
  }

  // ----- Issue -----

  lemma IssueFresh(c: Config, s: State, i: nat, body: string)
    requires Inv(c, s) && i < |c.pids| && InRange(StepIssue(c, s, i, body))
    ensures var m := IssuedMessage(s.procs[i], c.pids[i], i, body);
            && m.lc == s.procs[i].lc + 2 < CLOCK_SPAN
            && m !in s.hist.issued
            && (forall a :: a in s.hist.issued ==> a.uid != m.uid)
            && (forall a :: a in s.hist.issued && a.src == i ==> a.lc < m.lc)
            && StepIssue(c, s, i, body).procs == s.procs[i := s.procs[i].(lc := m.lc)]
  {
    hide GenerateUid, BroadOk, QueuesOk, PlacedOk, ReadyOk, CountOk, AcksKnown, LogOk, ClockOk, ToAll;
    var m := IssuedMessage(s.procs[i], c.pids[i], i, body);
    var s' := StepIssue(c, s, i, body);
    assert s'.procs[i].lc == m.lc;
    forall a | a in s.hist.issued ensures a.uid != m.uid {
      assert GoodMessage(c, s, a);
      if a.uid == m.uid {
        UidInjective(a.pid, a.lc - 1, m.pid, m.lc - 1);
        assert false;
      }
    }
    forall a | a in s.hist.issued && a.src == i ensures a.lc < m.lc {
      assert GoodMessage(c, s, a);
    }
  }

  lemma IssueMessages(c: Config, s: State, i: nat, body: string)
    requires Inv(c, s) && i < |c.pids| && InRange(StepIssue(c, s, i, body))
    ensures IssuedOk(c, StepIssue(c, s, i, body))
  {
    hide GenerateUid, BroadOk, QueuesOk, PlacedOk, ReadyOk, CountOk, AcksKnown, LogOk, ClockOk, ToAll;
    IssueFresh(c, s, i, body);
    var s' := StepIssue(c, s, i, body);
    forall m | m in s'.hist.issued ensures GoodMessage(c, s', m) {
      assert m in s.hist.issued ==> GoodMessage(c, s, m);
      assert m !in s.hist.issued ==> m.uid == GenerateUid(c.pids[i], Tick(s.procs[i].lc));
    }
  }

  lemma IssueNet(c: Config, s: State, i: nat, body: string)
    requires Inv(c, s) && i < |c.pids| && InRange(StepIssue(c, s, i, body))
    ensures BroadOk(c, StepIssue(c, s, i, body)) && ReadyOk(StepIssue(c, s, i, body))
    ensures forall e: Envelope :: !e.packet.Broad? ==> StepIssue(c, s, i, body).net[e] == s.net[e]
  {
    hide GenerateUid, IssuedOk, QueuesOk, PlacedOk, CountOk, AcksKnown, LogOk, ClockOk, ToAll;
    IssueFresh(c, s, i, body);
    var s' := StepIssue(c, s, i, body);
    var m := IssuedMessage(s.procs[i], c.pids[i], i, body);
    forall e: Envelope
      ensures s'.net[e] == s.net[e] + if e.to < |c.pids| && e.packet == Broad(m) then 1 else 0
    {
      ToAllCount(|c.pids|, Broad(m), e);
    }
    forall j: nat, a ensures s'.net[Envelope(j, Broad(a))] == if AwaitsBroad(s', j, a) then 1 else 0 {
      assert s.net[Envelope(j, Broad(a))] == if AwaitsBroad(s, j, a) then 1 else 0;
    }
    forall j: nat, uid: nat ensures s'.net[Envelope(j, Ready(uid))] == if ReadyDue(s', j, uid) then 1 else 0 {
      assert s.net[Envelope(j, Ready(uid))] == if ReadyDue(s, j, uid) then 1 else 0;
      if j < |s.procs| { assert s'.procs[j].queue == s.procs[j].queue; }
    }
  }

  // Nothing is known about the new message's uid yet.
  lemma IssueUnused(c: Config, s: State, i: nat, body: string)
    requires Inv(c, s) && i < |c.pids| && InRange(StepIssue(c, s, i, body))
    ensures var m := IssuedMessage(s.procs[i], c.pids[i], i, body);
            && s.hist.counted[m.uid] == 0 && s.hist.dropped[m.uid] == 0
            && s.net[Envelope(i, Ack(m.pid, m.uid))] == 0 && Ackers(s, m) == {}
  {
    hide GenerateUid, IssuedOk, ReadyOk, PlacedOk, ClockOk, ToAll, CountOk, LogOk, StepIssue;
    IssueFresh(c, s, i, body);
    var m := IssuedMessage(s.procs[i], c.pids[i], i, body);
    assert m.uid !in s.hist.counted && m.uid !in s.hist.dropped;
    assert Envelope(i, Ack(m.pid, m.uid)) !in s.net;
    forall j | 0 <= j < |s.hist.acked| ensures m !in s.hist.acked[j] {
      assert QueueOk(s.procs[j], j, s.hist.handled[j], s.hist.acked[j], s.hist.counted);
    }
  }

  lemma IssueCounts(c: Config, s: State, i: nat, body: string)
    requires Inv(c, s) && i < |c.pids| && InRange(StepIssue(c, s, i, body))
    ensures CountOk(StepIssue(c, s, i, body))
  {
    hide GenerateUid, IssuedOk, QueuesOk, ReadyOk, BroadOk, AcksKnown, PlacedOk, ClockOk, LogOk, ToAll;
    IssueUnused(c, s, i, body);
    IssueNet(c, s, i, body);
    var s' := StepIssue(c, s, i, body);
    forall a | a in s'.hist.issued ensures AcksBalance(s', a) {
      assert Ackers(s', a) == Ackers(s, a);
      assert a in s.hist.issued ==> AcksBalance(s, a);
    }
    forall a | a in s'.hist.issued && !HasHandled(s', a.src, a) ensures s'.hist.counted[a.uid] == 0 {
      assert a in s.hist.issued ==> !HasHandled(s, a.src, a);
    }
  }

  lemma IssueAcks(c: Config, s: State, i: nat, body: string)
    requires Inv(c, s) && i < |c.pids| && InRange(StepIssue(c, s, i, body))
    ensures AcksKnown(StepIssue(c, s, i, body)) && LogOk(c, StepIssue(c, s, i, body))
  {
    hide GenerateUid, IssuedOk, QueuesOk, ReadyOk, BroadOk, CountOk, PlacedOk, ClockOk, ToAll;
    IssueFresh(c, s, i, body);
    IssueUnused(c, s, i, body);
    IssueNet(c, s, i, body);
    var s' := StepIssue(c, s, i, body);
    forall j, pid, uid | Envelope(j, Ack(pid, uid)) in s'.net
      ensures exists m :: m in s'.hist.issued && m.src == j && m.pid == pid && m.uid == uid
    {
      assert s'.net[Envelope(j, Ack(pid, uid))] == s.net[Envelope(j, Ack(pid, uid))];
      var m :| m in s.hist.issued && m.src == j && m.pid == pid && m.uid == uid;
      assert m in s'.hist.issued;
    }
    forall uid | uid in s'.hist.counted || uid in s'.hist.dropped
      ensures exists m :: m in s'.hist.issued && m.uid == uid
    {
      var m :| m in s.hist.issued && m.uid == uid;
      assert m in s'.hist.issued;
    }
  }

  lemma IssueQueues(c: Config, s: State, i: nat, body: string)
    requires Inv(c, s) && i < |c.pids| && InRange(StepIssue(c, s, i, body))
    ensures var s' := StepIssue(c, s, i, body); QueuesOk(s') && PlacedOk(s') && ClockOk(s')
  {
    hide GenerateUid, IssuedOk, ReadyOk, BroadOk, CountOk, AcksKnown, LogOk, ToAll;
    IssueFresh(c, s, i, body);
    var s' := StepIssue(c, s, i, body);
    forall j | 0 <= j < |s'.procs|
      ensures QueueOk(s'.procs[j], j, s'.hist.handled[j], s'.hist.acked[j], s'.hist.counted)
    {
      assert QueueOk(s.procs[j], j, s.hist.handled[j], s.hist.acked[j], s.hist.counted);
    }
  }

  lemma IssueKeepsInv(c: Config, s: State, i: nat, body: string)
    requires Inv(c, s) && i < |c.pids| && InRange(StepIssue(c, s, i, body))
    ensures Inv(c, StepIssue(c, s, i, body))
  {
    hide IssuedOk, BroadOk, QueuesOk, PlacedOk, ReadyOk, CountOk, AcksKnown, LogOk, ClockOk, StepIssue;
    IssueMessages(c, s, i, body);
    IssueNet(c, s, i, body);
    IssueCounts(c, s, i, body);
    IssueAcks(c, s, i, body);
    IssueQueues(c, s, i, body);
    IssueShape(c, s, i, body);
  }

  lemma IssueShape(c: Config, s: State, i: nat, body: string)
    requires Shaped(c, s) && i < |c.pids|
    ensures Shaped(c, StepIssue(c, s, i, body))
  {
  }

  // ----- BROAD -----

  ghost predicate BroadArrives(c: Config, s: State, j: nat, m: Message) {
    Inv(c, s) && j < |c.pids| && Envelope(j, Broad(m)) in s.net
  }

  lemma ArrivingMessage(c: Config, s: State, j: nat, m: Message)
    requires BroadArrives(c, s, j, m)
    ensures m in s.hist.issued && m !in s.hist.handled[j] && m !in s.log
    ensures m.src == j ==> s.hist.counted[m.uid] == 0
    ensures StepBroad(c, s, j, m).procs[j].lc == Max(m.lc, s.procs[j].lc + 1)
  {
    hide IssuedOk, PlacedOk, ReadyOk, AcksKnown, ClockOk, Arrived;
    assert s.net[Envelope(j, Broad(m))] == if AwaitsBroad(s, j, m) then 1 else 0;
    assert AcksBalance(s, m);
    AckersBounded(c, s, m);
    assert QueueOk(s.procs[j], j, s.hist.handled[j], s.hist.acked[j], s.hist.counted);
    assert s.procs[j].lc < CLOCK_SPAN;
  }

  // The sorted queue right after the arrival, before its head is acked.
  lemma ArrivedQueue(c: Config, s: State, j: nat, m: Message)
    requires BroadArrives(c, s, j, m)
    ensures var q := Arrived(s.procs[j], m);
            && StrictlySorted(q)
            && (s.procs[j].stale ==> q == [])
            && (!s.procs[j].stale ==> forall x :: Queued(q, x) <==> Queued(s.procs[j].queue, x) || x == m)
            && (forall i :: 0 <= i < |q| ==>
                  EntryOk(q[i], j, s.hist.handled[j] + {m}, s.hist.acked[j], s.hist.counted))
  {
    hide IssuedOk, BroadOk, PlacedOk, ReadyOk, CountOk, AcksKnown, LogOk, ClockOk, Insert, Sort, Queued, StepBroad;
    ArrivingMessage(c, s, j, m);
    var p := s.procs[j];
    assert QueueOk(p, j, s.hist.handled[j], s.hist.acked[j], s.hist.counted);
    StrictIsSorted(p.queue);
    if p.stale {
      SortOfSorted([]);
    } else {
      var e := Entry(m, false, 0);
      SortAppend(p.queue, e);
      InsertMembers(p.queue, e);
      forall i | 0 <= i < |p.queue|
        ensures Before(p.queue[i].msg, m) || Before(m, p.queue[i].msg)
      {
        assert p.queue[i].msg in s.hist.issued by { assert EntryOk(p.queue[i], j, s.hist.handled[j], s.hist.acked[j], s.hist.counted); HandledIssued(c, s, j); }
        BeforeTotal(c, s, p.queue[i].msg, m);
      }
      InsertStrict(p.queue, e);
    }
  }

  lemma HandledIssued(c: Config, s: State, j: nat)
    requires BroadOk(c, s) && j < |s.hist.handled|
    ensures s.hist.handled[j] <= s.hist.issued
  {
  }

  // check_and_ack_head changes no message and no order; it marks the head as acked.
  lemma AckHeadQueue(q: seq<Entry>, j: nat, handled: set<Message>, acked: set<Message>, counted: multiset<nat>)
    requires StrictlySorted(q)
    requires forall i :: 0 <= i < |q| ==> EntryOk(q[i], j, handled, acked, counted)
    ensures |AckHead(q)| == |q| && forall i :: 0 <= i < |q| ==> AckHead(q)[i].msg == q[i].msg
    ensures StrictlySorted(AckHead(q))
    ensures forall x :: Queued(AckHead(q), x) <==> Queued(q, x)
    ensures forall i :: 0 <= i < |q| ==>
              EntryOk(AckHead(q)[i], j, handled, acked + NewlyAcked(q), counted)
  {
    var r := AckHead(q);
    forall i | 0 <= i < |q| ensures EntryOk(r[i], j, handled, acked + NewlyAcked(q), counted) {
      assert EntryOk(q[i], j, handled, acked, counted);
      assert i > 0 ==> Before(q[0].msg, q[i].msg);
    }
    forall x ensures Queued(r, x) <==> Queued(q, x) {
      if Queued(q, x) {
        var i :| 0 <= i < |q| && q[i].msg == x;
        assert r[i].msg == x;
      }
    }
  }

  lemma NewAckFacts(c: Config, s: State, j: nat, m: Message, x: Message)
    requires BroadArrives(c, s, j, m) && x in NewlyAcked(Arrived(s.procs[j], m))
    ensures x in s.hist.handled[j] + {m} && x !in s.hist.acked[j] && x in s.hist.issued
    ensures Queued(Arrived(s.procs[j], m), x)
    ensures HeadAck(Arrived(s.procs[j], m)) == [Envelope(x.src, Ack(x.pid, x.uid))]
  {
    hide IssuedOk, PlacedOk, ReadyOk, CountOk, AcksKnown, LogOk, ClockOk, QueuesOk, Sort, Arrived;
    ArrivedQueue(c, s, j, m);
    ArrivingMessage(c, s, j, m);
    var q := Arrived(s.procs[j], m);
    assert EntryOk(q[0], j, s.hist.handled[j] + {m}, s.hist.acked[j], s.hist.counted);
  }

  lemma BroadQueues(c: Config, s: State, j: nat, m: Message)
    requires BroadArrives(c, s, j, m)
    ensures QueuesOk(StepBroad(c, s, j, m))
  {
    hide IssuedOk, BroadOk, PlacedOk, ReadyOk, CountOk, AcksKnown, LogOk, ClockOk, Arrived, AckHead, NewlyAcked, EntryOk;
    var s' := StepBroad(c, s, j, m);
    var q := Arrived(s.procs[j], m);
    ArrivedQueue(c, s, j, m);
    AckHeadQueue(q, j, s.hist.handled[j] + {m}, s.hist.acked[j], s.hist.counted);
    forall k | 0 <= k < |s'.procs|
      ensures QueueOk(s'.procs[k], k, s'.hist.handled[k], s'.hist.acked[k], s'.hist.counted)
    {
      assert QueueOk(s.procs[k], k, s.hist.handled[k], s.hist.acked[k], s.hist.counted);
      if k == j {
        forall x | x in NewlyAcked(q) ensures x in s.hist.handled[j] + {m} {
          NewAckFacts(c, s, j, m, x);
        }
      }
    }
  }

  lemma BroadQueued(c: Config, s: State, j: nat, m: Message)
    requires BroadArrives(c, s, j, m)
    ensures var s' := StepBroad(c, s, j, m);
            && s'.procs[j].stale == s.procs[j].stale
            && (s.procs[j].stale ==> s.procs[j].queue == s'.procs[j].queue == [])
            && (!s.procs[j].stale ==>
                  forall x :: Queued(s'.procs[j].queue, x) <==> Queued(s.procs[j].queue, x) || x == m)
  {
    hide IssuedOk, BroadOk, PlacedOk, ReadyOk, CountOk, AcksKnown, LogOk, ClockOk, Arrived, Queued, EntryOk;
    var q := Arrived(s.procs[j], m);
    ArrivedQueue(c, s, j, m);
    AckHeadQueue(q, j, s.hist.handled[j] + {m}, s.hist.acked[j], s.hist.counted);
    assert QueueOk(s.procs[j], j, s.hist.handled[j], s.hist.acked[j], s.hist.counted);
  }

  lemma BroadPlaced(c: Config, s: State, j: nat, m: Message)
    requires BroadArrives(c, s, j, m)
    ensures PlacedOk(StepBroad(c, s, j, m)) && ClockOk(StepBroad(c, s, j, m))
  {
    hide IssuedOk, BroadOk, ReadyOk, CountOk, AcksKnown, LogOk, Arrived, AckHead, Queued, QueuesOk, NewlyAcked;
    var s' := StepBroad(c, s, j, m);
    ArrivingMessage(c, s, j, m);
    BroadQueued(c, s, j, m);
    forall k, x | 0 <= k < |s'.procs| &&
      (x in s'.hist.acked[k] || (x in s'.hist.handled[k] && !s'.procs[k].stale))
      ensures Queued(s'.procs[k].queue, x) || x in s'.log
    {
      if k == j && x !in s.hist.acked[j] && x in s'.hist.acked[j] {
        NewAckFacts(c, s, j, m, x);
        ArrivedQueue(c, s, j, m);
        NotStaleWhenQueued(c, s, j, m, x);
      }
    }
  }

  lemma NotStaleWhenQueued(c: Config, s: State, j: nat, m: Message, x: Message)
    requires BroadArrives(c, s, j, m) && Queued(Arrived(s.procs[j], m), x)
    ensures !s.procs[j].stale && (Queued(s.procs[j].queue, x) || x == m)
  {
    hide Inv, Arrived, StepBroad;
    ArrivedQueue(c, s, j, m);
  }

  lemma BroadNet(c: Config, s: State, j: nat, m: Message)
    requires BroadArrives(c, s, j, m)
    ensures BroadOk(c, StepBroad(c, s, j, m)) && ReadyOk(StepBroad(c, s, j, m))
  {
    hide IssuedOk, PlacedOk, QueuesOk, CountOk, AcksKnown, LogOk, ClockOk, Arrived, AckHead, NewlyAcked, Queued;
    var s' := StepBroad(c, s, j, m);
    ArrivingMessage(c, s, j, m);
    forall k: nat, a
      ensures s'.net[Envelope(k, Broad(a))] == if AwaitsBroad(s', k, a) then 1 else 0
    {
      assert s.net[Envelope(k, Broad(a))] == if AwaitsBroad(s, k, a) then 1 else 0;
    }
    forall k: nat, uid: nat
      ensures s'.net[Envelope(k, Ready(uid))] == if ReadyDue(s', k, uid) then 1 else 0
    {
      assert s.net[Envelope(k, Ready(uid))] == if ReadyDue(s, k, uid) then 1 else 0;
      ReadyDueSame(c, s, j, m, k, uid);
    }
  }

  lemma ReadyDueSame(c: Config, s: State, j: nat, m: Message, k: nat, uid: nat)
    requires BroadArrives(c, s, j, m)
    ensures ReadyDue(StepBroad(c, s, j, m), k, uid) <==> ReadyDue(s, k, uid)
  {
    hide IssuedOk, PlacedOk, ReadyOk, QueuesOk, CountOk, AcksKnown, LogOk, ClockOk, Arrived, AckHead, NewlyAcked;
    ArrivingMessage(c, s, j, m);
    BroadQueued(c, s, j, m);
    var s' := StepBroad(c, s, j, m);
    if k == j {
      DueByMessage(s, j, uid);
      DueByMessage(s', j, uid);
    }
  }

  // A due READY, in terms of messages instead of positions.
  lemma DueByMessage(s: State, j: nat, uid: nat)
    requires j < |s.procs|
    ensures ReadyDue(s, j, uid) <==> exists x :: Queued(s.procs[j].queue, x) && x.uid == uid && x in s.log
  {
    if ReadyDue(s, j, uid) {
      var i :| 0 <= i < |s.procs[j].queue| && s.procs[j].queue[i].msg.uid == uid && s.procs[j].queue[i].msg in s.log;
      assert Queued(s.procs[j].queue, s.procs[j].queue[i].msg);
    }
  }

  lemma BroadAckers(c: Config, s: State, j: nat, m: Message, a: Message)
    requires BroadArrives(c, s, j, m)
    ensures var s' := StepBroad(c, s, j, m);
            var isNew := a in NewlyAcked(Arrived(s.procs[j], m));
            && Ackers(s', a) == Ackers(s, a) + (if isNew then {j} else {})
            && (isNew ==> j !in Ackers(s, a))
  {
    hide IssuedOk, BroadOk, PlacedOk, ReadyOk, CountOk, QueuesOk, AcksKnown, LogOk, ClockOk, Arrived, NewlyAcked;
    if a in NewlyAcked(Arrived(s.procs[j], m)) {
      NewAckFacts(c, s, j, m, a);
    }
  }

  // The one ACK a BROAD can set off is for the newly acked message.
  lemma BroadAckNet(c: Config, s: State, j: nat, m: Message, a: Message)
    requires BroadArrives(c, s, j, m) && a in s.hist.issued
    ensures StepBroad(c, s, j, m).net[Envelope(a.src, Ack(a.pid, a.uid))]
         == s.net[Envelope(a.src, Ack(a.pid, a.uid))] + if a in NewlyAcked(Arrived(s.procs[j], m)) then 1 else 0
  {
    hide BroadOk, PlacedOk, ReadyOk, CountOk, QueuesOk, AcksKnown, LogOk, ClockOk, Arrived, AckHead, IssuedOk;
    var q := Arrived(s.procs[j], m);
    if q != [] && !q[0].acked {
      NewAckFacts(c, s, j, m, q[0].msg);
      if q[0].msg.uid == a.uid {
        UidNamesOne(c, s, q[0].msg, a);
      }
    }
  }

  lemma BroadCounts(c: Config, s: State, j: nat, m: Message)
    requires BroadArrives(c, s, j, m)
    ensures CountOk(StepBroad(c, s, j, m))
  {
    hide IssuedOk, BroadOk, PlacedOk, ReadyOk, QueuesOk, AcksKnown, LogOk, ClockOk, Arrived, AckHead, NewlyAcked, Ackers;
    var s' := StepBroad(c, s, j, m);
    forall a | a in s'.hist.issued ensures AcksBalance(s', a) {
      assert AcksBalance(s, a);
      BroadAckers(c, s, j, m, a);
      BroadAckNet(c, s, j, m, a);
    }
    forall a | a in s'.hist.issued && !HasHandled(s', a.src, a) ensures s'.hist.counted[a.uid] == 0 {
      assert !HasHandled(s, a.src, a);
    }
  }

  lemma BroadAcks(c: Config, s: State, j: nat, m: Message)
    requires BroadArrives(c, s, j, m)
    ensures AcksKnown(StepBroad(c, s, j, m))
  {
    hide IssuedOk, BroadOk, PlacedOk, ReadyOk, QueuesOk, CountOk, LogOk, ClockOk, Arrived, AckHead;
    var s' := StepBroad(c, s, j, m);
    var q := Arrived(s.procs[j], m);
    forall k, pid, uid | Envelope(k, Ack(pid, uid)) in s'.net
      ensures exists a :: a in s'.hist.issued && a.src == k && a.pid == pid && a.uid == uid
    {
      if Envelope(k, Ack(pid, uid)) !in s.net {
        assert Envelope(k, Ack(pid, uid)) in multiset(HeadAck(q));
        NewAckFacts(c, s, j, m, q[0].msg);
        assert q[0].msg in s'.hist.issued;
      }
    }
  }

  lemma BroadMessages(c: Config, s: State, j: nat, m: Message)
    requires BroadArrives(c, s, j, m)
    ensures IssuedOk(c, StepBroad(c, s, j, m)) && LogOk(c, StepBroad(c, s, j, m))
    ensures Shaped(c, StepBroad(c, s, j, m))
  {
    hide BroadOk, PlacedOk, ReadyOk, QueuesOk, CountOk, AcksKnown, ClockOk, Arrived, AckHead, NewlyAcked;
    ArrivingMessage(c, s, j, m);
    var s' := StepBroad(c, s, j, m);
    forall a | a in s'.hist.issued ensures GoodMessage(c, s', a) {
      assert GoodMessage(c, s, a);
    }
  }

  lemma BroadKeepsInv(c: Config, s: State, j: nat, m: Message)
    requires BroadArrives(c, s, j, m) && InRange(StepBroad(c, s, j, m))
    ensures Inv(c, StepBroad(c, s, j, m))
  {
    hide IssuedOk, BroadOk, QueuesOk, PlacedOk, ReadyOk, CountOk, AcksKnown, LogOk, ClockOk, StepBroad;
    BroadMessages(c, s, j, m);
    BroadNet(c, s, j, m);
    BroadQueues(c, s, j, m);
    BroadPlaced(c, s, j, m);
    BroadCounts(c, s, j, m);
    BroadAcks(c, s, j, m);
  }

  // ----- ACK -----

  ghost predicate AckArrives(c: Config, s: State, j: nat, pid: nat, uid: nat) {
    Inv(c, s) && j < |c.pids| && Envelope(j, Ack(pid, uid)) in s.net
  }

  lemma AckedMessage(c: Config, s: State, j: nat, pid: nat, uid: nat) returns (m: Message)
    requires AckArrives(c, s, j, pid, uid)
    ensures m in s.hist.issued && m.src == j && m.pid == pid && m.uid == uid
    ensures s.hist.counted[uid] < |c.pids| && m !in s.log
    ensures s.hist.counted[uid] + 1 == |c.pids| ==>
              forall k :: 0 <= k < |c.pids| ==> m in s.hist.acked[k] && Queued(s.procs[k].queue, m)
    ensures Find(s.procs[j].queue, uid) < |s.procs[j].queue| ==>
              var e := s.procs[j].queue[Find(s.procs[j].queue, uid)];
              e.msg == m && e.acks == s.hist.counted[uid]
  {
    hide IssuedOk, ReadyOk, ClockOk, Find, Queued;
    m :| m in s.hist.issued && m.src == j && m.pid == pid && m.uid == uid;
    assert AcksBalance(s, m);
    AckersBounded(c, s, m);
    var i := Find(s.procs[j].queue, uid);
    if i < |s.procs[j].queue| {
      assert QueueOk(s.procs[j], j, s.hist.handled[j], s.hist.acked[j], s.hist.counted);
      assert EntryOk(s.procs[j].queue[i], j, s.hist.handled[j], s.hist.acked[j], s.hist.counted);
      HandledIssued(c, s, j);
      UidNamesOne(c, s, s.procs[j].queue[i].msg, m);
    }
  }

  ghost predicate Found(s: State, j: nat, uid: nat) {
    j < |s.procs| && Find(s.procs[j].queue, uid) < |s.procs[j].queue|
  }

  // Whether this ACK completes the count.
  ghost predicate Completes(c: Config, s: State, j: nat, uid: nat) {
    Found(s, j, uid) && s.hist.counted[uid] + 1 == |c.pids|
  }

  lemma AckOutcome(c: Config, s: State, j: nat, pid: nat, uid: nat, m: Message)
    requires AckArrives(c, s, j, pid, uid) && m in s.hist.issued && m.uid == uid
    ensures var s' := StepAck(c, s, j, pid, uid);
            var q, q' := s.procs[j].queue, s'.procs[j].queue;
            && Shaped(c, s')
            && |q'| == |q| && (forall i :: 0 <= i < |q| ==> q'[i].msg == q[i].msg && q'[i].acked == q[i].acked)
            && (forall i :: 0 <= i < |q| ==> q'[i].acks == q[i].acks + if i == Find(q, uid) then 1 else 0)
            && s'.procs[j].stale == s.procs[j].stale && s'.procs[j].lc >= s.procs[j].lc
            && s'.log == s.log + (if Completes(c, s, j, uid) then [m] else [])
            && s'.hist.counted == s.hist.counted + (if Found(s, j, uid) then multiset{uid} else multiset{})
            && s'.hist.dropped == s.hist.dropped + (if Found(s, j, uid) then multiset{} else multiset{uid})
            && (forall x :: s'.net[x] == s.net[x] - (if x == Envelope(j, Ack(pid, uid)) then 1 else 0)
                  + (if Completes(c, s, j, uid) && x.to < |c.pids| && x.packet == Ready(uid) then 1 else 0))
  {
    hide IssuedOk, BroadOk, QueuesOk, PlacedOk, ReadyOk, CountOk, AcksKnown, LogOk, ClockOk, Find, ToAll;
    var m' := AckedMessage(c, s, j, pid, uid);
    UidNamesOne(c, s, m, m');
    assert s.procs[j].lc < CLOCK_SPAN;
    forall x: Envelope
      ensures multiset(ToAll(|c.pids|, Ready(uid)))[x] == if x.to < |c.pids| && x.packet == Ready(uid) then 1 else 0
    {
      ToAllCount(|c.pids|, Ready(uid), x);
    }
  }

  lemma AckFrame(c: Config, s: State, j: nat, pid: nat, uid: nat)
    requires Shaped(c, s) && j < |c.pids|
    ensures var s' := StepAck(c, s, j, pid, uid);
            && |s'.procs| == |s.procs| && (forall k :: 0 <= k < |s.procs| && k != j ==> s'.procs[k] == s.procs[k])
            && s'.hist.issued == s.hist.issued && s'.hist.handled == s.hist.handled && s'.hist.acked == s.hist.acked
  {
  }

  lemma AckQueues(c: Config, s: State, j: nat, pid: nat, uid: nat)
    requires AckArrives(c, s, j, pid, uid)
    ensures QueuesOk(StepAck(c, s, j, pid, uid))
  {
    hide BroadOk, PlacedOk, ReadyOk, CountOk, AcksKnown, LogOk, ClockOk, StepAck, IssuedOk;
    var m := AckedMessage(c, s, j, pid, uid);
    AckFrame(c, s, j, pid, uid);
    AckOutcome(c, s, j, pid, uid, m);
    var s' := StepAck(c, s, j, pid, uid);
    forall k | 0 <= k < |s'.procs|
      ensures QueueOk(s'.procs[k], k, s'.hist.handled[k], s'.hist.acked[k], s'.hist.counted)
    {
      assert QueueOk(s.procs[k], k, s.hist.handled[k], s.hist.acked[k], s.hist.counted);
      forall i | 0 <= i < |s'.procs[k].queue|
        ensures EntryOk(s'.procs[k].queue[i], k, s'.hist.handled[k], s'.hist.acked[k], s'.hist.counted)
      {
        AckEntry(c, s, j, pid, uid, m, k, i);
      }
    }
  }

  lemma AckEntry(c: Config, s: State, j: nat, pid: nat, uid: nat, m: Message, k: nat, i: nat)
    requires AckArrives(c, s, j, pid, uid) && m in s.hist.issued && m.uid == uid && m.src == j
    requires k < |s.procs| && i < |StepAck(c, s, j, pid, uid).procs[k].queue|
    ensures var s' := StepAck(c, s, j, pid, uid);
            EntryOk(s'.procs[k].queue[i], k, s.hist.handled[k], s.hist.acked[k], s'.hist.counted)
  {
    hide PlacedOk, ReadyOk, CountOk, AcksKnown, LogOk, ClockOk, StepAck, IssuedOk;
    AckFrame(c, s, j, pid, uid);
    AckOutcome(c, s, j, pid, uid, m);
    var q := s.procs[k].queue;
    assert QueueOk(s.procs[k], k, s.hist.handled[k], s.hist.acked[k], s.hist.counted);
    assert EntryOk(q[i], k, s.hist.handled[k], s.hist.acked[k], s.hist.counted);
    HandledIssued(c, s, k);
    if q[i].msg.uid == uid {
      UidNamesOne(c, s, q[i].msg, m);
      if k == j {
        var f := Find(q, uid);
        assert f <= i;
        if f < i { assert EntryOk(q[f], k, s.hist.handled[k], s.hist.acked[k], s.hist.counted); UidNamesOne(c, s, q[f].msg, m); }
      }
    }
  }

  lemma AckQueued(c: Config, s: State, j: nat, pid: nat, uid: nat, k: nat, x: Message)
    requires AckArrives(c, s, j, pid, uid) && k < |s.procs|
    ensures Queued(StepAck(c, s, j, pid, uid).procs[k].queue, x) <==> Queued(s.procs[k].queue, x)
  {
    hide Inv, StepAck;
    var m := AckedMessage(c, s, j, pid, uid);
    AckShape(c, s, j, pid, uid);
    AckFrame(c, s, j, pid, uid);
    AckOutcome(c, s, j, pid, uid, m);
    var q, q' := s.procs[k].queue, StepAck(c, s, j, pid, uid).procs[k].queue;
    if Queued(q, x) {
      var i :| 0 <= i < |q| && q[i].msg == x;
      assert q'[i].msg == x;
    }
    if Queued(q', x) {
      var i :| 0 <= i < |q'| && q'[i].msg == x;
      assert q[i].msg == x;
    }
  }

  lemma AckShape(c: Config, s: State, j: nat, pid: nat, uid: nat)
    requires AckArrives(c, s, j, pid, uid)
    ensures Shaped(c, s) && Shaped(c, StepAck(c, s, j, pid, uid))
  {
  }

  lemma AckPlaced(c: Config, s: State, j: nat, pid: nat, uid: nat)
    requires AckArrives(c, s, j, pid, uid)
    ensures PlacedOk(StepAck(c, s, j, pid, uid)) && ClockOk(StepAck(c, s, j, pid, uid))
  {
    hide IssuedOk, BroadOk, ReadyOk, CountOk, AcksKnown, LogOk, QueuesOk, StepAck, Queued;
    var m := AckedMessage(c, s, j, pid, uid);
    AckFrame(c, s, j, pid, uid);
    AckOutcome(c, s, j, pid, uid, m);
    var s' := StepAck(c, s, j, pid, uid);
    forall k, x | 0 <= k < |s'.procs| &&
      (x in s'.hist.acked[k] || (x in s'.hist.handled[k] && !s'.procs[k].stale))
      ensures Queued(s'.procs[k].queue, x) || x in s'.log
    {
      AckQueued(c, s, j, pid, uid, k, x);
    }
  }

  lemma AckBroads(c: Config, s: State, j: nat, pid: nat, uid: nat)
    requires AckArrives(c, s, j, pid, uid)
    ensures BroadOk(c, StepAck(c, s, j, pid, uid)) && IssuedOk(c, StepAck(c, s, j, pid, uid))
  {
    hide PlacedOk, ReadyOk, CountOk, AcksKnown, LogOk, QueuesOk, StepAck, ClockOk;
    var m := AckedMessage(c, s, j, pid, uid);
    AckFrame(c, s, j, pid, uid);
    AckOutcome(c, s, j, pid, uid, m);
    var s' := StepAck(c, s, j, pid, uid);
    forall k: nat, a
      ensures s'.net[Envelope(k, Broad(a))] == if AwaitsBroad(s', k, a) then 1 else 0
    {
      assert s.net[Envelope(k, Broad(a))] == if AwaitsBroad(s, k, a) then 1 else 0;
    }
    forall a | a in s'.hist.issued ensures GoodMessage(c, s', a) {
      assert GoodMessage(c, s, a);
    }
  }

  lemma AckDue(c: Config, s: State, j: nat, pid: nat, uid: nat, k: nat, u: nat)
    requires AckArrives(c, s, j, pid, uid) && k < |s.procs|
    ensures ReadyDue(StepAck(c, s, j, pid, uid), k, u)
       <==> ReadyDue(s, k, u) || (u == uid && Completes(c, s, j, uid))
    ensures ReadyDue(s, k, uid) ==> !Completes(c, s, j, uid)
  {
    hide IssuedOk, ReadyOk, PlacedOk, CountOk, AcksKnown, ClockOk, StepAck, Queued, ReadyDue, Find;
    var m := AckedMessage(c, s, j, pid, uid);
    AckFrame(c, s, j, pid, uid);
    AckOutcome(c, s, j, pid, uid, m);
    var s' := StepAck(c, s, j, pid, uid);
    DueByMessage(s, k, u);
    DueByMessage(s', k, u);
    DueByMessage(s, k, uid);
    forall x ensures Queued(s'.procs[k].queue, x) <==> Queued(s.procs[k].queue, x) {
      AckQueued(c, s, j, pid, uid, k, x);
    }
    forall x | x in s.log && x.uid == uid ensures false {
      UidNamesOne(c, s, x, m);
    }
  }

  lemma AckReadies(c: Config, s: State, j: nat, pid: nat, uid: nat)
    requires AckArrives(c, s, j, pid, uid)
    ensures ReadyOk(StepAck(c, s, j, pid, uid))
  {
    hide IssuedOk, BroadOk, PlacedOk, CountOk, AcksKnown, ClockOk, QueuesOk, LogOk, StepAck, Queued, ReadyDue, Completes, Found;
    var m := AckedMessage(c, s, j, pid, uid);
    AckFrame(c, s, j, pid, uid);
    AckOutcome(c, s, j, pid, uid, m);
    var s' := StepAck(c, s, j, pid, uid);
    forall k: nat, u: nat
      ensures s'.net[Envelope(k, Ready(u))] == if ReadyDue(s', k, u) then 1 else 0
    {
      assert s.net[Envelope(k, Ready(u))] == if ReadyDue(s, k, u) then 1 else 0;
      if k < |s.procs| {
        AckDue(c, s, j, pid, uid, k, u);
      } else {
        NoDue(s, k, u);
        NoDue(s', k, u);
      }
    }
  }

  lemma NoDue(s: State, k: nat, u: nat)
    requires k >= |s.procs|
    ensures !ReadyDue(s, k, u)
  {
  }

  lemma AckCounts(c: Config, s: State, j: nat, pid: nat, uid: nat)
    requires AckArrives(c, s, j, pid, uid)
    ensures CountOk(StepAck(c, s, j, pid, uid))
  {
    hide IssuedOk, BroadOk, AcksKnown, PlacedOk, ReadyOk, ClockOk, LogOk, StepAck, Queued, Completes, GoodMessage;
    var m := AckedMessage(c, s, j, pid, uid);
    AckFrame(c, s, j, pid, uid);
    AckOutcome(c, s, j, pid, uid, m);
    var s' := StepAck(c, s, j, pid, uid);
    forall a | a in s'.hist.issued ensures AcksBalance(s', a) {
      assert AcksBalance(s, a) && Ackers(s', a) == Ackers(s, a);
      if a.uid == uid { UidNamesOne(c, s, a, m); }
    }
    forall a | a in s'.hist.issued && !HasHandled(s', a.src, a) ensures s'.hist.counted[a.uid] == 0 {
      assert !HasHandled(s, a.src, a);
      if a.uid == uid && Found(s, j, uid) {
        UidNamesOne(c, s, a, m);
        FoundHandled(c, s, j, pid, uid, m);
      }
    }
  }

  lemma FoundHandled(c: Config, s: State, j: nat, pid: nat, uid: nat, m: Message)
    requires AckArrives(c, s, j, pid, uid) && Found(s, j, uid) && m in s.hist.issued && m.uid == uid
    ensures HasHandled(s, j, m)
  {
    hide IssuedOk, BroadOk, AcksKnown, PlacedOk, ReadyOk, ClockOk, LogOk, CountOk, Queued;
    var i := Find(s.procs[j].queue, uid);
    assert QueueOk(s.procs[j], j, s.hist.handled[j], s.hist.acked[j], s.hist.counted);
    assert EntryOk(s.procs[j].queue[i], j, s.hist.handled[j], s.hist.acked[j], s.hist.counted);
    HandledIssued(c, s, j);
    UidNamesOne(c, s, s.procs[j].queue[i].msg, m);
  }

  lemma AckAcks(c: Config, s: State, j: nat, pid: nat, uid: nat)
    requires AckArrives(c, s, j, pid, uid)
    ensures AcksKnown(StepAck(c, s, j, pid, uid))
  {
    hide IssuedOk, BroadOk, QueuesOk, CountOk, PlacedOk, ReadyOk, ClockOk, LogOk, StepAck, Queued, Completes;
    var m := AckedMessage(c, s, j, pid, uid);
    AckFrame(c, s, j, pid, uid);
    AckOutcome(c, s, j, pid, uid, m);
    var s' := StepAck(c, s, j, pid, uid);
    forall k, p, u | Envelope(k, Ack(p, u)) in s'.net
      ensures exists a :: a in s'.hist.issued && a.src == k && a.pid == p && a.uid == u
    {
      assert Envelope(k, Ack(p, u)) in s.net;
    }
    forall u | u in s'.hist.counted || u in s'.hist.dropped
      ensures exists a :: a in s'.hist.issued && a.uid == u
    {
      if u == uid { assert m in s'.hist.issued; }
    }
  }

  lemma AckLog(c: Config, s: State, j: nat, pid: nat, uid: nat)
    requires AckArrives(c, s, j, pid, uid)
    ensures LogOk(c, StepAck(c, s, j, pid, uid))
  {
    hide IssuedOk, BroadOk, PlacedOk, ReadyOk, ClockOk, QueuesOk, CountOk, AcksKnown, StepAck, Queued, Find;
    var m := AckedMessage(c, s, j, pid, uid);
    AckFrame(c, s, j, pid, uid);
    AckOutcome(c, s, j, pid, uid, m);
    var s' := StepAck(c, s, j, pid, uid);
    forall a | a in s'.hist.issued ensures a in s'.log <==> s'.hist.counted[a.uid] == |c.pids| {
      if a.uid == uid { UidNamesOne(c, s, a, m); }
    }
  }

  lemma AckKeepsInv(c: Config, s: State, j: nat, pid: nat, uid: nat)
    requires AckArrives(c, s, j, pid, uid) && InRange(StepAck(c, s, j, pid, uid))
    ensures Inv(c, StepAck(c, s, j, pid, uid))
  {
    hide IssuedOk, BroadOk, QueuesOk, PlacedOk, ReadyOk, CountOk, AcksKnown, LogOk, ClockOk, StepAck;
    AckShape(c, s, j, pid, uid);
    AckQueues(c, s, j, pid, uid);
    AckPlaced(c, s, j, pid, uid);
    AckBroads(c, s, j, pid, uid);
    AckReadies(c, s, j, pid, uid);
    AckCounts(c, s, j, pid, uid);
    AckAcks(c, s, j, pid, uid);
    AckLog(c, s, j, pid, uid);
  }

  // ----- READY -----

  ghost predicate ReadyArrives(c: Config, s: State, j: nat, uid: nat) {
    Inv(c, s) && j < |c.pids| && Envelope(j, Ready(uid)) in s.net
  }

  // The READY finds exactly one queued node, which is written and acked.
  lemma ReadyFinds(c: Config, s: State, j: nat, uid: nat)
    requires ReadyArrives(c, s, j, uid)
    ensures var q := s.procs[j].queue; var i := Find(q, uid);
            && i < |q| && q[i].msg in s.log && q[i].acked
            && (forall k :: 0 <= k < |q| && q[k].msg.uid == uid ==> k == i)
            && (forall m :: m in s.hist.issued && m.uid == uid ==> m == q[i].msg)
  {
    hide IssuedOk, PlacedOk, AcksKnown, ClockOk;
    var q := s.procs[j].queue;
    assert s.net[Envelope(j, Ready(uid))] == if ReadyDue(s, j, uid) then 1 else 0;
    var i :| 0 <= i < |q| && q[i].msg.uid == uid && q[i].msg in s.log;
    var m := q[i].msg;
    assert QueueOk(s.procs[j], j, s.hist.handled[j], s.hist.acked[j], s.hist.counted);
    assert AcksBalance(s, m);
    AckersBounded(c, s, m);
    HandledIssued(c, s, j);
    forall k | 0 <= k < |q| && q[k].msg.uid == uid ensures k == i {
      assert EntryOk(q[k], j, s.hist.handled[j], s.hist.acked[j], s.hist.counted);
      UidNamesOne(c, s, q[k].msg, m);
      NoRepeat(q, i, k);
    }
    assert EntryOk(q[i], j, s.hist.handled[j], s.hist.acked[j], s.hist.counted);
    FindIs(q, uid, i);
    forall a | a in s.hist.issued && a.uid == uid ensures a == m {
      UidNamesOne(c, s, a, m);
    }
  }

  lemma NoRepeat(q: seq<Entry>, i: nat, k: nat)
    requires StrictlySorted(q) && i < |q| && k < |q| && q[i].msg == q[k].msg
    ensures i == k
  {
  }

  lemma RemoveKeepsOrder(q: seq<Entry>, uid: nat)
    requires StrictlySorted(q) && Find(q, uid) < |q|
    requires forall k :: 0 <= k < |q| && q[k].msg.uid == uid ==> k == Find(q, uid)
    ensures StrictlySorted(Remove(q, uid))
    ensures forall i :: 0 <= i < |Remove(q, uid)| ==> Remove(q, uid)[i] in q && Remove(q, uid)[i].msg.uid != uid
    ensures forall x :: Queued(Remove(q, uid), x) <==> Queued(q, x) && x.uid != uid
  {
    hide Queued, StrictlySorted, Find;
    var f := Find(q, uid);
    var r := Remove(q, uid);
    OthersKeepOrder(q, f);
    forall i | 0 <= i < |r| ensures r[i] in q && r[i].msg.uid != uid {
      assert r[i] == q[if i < f then i else i + 1];
    }
    forall x ensures Queued(r, x) <==> Queued(q, x) && x.uid != uid {
      QueuedWithout(q, f, x);
    }
  }

  lemma OthersKeepOrder(q: seq<Entry>, f: nat)
    requires StrictlySorted(q) && f < |q|
    ensures StrictlySorted(q[..f] + q[f + 1..])
  {
    var r := q[..f] + q[f + 1..];
    forall i, j | 0 <= i < j < |r| ensures Before(r[i].msg, r[j].msg) {
      assert r[i] == q[if i < f then i else i + 1] && r[j] == q[if j < f then j else j + 1];
    }
  }

  lemma QueuedWithout(q: seq<Entry>, f: nat, x: Message)
    requires f < |q| && forall k :: 0 <= k < |q| && q[k].msg.uid == q[f].msg.uid ==> k == f
    ensures Queued(q[..f] + q[f + 1..], x) <==> Queued(q, x) && x.uid != q[f].msg.uid
  {
    var r := q[..f] + q[f + 1..];
    if Queued(r, x) {
      var i :| 0 <= i < |r| && r[i].msg == x;
      assert r[i] == q[if i < f then i else i + 1];
    }
    if Queued(q, x) && x.uid != q[f].msg.uid {
      var i :| 0 <= i < |q| && q[i].msg == x;
      assert r[if i < f then i else i - 1] == q[i];
    }
  }

  lemma ReadyOutcome(c: Config, s: State, j: nat, uid: nat)
    requires ReadyArrives(c, s, j, uid)
    ensures var s' := StepReady(c, s, j, uid);
            && Shaped(c, s') && s'.log == s.log && s'.hist == s.hist
            && (forall k :: 0 <= k < |s.procs| && k != j ==> s'.procs[k] == s.procs[k])
            && s'.procs[j].lc == s.procs[j].lc
            && StrictlySorted(s'.procs[j].queue)
            && (forall i :: 0 <= i < |s'.procs[j].queue| ==>
                  s'.procs[j].queue[i] in s.procs[j].queue && s'.procs[j].queue[i].msg.uid != uid)
            && (forall x :: Queued(s'.procs[j].queue, x) <==> Queued(s.procs[j].queue, x) && x.uid != uid)
            && (s'.procs[j].stale ==> s'.procs[j].queue == [])
            && (s.procs[j].stale ==> s'.procs[j].stale)
            && s'.net == s.net - multiset{Envelope(j, Ready(uid))}
  {
    hide IssuedOk, BroadOk, CountOk, AcksKnown, PlacedOk, ReadyOk, ClockOk, LogOk, Queued, Find;
    ReadyFinds(c, s, j, uid);
    assert QueueOk(s.procs[j], j, s.hist.handled[j], s.hist.acked[j], s.hist.counted);
    RemoveKeepsOrder(s.procs[j].queue, uid);
  }

  lemma ReadyQueues(c: Config, s: State, j: nat, uid: nat)
    requires ReadyArrives(c, s, j, uid)
    ensures var s' := StepReady(c, s, j, uid); QueuesOk(s') && PlacedOk(s') && ClockOk(s')
  {
    hide IssuedOk, BroadOk, CountOk, AcksKnown, ReadyOk, LogOk, Queued, Find, StepReady, StrictlySorted;
    ReadyFinds(c, s, j, uid);
    ReadyOutcome(c, s, j, uid);
    var s' := StepReady(c, s, j, uid);
    forall k | 0 <= k < |s'.procs|
      ensures QueueOk(s'.procs[k], k, s'.hist.handled[k], s'.hist.acked[k], s'.hist.counted)
    {
      assert QueueOk(s.procs[k], k, s.hist.handled[k], s.hist.acked[k], s.hist.counted);
    }
    forall k, x | 0 <= k < |s'.procs| &&
      (x in s'.hist.acked[k] || (x in s'.hist.handled[k] && !s'.procs[k].stale))
      ensures Queued(s'.procs[k].queue, x) || x in s'.log
    {
      if k == j && x.uid == uid {
        assert QueueOk(s.procs[j], j, s.hist.handled[j], s.hist.acked[j], s.hist.counted);
        HandledIssued(c, s, j);
      }
    }
  }

  lemma ReadyNet(c: Config, s: State, j: nat, uid: nat)
    requires ReadyArrives(c, s, j, uid)
    ensures BroadOk(c, StepReady(c, s, j, uid)) && ReadyOk(StepReady(c, s, j, uid))
  {
    hide IssuedOk, CountOk, AcksKnown, LogOk, QueuesOk, PlacedOk, ClockOk, Queued, Find, StepReady, StrictlySorted, ReadyDue;
    ReadyOutcome(c, s, j, uid);
    var s' := StepReady(c, s, j, uid);
    forall k: nat, a
      ensures s'.net[Envelope(k, Broad(a))] == if AwaitsBroad(s', k, a) then 1 else 0
    {
      assert s.net[Envelope(k, Broad(a))] == if AwaitsBroad(s, k, a) then 1 else 0;
    }
    forall k: nat, u: nat
      ensures s'.net[Envelope(k, Ready(u))] == if ReadyDue(s', k, u) then 1 else 0
    {
      assert s.net[Envelope(k, Ready(u))] == if ReadyDue(s, k, u) then 1 else 0;
      if k < |s.procs| {
        DueByMessage(s, k, u);
        DueByMessage(s', k, u);
      } else {
        NoDue(s, k, u);
        NoDue(s', k, u);
      }
    }
  }

  lemma ReadyCounts(c: Config, s: State, j: nat, uid: nat)
    requires ReadyArrives(c, s, j, uid)
    ensures var s' := StepReady(c, s, j, uid); CountOk(s') && AcksKnown(s')
  {
    hide IssuedOk, BroadOk, QueuesOk, PlacedOk, ReadyOk, ClockOk, LogOk, Queued, Find, StepReady, StrictlySorted;
    ReadyOutcome(c, s, j, uid);
    var s' := StepReady(c, s, j, uid);
    forall a | a in s'.hist.issued ensures AcksBalance(s', a) {
      assert AcksBalance(s, a);
      assert Ackers(s', a) == Ackers(s, a);
    }
    forall a | a in s'.hist.issued && !HasHandled(s', a.src, a) ensures s'.hist.counted[a.uid] == 0 {
      assert !HasHandled(s, a.src, a);
    }
  }

  lemma ReadyMessages(c: Config, s: State, j: nat, uid: nat)
    requires ReadyArrives(c, s, j, uid)
    ensures var s' := StepReady(c, s, j, uid);
            IssuedOk(c, s') && LogOk(c, s') && Shaped(c, s') && InRange(s')
  {
    hide BroadOk, QueuesOk, PlacedOk, ReadyOk, ClockOk, CountOk, AcksKnown, Queued, Find, StepReady, StrictlySorted;
    ReadyOutcome(c, s, j, uid);
    var s' := StepReady(c, s, j, uid);
    forall a | a in s'.hist.issued ensures GoodMessage(c, s', a) {
      assert GoodMessage(c, s, a);
    }
  }

  lemma ReadyKeepsInv(c: Config, s: State, j: nat, uid: nat)
    requires ReadyArrives(c, s, j, uid)
    ensures Inv(c, StepReady(c, s, j, uid))
  {
    hide IssuedOk, BroadOk, QueuesOk, PlacedOk, ReadyOk, CountOk, AcksKnown, LogOk, ClockOk, StepReady;
    ReadyQueues(c, s, j, uid);
    ReadyNet(c, s, j, uid);
    ReadyCounts(c, s, j, uid);
    ReadyMessages(c, s, j, uid);
  }

  // ----- Every run -----

  lemma ApplyKeepsInv(c: Config, s: State, e: Event)
    requires Inv(c, s) && Enabled(c, s, e) && InRange(Apply(c, s, e))
    ensures Inv(c, Apply(c, s, e))
  {
    hide Inv, StepIssue, StepBroad, StepAck, StepReady, InRange;
    match e
    case Issue(i, body) => IssueKeepsInv(c, s, i, body);
    case Deliver(Envelope(j, Broad(m))) => BroadKeepsInv(c, s, j, m);
    case Deliver(Envelope(j, Ack(pid, uid))) => AckKeepsInv(c, s, j, pid, uid);
    case Deliver(Envelope(j, Ready(uid))) => ReadyKeepsInv(c, s, j, uid);
  }

  lemma {:induction false} RunInv(c: Config, es: seq<Event>)
    requires ConfigOk(c) && IsRun(c, es)
    ensures Inv(c, After(c, es))
  {
    hide Inv, Apply;
    if es == [] {
      InitInv(c);
    } else {
      RunInv(c, es[..|es| - 1]);
      ApplyKeepsInv(c, After(c, es[..|es| - 1]), es[|es| - 1]);
    }
  }
}
