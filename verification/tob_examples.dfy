// Runs that show why the assumptions of the order theorems are there.
module BroadcastExamples {
  import opened Uid
  import opened QueueSpec
  import opened Handlers
  import opened Broadcast
  import opened Invariants
  import opened Preservation
  import opened BroadcastTheorems
  import BroadWire

  // What a state looks like from outside: clocks, queues, messages in flight, log.
  ghost predicate Looks(s: State, procs: seq<Proc>, net: multiset<Envelope>, log: seq<Message>) {
    s.procs == procs && s.net == net && s.log == log && |s.hist.handled| == |s.hist.acked| == |procs|
  }

  lemma IssueLooks(c: Config, s: State, i: nat, body: string, procs: seq<Proc>, net: multiset<Envelope>, log: seq<Message>)
    requires Shaped(c, s) && Looks(s, procs, net, log) && i < |procs|
    ensures var o := OnIssue(procs[i], |c.pids|, c.pids[i], i, body);
            && Looks(Apply(c, s, Issue(i, body)), procs[i := o.proc], net + multiset(o.sent), log)
  {
    hide OnIssue, IssuedMessage;
  }

  lemma DeliverLooks(c: Config, s: State, env: Envelope, procs: seq<Proc>, net: multiset<Envelope>, log: seq<Message>)
    requires Shaped(c, s) && Looks(s, procs, net, log) && env.to < |procs| && env in net
    ensures var o := Handle(c, procs[env.to], env.packet);
            && Looks(Apply(c, s, Deliver(env)), procs[env.to := o.proc], net - multiset{env} + multiset(o.sent), log + o.written)
  {
    HandleShape(c, procs[env.to], env.packet);
    hide OnBroad, OnAck, OnReady, Arrived, NewlyAcked, Find;
  }

  lemma HandleShape(c: Config, p: Proc, packet: Packet)
    ensures packet.Broad? ==> OnBroad(p, packet.msg).written == []
    ensures packet.Ready? ==> OnReady(p, c.resets, packet.uid).written == [] && OnReady(p, c.resets, packet.uid).sent == []
    ensures p.lc < CLOCK_SPAN - 1 && (packet.Broad? ==> packet.msg.lc < CLOCK_SPAN) ==> Handle(c, p, packet).proc.lc < CLOCK_SPAN
  {
    hide Sort, Find, Remove, ToAll, AckHead, HeadAck;
  }

  // Clocks far enough from the bound for one more event.
  ghost predicate Room(procs: seq<Proc>) {
    forall k :: 0 <= k < |procs| ==> procs[k].lc < CLOCK_SPAN - 2
  }

  lemma RunIssue(c: Config, es: seq<Event>, i: nat, body: string, procs: seq<Proc>, net: multiset<Envelope>, log: seq<Message>)
    returns (es': seq<Event>)
    requires IsRun(c, es) && Looks(After(c, es), procs, net, log) && i < |procs| && Room(procs)
    ensures var o := OnIssue(procs[i], |c.pids|, c.pids[i], i, body);
            IsRun(c, es') && Looks(After(c, es'), procs[i := o.proc], net + multiset(o.sent), log)
    ensures es <= es'
  {
    hide GenerateUid, ToAll, Apply;
    IssueLooks(c, After(c, es), i, body, procs, net, log);
    Extend(c, es, Issue(i, body));
    es' := es + [Issue(i, body)];
  }

  lemma RunDeliver(c: Config, es: seq<Event>, env: Envelope, procs: seq<Proc>, net: multiset<Envelope>, log: seq<Message>)
    returns (es': seq<Event>)
    requires IsRun(c, es) && Looks(After(c, es), procs, net, log) && env.to < |procs| && env in net && Room(procs)
    requires env.packet.Broad? ==> env.packet.msg.lc < CLOCK_SPAN
    ensures var o := Handle(c, procs[env.to], env.packet);
            && IsRun(c, es')
            && Looks(After(c, es'), procs[env.to := o.proc], net - multiset{env} + multiset(o.sent), log + o.written)
    ensures es <= es'
  {
    hide Handle, Apply;
    HandleShape(c, procs[env.to], env.packet);
    DeliverLooks(c, After(c, es), env, procs, net, log);
    Extend(c, es, Deliver(env));
    es' := es + [Deliver(env)];
  }

  function Handle(c: Config, p: Proc, packet: Packet): Outcome {
    match packet
    case Broad(m) => OnBroad(p, m)
    case Ack(_, uid) => OnAck(p, |c.pids|, uid)
    case Ready(uid) => OnReady(p, c.resets, uid)
  }

  // ----- Single handler steps on small queues -----

  lemma BroadOnEmpty(lc: nat, m: Message)
    requires lc < CLOCK_SPAN
    ensures OnBroad(Proc(lc, [], false), m)
         == Outcome(Proc(Max(m.lc, lc + 1), [Entry(m, true, 0)], false), [Envelope(m.src, Ack(m.pid, m.uid))], [])
  {
    SortOfSorted([]);
    SortAppend([], Entry(m, false, 0));
    assert [] + [Entry(m, false, 0)] == [Entry(m, false, 0)];
  }

  lemma BroadBefore(lc: nat, m: Message, e: Entry)
    requires lc < CLOCK_SPAN && Before(m, e.msg)
    ensures OnBroad(Proc(lc, [e], false), m)
         == Outcome(Proc(Max(m.lc, lc + 1), [Entry(m, true, 0), e], false), [Envelope(m.src, Ack(m.pid, m.uid))], [])
  {
    SortAppend([e], Entry(m, false, 0));
    InsertPosIs([e], m, 0);
  }

  lemma AckOfHead(lc: nat, n: nat, e: Entry, rest: seq<Entry>)
    requires lc < CLOCK_SPAN
    ensures OnAck(Proc(lc, [e] + rest, false), n, e.msg.uid) ==
              if e.acks + 1 == n
              then Outcome(Proc(lc + 1, [e.(acks := e.acks + 1)] + rest, false), ToAll(n, Ready(e.msg.uid)), [e.msg])
              else Outcome(Proc(lc, [e.(acks := e.acks + 1)] + rest, false), [], [])
  {
    FindIs([e] + rest, e.msg.uid, 0);
    assert ([e] + rest)[0 := e.(acks := e.acks + 1)] == [e.(acks := e.acks + 1)] + rest;
  }

  // ----- An inversion -----

  // Process 1 (pid 2) issues a, process 0 (pid 1) issues b at the same time; a is first in
  // the delivery order.
  const TWO_PIDS: seq<nat> := [1, 2]

  function A(): Message { Message(2, 1, 2, GenerateUid(2, 1), "alpha\0") }
  function B(): Message { Message(1, 0, 2, GenerateUid(1, 1), "bravo\0") }

  lemma Texts()
    ensures Terminated("alpha") == "alpha\0" && Terminated("bravo") == "bravo\0" && Terminated("charlie") == "charlie\0"
  {
    assert "alpha" + "\0" == "alpha\0";
    assert "bravo" + "\0" == "bravo\0";
    assert "charlie" + "\0" == "charlie\0";
  }

  lemma DistinctUids()
    ensures A().uid != B().uid && Before(A(), B())
  {
    UidInRange(2, 1);
    UidInRange(1, 1);
  }

  function ToBoth(p: Packet): multiset<Envelope> {
    multiset{Envelope(0, p), Envelope(1, p)}
  }

  lemma TwoCopies(p: Packet)
    ensures multiset(ToAll(2, p)) == ToBoth(p)
  {
    assert ToAll(2, p) == [Envelope(0, p), Envelope(1, p)];
  }

  lemma BothIssued(c: Config) returns (es: seq<Event>)
    requires c.pids == TWO_PIDS
    ensures IsRun(c, es)
    ensures Looks(After(c, es), [Proc(2, [], false), Proc(2, [], false)], ToBoth(Broad(A())) + ToBoth(Broad(B())), [])
  {
    hide After, IsRun, GenerateUid, ToAll, Terminated;
    var empty := Proc(0, [], false);
    Start(c);
    Texts();
    es := RunIssue(c, [], 1, "alpha", [empty, empty], multiset{}, []);
    TwoCopies(Broad(A()));
    assert Looks(After(c, es), [empty, Proc(2, [], false)], ToBoth(Broad(A())), []);
    es := RunIssue(c, es, 0, "bravo", [empty, Proc(2, [], false)], ToBoth(Broad(A())), []);
    TwoCopies(Broad(B()));
  }

  // b reaches both processes before a reaches any, and both ack it.
  lemma FirstHalf(c: Config) returns (es: seq<Event>)
    requires c.pids == TWO_PIDS
    ensures IsRun(c, es)
    ensures Looks(After(c, es),
                  [Proc(3, [Entry(B(), true, 0)], false), Proc(3, [Entry(B(), true, 0)], false)],
                  ToBoth(Broad(A())) + multiset{Envelope(0, Ack(1, B().uid)), Envelope(0, Ack(1, B().uid))}, [])
  {
    hide After, IsRun, GenerateUid, ToAll, OnBroad;
    es := BothIssued(c);
    BroadOnEmpty(2, B());
    var toB := Envelope(0, Ack(1, B().uid));
    es := RunDeliver(c, es, Envelope(1, Broad(B())), [Proc(2, [], false), Proc(2, [], false)],
                     ToBoth(Broad(A())) + ToBoth(Broad(B())), []);
    assert Looks(After(c, es), [Proc(2, [], false), Proc(3, [Entry(B(), true, 0)], false)],
                 ToBoth(Broad(A())) + multiset{Envelope(0, Broad(B())), toB}, []);
    es := RunDeliver(c, es, Envelope(0, Broad(B())), [Proc(2, [], false), Proc(3, [Entry(B(), true, 0)], false)],
                     ToBoth(Broad(A())) + multiset{Envelope(0, Broad(B())), toB}, []);
  }

  lemma Start(c: Config)
    requires c.pids == TWO_PIDS
    ensures IsRun(c, [])
    ensures Looks(After(c, []), [Proc(0, [], false), Proc(0, [], false)], multiset{}, [])
  {
  }

  // Both ACKs for b come in: b is made ready and written while a is still under way.
  lemma BWritten(c: Config) returns (es: seq<Event>)
    requires c.pids == TWO_PIDS
    ensures IsRun(c, es)
    ensures Looks(After(c, es),
                  [Proc(4, [Entry(B(), true, 2)], false), Proc(3, [Entry(B(), true, 0)], false)],
                  ToBoth(Broad(A())) + ToBoth(Ready(B().uid)), [B()])
  {
    hide After, IsRun, GenerateUid, ToAll, OnAck;
    es := FirstHalf(c);
    var p1 := Proc(3, [Entry(B(), true, 0)], false);
    var toB := Envelope(0, Ack(1, B().uid));
    AckOfHead(3, 2, Entry(B(), true, 0), []);
    AckOfHead(3, 2, Entry(B(), true, 1), []);
    TwoCopies(Ready(B().uid));
    assert forall e: Entry :: [e] + [] == [e];
    es := RunDeliver(c, es, toB, [Proc(3, [Entry(B(), true, 0)], false), p1], ToBoth(Broad(A())) + multiset{toB, toB}, []);
    assert Looks(After(c, es), [Proc(3, [Entry(B(), true, 1)], false), p1], ToBoth(Broad(A())) + multiset{toB}, []);
    es := RunDeliver(c, es, toB, [Proc(3, [Entry(B(), true, 1)], false), p1], ToBoth(Broad(A())) + multiset{toB}, []);
  }

  // Only then does a arrive, move to the front of both queues and get its own ACKs.
  lemma AArrivesOnce(c: Config) returns (es: seq<Event>)
    requires c.pids == TWO_PIDS
    ensures IsRun(c, es)
    ensures Looks(After(c, es),
                  [Proc(4, [Entry(B(), true, 2)], false), Proc(4, [Entry(A(), true, 0), Entry(B(), true, 0)], false)],
                  ToBoth(Ready(B().uid)) + multiset{Envelope(0, Broad(A())), Envelope(1, Ack(2, A().uid))}, [B()])
  {
    hide After, IsRun, GenerateUid, ToAll, OnBroad;
    es := BWritten(c);
    DistinctUids();
    BroadBefore(3, A(), Entry(B(), true, 0));
    es := RunDeliver(c, es, Envelope(1, Broad(A())),
                     [Proc(4, [Entry(B(), true, 2)], false), Proc(3, [Entry(B(), true, 0)], false)],
                     ToBoth(Broad(A())) + ToBoth(Ready(B().uid)), [B()]);
  }

  lemma AArrives(c: Config) returns (es: seq<Event>)
    requires c.pids == TWO_PIDS
    ensures IsRun(c, es)
    ensures Looks(After(c, es),
                  [Proc(5, [Entry(A(), true, 0), Entry(B(), true, 2)], false),
                   Proc(4, [Entry(A(), true, 0), Entry(B(), true, 0)], false)],
                  ToBoth(Ready(B().uid)) + multiset{Envelope(1, Ack(2, A().uid)), Envelope(1, Ack(2, A().uid))}, [B()])
  {
    hide After, IsRun, GenerateUid, ToAll, OnBroad;
    es := AArrivesOnce(c);
    DistinctUids();
    BroadBefore(4, A(), Entry(B(), true, 2));
    es := RunDeliver(c, es, Envelope(0, Broad(A())),
                     [Proc(4, [Entry(B(), true, 2)], false), Proc(4, [Entry(A(), true, 0), Entry(B(), true, 0)], false)],
                     ToBoth(Ready(B().uid)) + multiset{Envelope(0, Broad(A())), Envelope(1, Ack(2, A().uid))}, [B()]);
  }

  // Whether or not dequeue clears tail, two processes can write b before a although a is
  // ordered first: nothing makes a's issuer wait for its own BROAD.
  lemma InversionHappens(resets: bool) returns (c: Config, es: seq<Event>)
    ensures ConfigOk(c) && c.resets == resets && IsRun(c, es)
    ensures After(c, es).log == [B(), A()] && Before(A(), B())
    ensures BroadWire.Decode(BroadWire.Sent(A())).Some? && BroadWire.Decode(BroadWire.Sent(B())).Some?
  {
    hide After, IsRun, GenerateUid, ToAll, OnAck, BroadWire.Decode, BroadWire.Sent;
    c := Config(TWO_PIDS, resets);
    es := AArrives(c);
    DistinctUids();
    Carried();
    var p0 := Proc(5, [Entry(A(), true, 0), Entry(B(), true, 2)], false);
    var toA := Envelope(1, Ack(2, A().uid));
    var rest := [Entry(B(), true, 0)];
    AckOfHead(4, 2, Entry(A(), true, 0), rest);
    AckOfHead(4, 2, Entry(A(), true, 1), rest);
    assert forall e: Entry :: [e] + rest == [e, Entry(B(), true, 0)];
    es := RunDeliver(c, es, toA, [p0, Proc(4, [Entry(A(), true, 0), Entry(B(), true, 0)], false)],
                     ToBoth(Ready(B().uid)) + multiset{toA, toA}, [B()]);
    assert Looks(After(c, es), [p0, Proc(4, [Entry(A(), true, 1), Entry(B(), true, 0)], false)],
                 ToBoth(Ready(B().uid)) + multiset{toA}, [B()]);
    es := RunDeliver(c, es, toA, [p0, Proc(4, [Entry(A(), true, 1), Entry(B(), true, 0)], false)],
                     ToBoth(Ready(B().uid)) + multiset{toA}, [B()]);
  }

  // ----- Own messages that overtake one another -----

  // The second message of process 0.
  function C(): Message { Message(1, 0, 4, GenerateUid(1, 3), "charlie\0") }

  // The bytes that total_broadcast sends for these messages reach handle_broadcast.
  lemma Carried()
    ensures BroadWire.Decode(BroadWire.Sent(A())).Some? && BroadWire.Decode(BroadWire.Sent(B())).Some?
    ensures BroadWire.Decode(BroadWire.Sent(C())).Some?
  {
    hide BroadWire.Decode, BroadWire.Sent, GenerateUid;
    UidInRange(2, 1);
    UidInRange(1, 1);
    UidInRange(1, 3);
    BroadWire.SentRoundTrip(A());
    BroadWire.SentRoundTrip(B());
    BroadWire.SentRoundTrip(C());
  }

  lemma OneProcessOwns(c: Config, es: seq<Event>)
    requires ConfigOk(c) && |c.pids| == 1 && IsRun(c, es)
    ensures OwnBeforeOthers(c, es)
  {
    hide Inv, After, IsRun, Apply;
    forall k: nat, m | k < |es| && es[k] == Deliver(Envelope(0, Broad(m))) ensures m.src == 0 {
      PostIsApply(c, es, k);
      BroadIsIssued(c, Pre(c, es, k), 0, m);
    }
  }

  lemma BroadIsIssued(c: Config, s: State, j: nat, m: Message)
    requires Inv(c, s) && Envelope(j, Broad(m)) in s.net
    ensures m in s.hist.issued && m.src < |c.pids|
  {
    hide QueuesOk, PlacedOk, ReadyOk, CountOk, AcksKnown, LogOk, ClockOk;
    assert s.net[Envelope(j, Broad(m))] == if AwaitsBroad(s, j, m) then 1 else 0;
    assert GoodMessage(c, s, m);
  }

  // One process issues b and then c.
  lemma BothOwn(c: Config) returns (es: seq<Event>)
    requires c.pids == [1]
    ensures IsRun(c, es)
    ensures Looks(After(c, es), [Proc(4, [], false)], multiset{Envelope(0, Broad(B())), Envelope(0, Broad(C()))}, [])
  {
    hide After, IsRun, GenerateUid, ToAll, Terminated;
    StartOne(c);
    OneCopy(Broad(B()));
    OneCopy(Broad(C()));
    Texts();
    es := RunIssue(c, [], 0, "bravo", [Proc(0, [], false)], multiset{}, []);
    assert Looks(After(c, es), [Proc(2, [], false)], multiset{Envelope(0, Broad(B()))}, []);
    es := RunIssue(c, es, 0, "charlie", [Proc(2, [], false)], multiset{Envelope(0, Broad(B()))}, []);
  }

  // c overtakes b and is acked.
  lemma CArrives(c: Config) returns (es: seq<Event>)
    requires c.pids == [1]
    ensures IsRun(c, es)
    ensures Looks(After(c, es), [Proc(5, [Entry(C(), true, 0)], false)],
                  multiset{Envelope(0, Broad(B())), Envelope(0, Ack(1, C().uid))}, [])
  {
    hide After, IsRun, GenerateUid, ToAll, OnAck, OnBroad;
    es := BothOwn(c);
    BroadOnEmpty(4, C());
    es := RunDeliver(c, es, Envelope(0, Broad(C())), [Proc(4, [], false)],
                     multiset{Envelope(0, Broad(B())), Envelope(0, Broad(C()))}, []);
  }

  // Its ACK is counted, and it is written.
  lemma CWritten(c: Config) returns (es: seq<Event>)
    requires c.pids == [1]
    ensures IsRun(c, es)
    ensures Looks(After(c, es), [Proc(6, [Entry(C(), true, 1)], false)],
                  multiset{Envelope(0, Broad(B())), Envelope(0, Ready(C().uid))}, [C()])
  {
    hide After, IsRun, GenerateUid, ToAll, OnAck, OnBroad;
    es := CArrives(c);
    var toC := Envelope(0, Ack(1, C().uid));
    AckOfHead(5, 1, Entry(C(), true, 0), []);
    OneCopy(Ready(C().uid));
    assert [Entry(C(), true, 0)] + [] == [Entry(C(), true, 0)] && [Entry(C(), true, 1)] + [] == [Entry(C(), true, 1)];
    es := RunDeliver(c, es, toC, [Proc(5, [Entry(C(), true, 0)], false)], multiset{Envelope(0, Broad(B())), toC}, []);
  }

  // That own BROADs come before those of others is not enough: one process that gets its
  // own two BROADs back in the wrong order writes them in the wrong order.
  lemma OvertakingHappens(resets: bool) returns (c: Config, es: seq<Event>)
    ensures ConfigOk(c) && c.resets == resets && IsRun(c, es) && OwnBeforeOthers(c, es)
    ensures After(c, es).log == [C(), B()] && Before(B(), C())
    ensures BroadWire.Decode(BroadWire.Sent(B())).Some? && BroadWire.Decode(BroadWire.Sent(C())).Some?
  {
    hide After, IsRun, GenerateUid, ToAll, OnAck, OnBroad, OwnBeforeOthers, BroadWire.Decode, BroadWire.Sent;
    c := Config([1], resets);
    es := CWritten(c);
    Carried();
    var toB, ready := Envelope(0, Ack(1, B().uid)), Envelope(0, Ready(C().uid));
    var rest := [Entry(C(), true, 1)];
    BroadBefore(6, B(), Entry(C(), true, 1));
    AckOfHead(7, 1, Entry(B(), true, 0), rest);
    assert forall e: Entry :: [e] + rest == [e, Entry(C(), true, 1)];
    es := RunDeliver(c, es, Envelope(0, Broad(B())), [Proc(6, rest, false)], multiset{Envelope(0, Broad(B())), ready}, [C()]);
    assert Looks(After(c, es), [Proc(7, [Entry(B(), true, 0), Entry(C(), true, 1)], false)], multiset{toB, ready}, [C()]);
    es := RunDeliver(c, es, toB, [Proc(7, [Entry(B(), true, 0), Entry(C(), true, 1)], false)], multiset{toB, ready}, [C()]);
    OneProcessOwns(c, es);
  }

  // ----- Messages that are never written -----

  // Nothing is in flight, so nothing happens any more unless something new is issued.
  ghost predicate Quiescent(c: Config, s: State) {
    s.net == multiset{} && forall e :: Enabled(c, s, e) ==> e.Issue?
  }

  lemma EmptyNet(c: Config, s: State)
    requires s.net == multiset{}
    ensures Quiescent(c, s)
  {
  }

  // A message that comes behind an acked head is queued and not acked.
  lemma BroadBehind(lc: nat, m: Message, e: Entry)
    requires lc < CLOCK_SPAN && Before(e.msg, m) && e.acked
    ensures OnBroad(Proc(lc, [e], false), m) == Outcome(Proc(Max(m.lc, lc + 1), [e, Entry(m, false, 0)], false), [], [])
  {
    SortAppend([e], Entry(m, false, 0));
    InsertPosIs([e], m, 1);
  }

  lemma ReadyOfHead(resets: bool, lc: nat, e: Entry, f: Entry)
    ensures OnReady(Proc(lc, [e, f], false), resets, e.msg.uid) == Outcome(Proc(lc, [f], false), [], [])
  {
    FindIs([e, f], e.msg.uid, 0);
  }

  // b and c come back in order; c stands behind b and is not acked.
  lemma BothQueued(c: Config) returns (es: seq<Event>)
    requires c.pids == [1]
    ensures IsRun(c, es)
    ensures Looks(After(c, es), [Proc(6, [Entry(B(), true, 0), Entry(C(), false, 0)], false)],
                  multiset{Envelope(0, Ack(1, B().uid))}, [])
  {
    hide After, IsRun, GenerateUid, ToAll, OnAck, OnBroad;
    es := BothOwn(c);
    var first, second := Envelope(0, Broad(B())), Envelope(0, Broad(C()));
    BroadOnEmpty(4, B());
    es := RunDeliver(c, es, first, [Proc(4, [], false)], multiset{first, second}, []);
    assert Looks(After(c, es), [Proc(5, [Entry(B(), true, 0)], false)], multiset{second, Envelope(0, Ack(1, B().uid))}, []);
    BroadBehind(5, C(), Entry(B(), true, 0));
    es := RunDeliver(c, es, second, [Proc(5, [Entry(B(), true, 0)], false)], multiset{second, Envelope(0, Ack(1, B().uid))}, []);
  }

  // After READY nobody acks the new head: one process writes its first message and then has
  // nothing left to do, with the second one queued and never acked.
  lemma Stalls(resets: bool) returns (c: Config, es: seq<Event>)
    ensures ConfigOk(c) && c.resets == resets && IsRun(c, es) && Quiescent(c, After(c, es))
    ensures After(c, es).procs == [Proc(7, [Entry(C(), false, 0)], false)] && After(c, es).log == [B()]
    ensures BroadWire.Decode(BroadWire.Sent(B())).Some? && BroadWire.Decode(BroadWire.Sent(C())).Some?
  {
    hide After, IsRun, GenerateUid, ToAll, OnAck, OnBroad, OnReady, BroadWire.Decode, BroadWire.Sent;
    c := Config([1], resets);
    es := BothQueued(c);
    Carried();
    OneCopy(Ready(B().uid));
    AckOfHead(6, 1, Entry(B(), true, 0), [Entry(C(), false, 0)]);
    assert forall e, f: Entry :: [e] + [f] == [e, f];
    es := RunDeliver(c, es, Envelope(0, Ack(1, B().uid)), [Proc(6, [Entry(B(), true, 0), Entry(C(), false, 0)], false)],
                     multiset{Envelope(0, Ack(1, B().uid))}, []);
    assert Looks(After(c, es), [Proc(7, [Entry(B(), true, 1), Entry(C(), false, 0)], false)],
                 multiset{Envelope(0, Ready(B().uid))}, [B()]);
    ReadyOfHead(resets, 7, Entry(B(), true, 1), Entry(C(), false, 0));
    es := RunDeliver(c, es, Envelope(0, Ready(B().uid)), [Proc(7, [Entry(B(), true, 1), Entry(C(), false, 0)], false)],
                     multiset{Envelope(0, Ready(B().uid))}, [B()]);
    EmptyNet(c, After(c, es));
  }

  lemma AckUnknown(lc: nat, n: nat, uid: nat)
    ensures OnAck(Proc(lc, [], false), n, uid) == Outcome(Proc(lc, [], false), [], [])
  {
    FindIs([], uid, 0);
  }

  // Process 1 acks b before process 0, which issued it, has it back.
  lemma AckComesEarly(c: Config) returns (es: seq<Event>)
    requires c.pids == TWO_PIDS
    ensures IsRun(c, es)
    ensures Looks(After(c, es), [Proc(2, [], false), Proc(2, [Entry(B(), true, 0)], false)],
                  multiset{Envelope(0, Broad(B())), Envelope(0, Ack(1, B().uid))}, [])
  {
    hide After, IsRun, GenerateUid, ToAll, OnBroad, Terminated;
    var empty := Proc(0, [], false);
    Start(c);
    TwoCopies(Broad(B()));
    Texts();
    es := RunIssue(c, [], 0, "bravo", [empty, empty], multiset{}, []);
    assert Looks(After(c, es), [Proc(2, [], false), empty], ToBoth(Broad(B())), []);
    BroadOnEmpty(0, B());
    es := RunDeliver(c, es, Envelope(1, Broad(B())), [Proc(2, [], false), empty], ToBoth(Broad(B())), []);
  }

  lemma LateHalf(c: Config) returns (es: seq<Event>)
    requires c.pids == TWO_PIDS
    ensures IsRun(c, es)
    ensures Looks(After(c, es), [Proc(3, [Entry(B(), true, 0)], false), Proc(2, [Entry(B(), true, 0)], false)],
                  multiset{Envelope(0, Ack(1, B().uid))}, [])
  {
    hide After, IsRun, GenerateUid, ToAll, OnBroad, OnAck;
    es := AckComesEarly(c);
    var p1 := Proc(2, [Entry(B(), true, 0)], false);
    var early, own := Envelope(0, Ack(1, B().uid)), Envelope(0, Broad(B()));
    AckUnknown(2, 2, B().uid);
    es := RunDeliver(c, es, early, [Proc(2, [], false), p1], multiset{own, early}, []);
    assert Looks(After(c, es), [Proc(2, [], false), p1], multiset{own}, []);
    BroadOnEmpty(2, B());
    es := RunDeliver(c, es, own, [Proc(2, [], false), p1], multiset{own}, []);
  }

  // An early ACK loses its message: both processes have acked b, nothing is left in flight,
  // and b is not written.
  lemma DropHappens(resets: bool) returns (c: Config, es: seq<Event>)
    ensures ConfigOk(c) && c.resets == resets && IsRun(c, es) && Quiescent(c, After(c, es))
    ensures After(c, es).log == [] && After(c, es).hist.dropped[B().uid] > 0
    ensures forall j :: 0 <= j < |c.pids| ==> B() in After(c, es).hist.acked[j]
    ensures BroadWire.Decode(BroadWire.Sent(B())).Some?
  {
    hide After, IsRun, GenerateUid, ToAll, OnAck, BroadWire.Decode, BroadWire.Sent, Inv;
    c := Config(TWO_PIDS, resets);
    es := LateHalf(c);
    Carried();
    var p1 := Proc(2, [Entry(B(), true, 0)], false);
    AckOfHead(3, 2, Entry(B(), true, 0), []);
    assert forall e: Entry :: [e] + [] == [e];
    es := RunDeliver(c, es, Envelope(0, Ack(1, B().uid)), [Proc(3, [Entry(B(), true, 0)], false), p1],
                     multiset{Envelope(0, Ack(1, B().uid))}, []);
    EmptyNet(c, After(c, es));
    RunInv(c, es);
    var s := After(c, es);
    forall j | 0 <= j < |c.pids| ensures B() in s.hist.acked[j] && B() in s.hist.issued {
      AckedEntry(c, s, j, 0);
    }
    assert B() in s.hist.acked[0];
    QuietStateIff(c, s, B());
  }

  lemma AckedEntry(c: Config, s: State, j: nat, i: nat)
    requires Inv(c, s) && j < |c.pids| && i < |s.procs[j].queue| && s.procs[j].queue[i].acked
    ensures s.procs[j].queue[i].msg in s.hist.acked[j] && s.procs[j].queue[i].msg in s.hist.issued
  {
    hide PlacedOk, ReadyOk, CountOk, AcksKnown, LogOk, ClockOk;
    assert QueueOk(s.procs[j], j, s.hist.handled[j], s.hist.acked[j], s.hist.counted);
    assert EntryOk(s.procs[j].queue[i], j, s.hist.handled[j], s.hist.acked[j], s.hist.counted);
  }

  // ----- A stale tail -----

  // One process, one message: its READY empties the queue through the head and, with
  // dequeue as written, leaves the tail stale.
  lemma StaleHappens() returns (c: Config, es: seq<Event>)
    ensures ConfigOk(c) && !c.resets && IsRun(c, es)
    ensures |After(c, es).procs| == 1 && After(c, es).procs[0].stale && After(c, es).log == [B()]
    ensures BroadWire.Decode(BroadWire.Sent(B())).Some?
  {
    hide After, IsRun, GenerateUid, ToAll, OnAck, OnBroad, BroadWire.Decode, BroadWire.Sent;
    Carried();
    c := Config([1], false);
    var m := B();
    StartOne(c);
    OneCopy(Broad(m));
    OneCopy(Ready(m.uid));
    Texts();
    es := RunIssue(c, [], 0, "bravo", [Proc(0, [], false)], multiset{}, []);
    assert Looks(After(c, es), [Proc(2, [], false)], multiset{Envelope(0, Broad(m))}, []);
    BroadOnEmpty(2, m);
    es := RunDeliver(c, es, Envelope(0, Broad(m)), [Proc(2, [], false)], multiset{Envelope(0, Broad(m))}, []);
    assert Looks(After(c, es), [Proc(3, [Entry(m, true, 0)], false)], multiset{Envelope(0, Ack(1, m.uid))}, []);
    AckOfHead(3, 1, Entry(m, true, 0), []);
    assert forall e: Entry :: [e] + [] == [e];
    es := RunDeliver(c, es, Envelope(0, Ack(1, m.uid)), [Proc(3, [Entry(m, true, 0)], false)],
                     multiset{Envelope(0, Ack(1, m.uid))}, []);
    assert Looks(After(c, es), [Proc(4, [Entry(m, true, 1)], false)], multiset{Envelope(0, Ready(m.uid))}, [m]);
    es := RunDeliver(c, es, Envelope(0, Ready(m.uid)), [Proc(4, [Entry(m, true, 1)], false)],
                     multiset{Envelope(0, Ready(m.uid))}, [m]);
  }

  lemma OneCopy(p: Packet)
    ensures multiset(ToAll(1, p)) == multiset{Envelope(0, p)}
  {
    assert ToAll(1, p) == [Envelope(0, p)];
  }

  lemma StartOne(c: Config)
    requires |c.pids| == 1
    ensures IsRun(c, []) && Looks(After(c, []), [Proc(0, [], false)], multiset{}, [])
  {
  }
}
