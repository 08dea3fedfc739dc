// What the broadcast protocol guarantees over whole runs.
module BroadcastTheorems {
  import opened Uid
  import opened QueueSpec
  import opened Handlers
  import opened Broadcast
  import opened Invariants
  import opened Preservation
  import BroadWire
  import opened Words
  import opened Wrappers

  // ----- Runs and their prefixes -----

  lemma {:induction false} PrefixRun(c: Config, es: seq<Event>, k: nat)
    requires IsRun(c, es) && k <= |es|
    ensures IsRun(c, es[..k])
  {
    if k < |es| {
      PrefixRun(c, es[..|es| - 1], k);
      assert es[..|es| - 1][..k] == es[..k];
    } else {
      assert es[..k] == es;
    }
  }

  // History and log only grow, clocks only advance.
  ghost predicate Grows(s: State, t: State) {
    && |s.procs| == |t.procs| == |s.hist.handled| == |t.hist.handled| == |s.hist.acked| == |t.hist.acked|
    && s.hist.issued <= t.hist.issued
    && (forall j :: 0 <= j < |s.procs| ==> s.hist.handled[j] <= t.hist.handled[j])
    && (forall j :: 0 <= j < |s.procs| ==> s.hist.acked[j] <= t.hist.acked[j])
    && (forall j :: 0 <= j < |s.procs| ==> s.procs[j].lc <= t.procs[j].lc)
    && (forall j :: 0 <= j < |s.procs| ==> s.procs[j].stale ==> t.procs[j].stale)
    && s.hist.dropped <= t.hist.dropped
    && s.log <= t.log
  }

  lemma StepGrows(c: Config, s: State, e: Event)
    requires Inv(c, s) && Enabled(c, s, e)
    ensures Grows(s, Apply(c, s, e))
  {
    hide Inv, Grows, StepIssue, StepBroad, StepAck, StepReady;
    ShapedInv(c, s);
    match e
    case Issue(i, body) => IssueGrows(c, s, i, body);
    case Deliver(Envelope(j, Broad(m))) => BroadGrows(c, s, j, m);
    case Deliver(Envelope(j, Ack(pid, uid))) => AckGrows(c, s, j, pid, uid);
    case Deliver(Envelope(j, Ready(uid))) => ReadyGrows(c, s, j, uid);
  }

  lemma ShapedInv(c: Config, s: State)
    requires Inv(c, s)
    ensures Shaped(c, s) && InRange(s)
  {
  }

  lemma IssueGrows(c: Config, s: State, i: nat, body: string)
    requires Shaped(c, s) && InRange(s) && i < |c.pids|
    ensures Grows(s, StepIssue(c, s, i, body))
  {
    hide GenerateUid, ToAll;
    assert s.procs[i].lc < CLOCK_SPAN;
  }

  lemma BroadGrows(c: Config, s: State, j: nat, m: Message)
    requires Shaped(c, s) && InRange(s) && j < |c.pids|
    ensures Grows(s, StepBroad(c, s, j, m))
  {
    hide Arrived, AckHead, HeadAck, NewlyAcked;
    assert s.procs[j].lc < CLOCK_SPAN;
  }

  lemma AckGrows(c: Config, s: State, j: nat, pid: nat, uid: nat)
    requires Shaped(c, s) && InRange(s) && j < |c.pids|
    ensures Grows(s, StepAck(c, s, j, pid, uid))
  {
    hide Find, ToAll;
    assert s.procs[j].lc < CLOCK_SPAN;
  }

  lemma ReadyGrows(c: Config, s: State, j: nat, uid: nat)
    requires Shaped(c, s) && j < |c.pids|
    ensures Grows(s, StepReady(c, s, j, uid))
  {
    hide Remove;
  }

  lemma GrowsTransitive(s: State, t: State, u: State)
    requires Grows(s, t) && Grows(t, u)
    ensures Grows(s, u)
  {
  }

  lemma {:induction false} RunGrows(c: Config, es: seq<Event>, k: nat)
    requires ConfigOk(c) && IsRun(c, es) && k <= |es|
    ensures Grows(After(c, es[..k]), After(c, es))
  {
    hide Inv, Apply, Grows;
    if k == |es| {
      assert es[..k] == es;
      GrowsItself(c, es);
    } else {
      var p := es[..|es| - 1];
      RunGrows(c, p, k);
      assert p[..k] == es[..k];
      RunInv(c, p);
      StepGrows(c, After(c, p), es[|es| - 1]);
      GrowsTransitive(After(c, es[..k]), After(c, p), After(c, es));
    }
  }

  lemma GrowsItself(c: Config, es: seq<Event>)
    ensures Grows(After(c, es), After(c, es))
  {
  }

  // The state before and after event k.
  function Pre(c: Config, es: seq<Event>, k: nat): (s: State)
    requires k < |es|
    ensures Shaped(c, s)
  {
    After(c, es[..k])
  }

  function Post(c: Config, es: seq<Event>, k: nat): (s: State)
    requires k < |es|
    ensures Shaped(c, s)
  {
    After(c, es[..k + 1])
  }

  lemma PostIsApply(c: Config, es: seq<Event>, k: nat)
    requires ConfigOk(c) && IsRun(c, es) && k < |es|
    ensures Inv(c, Pre(c, es, k)) && Inv(c, Post(c, es, k))
    ensures Enabled(c, Pre(c, es, k), es[k]) && Post(c, es, k) == Apply(c, Pre(c, es, k), es[k])
  {
    hide Inv, Apply;
    PrefixRun(c, es, k);
    PrefixRun(c, es, k + 1);
    RunInv(c, es[..k]);
    RunInv(c, es[..k + 1]);
    assert es[..k + 1][..k] == es[..k];
  }

  lemma LastEvent(c: Config, es: seq<Event>)
    requires ConfigOk(c) && IsRun(c, es) && es != []
    ensures IsRun(c, es[..|es| - 1]) && es[..|es|] == es
    ensures Inv(c, After(c, es[..|es| - 1])) && Inv(c, After(c, es))
    ensures Enabled(c, After(c, es[..|es| - 1]), es[|es| - 1])
    ensures After(c, es) == Apply(c, After(c, es[..|es| - 1]), es[|es| - 1])
  {
    hide Inv, Apply;
    RunInv(c, es[..|es| - 1]);
    RunInv(c, es);
  }

  // ----- What one event can add -----

  lemma NewIssue(c: Config, s: State, e: Event, a: Message)
    requires Inv(c, s) && Enabled(c, s, e)
    requires a !in s.hist.issued && a in Apply(c, s, e).hist.issued
    ensures e.Issue? && a == IssuedMessage(s.procs[e.issuer], c.pids[e.issuer], e.issuer, e.text)
    ensures a.src == e.issuer
  {
    hide IssuedOk, BroadOk, QueuesOk, PlacedOk, ReadyOk, CountOk, AcksKnown, LogOk, ClockOk;
    hide Sort, Find, Remove, GenerateUid, ToAll, AckHead, HeadAck;
  }

  lemma NewAck(c: Config, s: State, e: Event, j: nat, b: Message)
    requires Inv(c, s) && Enabled(c, s, e) && j < |c.pids|
    requires b !in s.hist.acked[j] && b in Apply(c, s, e).hist.acked[j]
    ensures e.Deliver? && e.env.to == j && e.env.packet.Broad?
    ensures var p := Apply(c, s, e).procs[j]; p.queue != [] && p.queue[0].msg == b
    ensures Apply(c, s, e).hist.issued == s.hist.issued
    ensures Apply(c, s, e).log == s.log
  {
    hide IssuedOk, BroadOk, QueuesOk, PlacedOk, ReadyOk, CountOk, AcksKnown, LogOk, ClockOk;
    hide Sort, Find, Remove, GenerateUid, ToAll, HeadAck, Arrived;
  }

  lemma NewWrite(c: Config, s: State, e: Event)
    requires Inv(c, s) && Enabled(c, s, e)
    ensures var t := Apply(c, s, e); t.log == s.log || (|t.log| == |s.log| + 1 && s.log <= t.log)
  {
    hide IssuedOk, BroadOk, QueuesOk, PlacedOk, ReadyOk, CountOk, AcksKnown, LogOk, ClockOk;
    hide Sort, Find, Remove, GenerateUid, ToAll, HeadAck, AckHead;
  }

  // ----- Everyone acked what is written, at the head of a sorted queue -----

  // Event k is the BROAD delivery after which process j has b at the head of its sorted
  // queue and sends the ACK for it.
  ghost predicate AcksAt(c: Config, es: seq<Event>, k: nat, j: nat, b: Message) {
    && k < |es| && j < |c.pids|
    && es[k].Deliver? && es[k].env.to == j && es[k].env.packet.Broad?
    && b !in Pre(c, es, k).hist.acked[j] && b in Post(c, es, k).hist.acked[j]
    && (var q := Post(c, es, k).procs[j].queue; q != [] && q[0].msg == b && StrictlySorted(q))
  }

  lemma SortedQueue(c: Config, s: State, j: nat)
    requires Inv(c, s) && j < |c.pids|
    ensures StrictlySorted(s.procs[j].queue)
  {
    assert QueueOk(s.procs[j], j, s.hist.handled[j], s.hist.acked[j], s.hist.counted);
  }

  lemma {:induction false} AckedAsHead(c: Config, es: seq<Event>, j: nat, b: Message)
    requires ConfigOk(c) && IsRun(c, es) && j < |c.pids| && b in After(c, es).hist.acked[j]
    ensures exists k: nat :: AcksAt(c, es, k, j, b)
  {
    hide Inv, Apply;
    if es != [] {
      LastEvent(c, es);
      var p := es[..|es| - 1];
      if b in After(c, p).hist.acked[j] {
        AckedAsHead(c, p, j, b);
        var k: nat :| AcksAt(c, p, k, j, b);
        assert p[..k] == es[..k] && p[..k + 1] == es[..k + 1];
        assert AcksAt(c, es, k, j, b);
      } else {
        NewAck(c, After(c, p), es[|es| - 1], j, b);
        SortedQueue(c, After(c, es), j);
        assert es[..|es| - 1 + 1] == es;
        assert AcksAt(c, es, |es| - 1, j, b);
      }
    }
  }

  // Once READY(m) has been broadcast and m written, every process has handled m and has
  // acked it while m headed its sorted queue; all those ACKs were counted by the issuer,
  // none was dropped, none is still under way.
  lemma WrittenMeansAckedByAll(c: Config, es: seq<Event>, m: Message)
    requires ConfigOk(c) && IsRun(c, es) && m in After(c, es).log
    ensures forall j :: 0 <= j < |c.pids| ==> AckedByAsHead(c, es, j, m)
    ensures var s := After(c, es);
            && s.hist.counted[m.uid] == |c.pids| && s.hist.dropped[m.uid] == 0
            && forall j, pid :: s.net[Envelope(j, Ack(pid, m.uid))] == 0
  {
    hide Inv, AckedByAsHead;
    RunInv(c, es);
    AllAcked(c, After(c, es), m);
    forall j | 0 <= j < |c.pids| ensures AckedByAsHead(c, es, j, m) {
      AckedByHead(c, es, j, m);
    }
  }

  ghost predicate AckedByAsHead(c: Config, es: seq<Event>, j: nat, m: Message) {
    && j < |c.pids|
    && m in After(c, es).hist.handled[j] && m in After(c, es).hist.acked[j]
    && exists k: nat :: AcksAt(c, es, k, j, m)
  }

  lemma AckedByHead(c: Config, es: seq<Event>, j: nat, m: Message)
    requires ConfigOk(c) && IsRun(c, es) && j < |c.pids|
    requires m in After(c, es).hist.handled[j] && m in After(c, es).hist.acked[j]
    ensures AckedByAsHead(c, es, j, m)
  {
    AckedAsHead(c, es, j, m);
  }

  lemma AllAcked(c: Config, s: State, m: Message)
    requires Inv(c, s) && m in s.log
    ensures forall j :: 0 <= j < |c.pids| ==> m in s.hist.handled[j] && m in s.hist.acked[j]
    ensures s.hist.counted[m.uid] == |c.pids| && s.hist.dropped[m.uid] == 0
    ensures forall j, pid :: s.net[Envelope(j, Ack(pid, m.uid))] == 0
  {
    hide BroadOk, PlacedOk, ReadyOk, ClockOk, IssuedOk;
    assert AcksBalance(s, m);
    AckersBounded(c, s, m);
    forall j | 0 <= j < |c.pids| ensures m in s.hist.handled[j] && m in s.hist.acked[j] {
      assert QueueOk(s.procs[j], j, s.hist.handled[j], s.hist.acked[j], s.hist.counted);
    }
    forall j: nat, pid: nat ensures s.net[Envelope(j, Ack(pid, m.uid))] == 0 {
      if Envelope(j, Ack(pid, m.uid)) in s.net {
        var a :| a in s.hist.issued && a.src == j && a.pid == pid && a.uid == m.uid;
        UidNamesOne(c, s, a, m);
      }
    }
  }

  // The exact condition for being written: the issuer counted an ACK from every process.
  lemma WrittenIffCounted(c: Config, es: seq<Event>, m: Message)
    requires ConfigOk(c) && IsRun(c, es) && m in After(c, es).hist.issued
    ensures m in After(c, es).log <==> After(c, es).hist.counted[m.uid] == |c.pids|
    ensures After(c, es).hist.counted[m.uid] <= |c.pids|
  {
    RunInv(c, es);
    assert AcksBalance(After(c, es), m);
    AckersBounded(c, After(c, es), m);
  }

  // No message is written twice, and a READY under way finds exactly one queued node, the
  // written message's, with ack_flg set.
  lemma WrittenOnceAndRemovable(c: Config, es: seq<Event>, j: nat, uid: nat)
    requires ConfigOk(c) && IsRun(c, es)
    ensures var log := After(c, es).log; forall a, b :: 0 <= a < b < |log| ==> log[a] != log[b]
    ensures j < |c.pids| && Envelope(j, Ready(uid)) in After(c, es).net ==>
              var q := After(c, es).procs[j].queue;
              exists i :: 0 <= i < |q| && q[i].msg.uid == uid && q[i].acked && q[i].msg in After(c, es).log &&
                          forall k :: 0 <= k < |q| && q[k].msg.uid == uid ==> k == i
  {
    hide Inv, IsRun, After;
    RunInv(c, es);
    LogFacts(c, After(c, es));
    if j < |c.pids| && Envelope(j, Ready(uid)) in After(c, es).net {
      ReadyFinds(c, After(c, es), j, uid);
    }
  }

  // ----- Clocks -----

  // Once m is written, no clock is behind it.
  lemma ClocksPassWritten(c: Config, es: seq<Event>, m: Message, j: nat)
    requires ConfigOk(c) && IsRun(c, es) && m in After(c, es).log && j < |c.pids|
    ensures m.lc <= After(c, es).procs[j].lc
  {
    RunInv(c, es);
    AllAcked(c, After(c, es), m);
  }

  // Event k issues m.
  ghost predicate IssuesAt(c: Config, es: seq<Event>, k: nat, m: Message) {
    k < |es| && m !in Pre(c, es, k).hist.issued && m in Post(c, es, k).hist.issued
  }

  lemma {:induction false} IssuedSomewhere(c: Config, es: seq<Event>, p: nat, m: Message)
    requires ConfigOk(c) && IsRun(c, es) && p <= |es|
    requires m !in After(c, es[..p]).hist.issued && m in After(c, es).hist.issued
    decreases |es| - p
    ensures exists k: nat :: p <= k && IssuesAt(c, es, k, m)
  {
    hide Inv, Apply;
    assert es[..|es|] == es;
    if m !in Post(c, es, p).hist.issued {
      IssuedSomewhere(c, es, p + 1, m);
    } else {
      assert IssuesAt(c, es, p, m);
    }
  }

  // The link between what a process knew and what it issues next: a message it handled or
  // issued before is at least two ticks older.
  lemma IssueRaisesClock(c: Config, es: seq<Event>, k: nat, m: Message, old': Message)
    requires ConfigOk(c) && IsRun(c, es) && IssuesAt(c, es, k, m)
    requires m.src < |c.pids|
    requires old' in Pre(c, es, k).hist.handled[m.src] ||
             (old' in Pre(c, es, k).hist.issued && old'.src == m.src)
    ensures old'.lc + 2 <= m.lc
  {
    PostIsApply(c, es, k);
    var s := Pre(c, es, k);
    hide BroadOk, QueuesOk, PlacedOk, ReadyOk, CountOk, AcksKnown, LogOk, Apply;
    NewIssue(c, s, es[k], m);
    StepInRange(c, s, es[k]);
    if old' in s.hist.issued && old'.src == m.src {
      assert GoodMessage(c, s, old');
    }
  }

  lemma StepInRange(c: Config, s: State, e: Event)
    requires Shaped(c, s) && InRange(s) && Enabled(c, s, e) && e.Issue?
    ensures IssuedMessage(s.procs[e.issuer], c.pids[e.issuer], e.issuer, e.text).lc == s.procs[e.issuer].lc + 2
  {
    hide GenerateUid;
    assert s.procs[e.issuer].lc < CLOCK_SPAN;
  }

  // m' is issued by a process that has handled m or issued m itself.
  ghost predicate Follows(c: Config, es: seq<Event>, m: Message, m': Message) {
    exists k: nat :: IssuesAt(c, es, k, m') && m'.src < |c.pids| &&
      (m in Pre(c, es, k).hist.handled[m'.src] || (m in Pre(c, es, k).hist.issued && m.src == m'.src))
  }

  // Every link of a causal chain raises the timestamp by at least two.
  lemma {:induction false} CausalChain(c: Config, es: seq<Event>, chain: seq<Message>)
    requires ConfigOk(c) && IsRun(c, es) && chain != []
    requires forall i :: 0 <= i < |chain| - 1 ==> Follows(c, es, chain[i], chain[i + 1])
    ensures chain[0].lc + 2 * (|chain| - 1) <= chain[|chain| - 1].lc
  {
    if |chain| > 1 {
      var n := |chain| - 1;
      CausalChain(c, es, chain[..n]);
      assert Follows(c, es, chain[n - 1], chain[n - 1 + 1]);
      var k: nat :| IssuesAt(c, es, k, chain[n]) && chain[n].src < |c.pids| &&
        (chain[n - 1] in Pre(c, es, k).hist.handled[chain[n].src] ||
         (chain[n - 1] in Pre(c, es, k).hist.issued && chain[n - 1].src == chain[n].src));
      IssueRaisesClock(c, es, k, chain[n], chain[n - 1]);
    }
  }

  // Whatever is issued after m was written is ordered strictly after m, on any process.
  lemma IssuedLaterIsAfter(c: Config, es: seq<Event>, p: nat, m: Message, m': Message)
    requires ConfigOk(c) && IsRun(c, es) && p <= |es|
    requires m in After(c, es[..p]).log
    requires m' !in After(c, es[..p]).hist.issued && m' in After(c, es).hist.issued
    ensures Before(m, m')
  {
    hide Inv, Apply, Grows, After, IsRun, IssuesAt;
    IssuedSomewhere(c, es, p, m');
    var k: nat :| p <= k && IssuesAt(c, es, k, m');
    IssueIndex(c, es, k, m');
    LoggedHandled(c, es, p, k, m, m'.src);
    IssueRaisesClock(c, es, k, m', m);
  }

  lemma IssueIndex(c: Config, es: seq<Event>, k: nat, m: Message)
    requires ConfigOk(c) && IsRun(c, es) && IssuesAt(c, es, k, m)
    ensures k < |es| && m.src < |c.pids|
  {
    hide Inv, Apply;
    PostIsApply(c, es, k);
    NewIssue(c, Pre(c, es, k), es[k], m);
  }

  lemma LoggedHandled(c: Config, es: seq<Event>, p: nat, k: nat, m: Message, j: nat)
    requires ConfigOk(c) && IsRun(c, es) && p <= k <= |es| && j < |c.pids|
    requires m in After(c, es[..p]).log
    ensures m in After(c, es[..k]).hist.handled[j]
  {
    hide Inv, Apply, Grows;
    PrefixRun(c, es, k);
    RunGrows(c, es[..k], p);
    assert es[..k][..p] == es[..p];
    StillLogged(After(c, es[..p]), After(c, es[..k]), m);
    RunInv(c, es[..k]);
    AllAcked(c, After(c, es[..k]), m);
  }

  lemma StillLogged(s: State, t: State, m: Message)
    requires Grows(s, t) && m in s.log
    ensures m in t.log
  {
  }

  // ----- One delivery order -----

  // Process j acks b in event k although it has not handled a by then.
  ghost predicate AcksWithout(c: Config, es: seq<Event>, k: nat, j: nat, a: Message, b: Message) {
    AcksAt(c, es, k, j, b) && a !in Post(c, es, k).hist.handled[j]
  }

  // a's issuer acks b although a, which it issued earlier, has not come back to it yet.
  ghost predicate BlindAck(c: Config, es: seq<Event>, k: nat, a: Message, b: Message) {
    && AcksWithout(c, es, k, a.src, a, b)
    && a in Pre(c, es, k).hist.issued
  }

  lemma AckedHeadLeavesNothingBefore(c: Config, s: State, j: nat, a: Message, b: Message)
    requires Inv(c, s) && j < |c.pids| && s.procs[j].queue != [] && s.procs[j].queue[0].msg == b
    requires a in s.hist.handled[j] && Before(a, b)
    ensures a in s.log
  {
    hide IssuedOk, BroadOk, ReadyOk, CountOk, AcksKnown, LogOk, ClockOk;
    var q := s.procs[j].queue;
    assert QueueOk(s.procs[j], j, s.hist.handled[j], s.hist.acked[j], s.hist.counted);
    if Queued(q, a) {
      var i :| 0 <= i < |q| && q[i].msg == a;
      HeadFirst(q, i);
    }
  }

  lemma HeadFirst(q: seq<Entry>, i: nat)
    requires StrictlySorted(q) && i < |q|
    ensures !Before(q[i].msg, q[0].msg)
  {
  }

  // A process that has acked b has seen everything of its own that is ordered before b
  // written, unless it acked b blindly.
  lemma {:induction false} AckedAfterOwn(c: Config, es: seq<Event>, a: Message, b: Message)
    requires ConfigOk(c) && IsRun(c, es)
    requires a in After(c, es).hist.issued && a.src < |c.pids|
    requires b in After(c, es).hist.acked[a.src] && Before(a, b)
    ensures a in After(c, es).log || exists k: nat :: BlindAck(c, es, k, a, b)
  {
    hide Inv, Apply, Grows;
    if es != [] {
      LastEvent(c, es);
      var p, e := es[..|es| - 1], es[|es| - 1];
      var s, t := After(c, p), After(c, es);
      StepGrows(c, s, e);
      if a !in s.hist.issued {
        NewIssue(c, s, e, a);
        NewIssueOwn(c, s, e, a, b);
      } else if b in s.hist.acked[a.src] {
        AckedAfterOwn(c, p, a, b);
        if a in s.log {
          StillLogged(s, t, a);
        } else {
          var k: nat :| BlindAck(c, p, k, a, b);
          assert p[..k] == es[..k] && p[..k + 1] == es[..k + 1];
          assert BlindAck(c, es, k, a, b);
        }
      } else {
        NewAck(c, s, e, a.src, b);
        if a in t.hist.handled[a.src] {
          AckedHeadLeavesNothingBefore(c, t, a.src, a, b);
        } else {
          SortedQueue(c, t, a.src);
          assert es[..|es| - 1 + 1] == es;
          assert BlindAck(c, es, |es| - 1, a, b);
        }
      }
    }
  }

  lemma NewIssueOwn(c: Config, s: State, e: Event, a: Message, b: Message)
    requires Inv(c, s) && Enabled(c, s, e) && e.Issue? && a.src == e.issuer
    requires a == IssuedMessage(s.procs[e.issuer], c.pids[e.issuer], e.issuer, e.text)
    requires b in Apply(c, s, e).hist.acked[a.src]
    ensures !Before(a, b)
  {
    hide IssuedOk, BroadOk, PlacedOk, ReadyOk, CountOk, AcksKnown, LogOk, GenerateUid, ToAll;
    StepInRange(c, s, e);
    assert QueueOk(s.procs[a.src], a.src, s.hist.handled[a.src], s.hist.acked[a.src], s.hist.counted);
  }

  // Process j has acked b without having handled a.
  ghost predicate AckedWithout(c: Config, es: seq<Event>, j: nat, a: Message, b: Message) {
    exists k: nat :: AcksWithout(c, es, k, j, a, b)
  }

  // A process that acks b after handling a, which is ordered before b, sees a written.
  lemma AckedWithoutUnlessWritten(c: Config, es: seq<Event>, j: nat, a: Message, b: Message)
    requires ConfigOk(c) && IsRun(c, es) && j < |c.pids|
    requires b in After(c, es).hist.acked[j] && a !in After(c, es).log && Before(a, b)
    ensures AckedWithout(c, es, j, a, b)
  {
    hide Inv, Apply, Grows, IsRun, After;
    AckedAsHead(c, es, j, b);
    var k: nat :| AcksAt(c, es, k, j, b);
    PostIsApply(c, es, k);
    if a in Post(c, es, k).hist.handled[j] {
      AckedHeadLeavesNothingBefore(c, Post(c, es, k), j, a, b);
      RunGrows(c, es, k + 1);
      StillLogged(Post(c, es, k), After(c, es), a);
    }
    assert AcksWithout(c, es, k, j, a, b);
  }

  // With no assumption on the network: if b is written and a, ordered before b, is not,
  // then every process acked b before it handled a, and a's issuer did so after issuing a.
  lemma OnlyInversion(c: Config, es: seq<Event>, a: Message, b: Message)
    requires ConfigOk(c) && IsRun(c, es)
    requires b in After(c, es).log && a in After(c, es).hist.issued && a !in After(c, es).log
    requires Before(a, b)
    ensures forall j :: 0 <= j < |c.pids| ==> AckedWithout(c, es, j, a, b)
    ensures exists k: nat :: BlindAck(c, es, k, a, b)
  {
    hide Inv, BlindAck, AckedWithout;
    RunInv(c, es);
    AllAcked(c, After(c, es), b);
    forall j | 0 <= j < |c.pids| ensures AckedWithout(c, es, j, a, b) {
      AckedWithoutUnlessWritten(c, es, j, a, b);
    }
    IssuerIndex(c, After(c, es), a);
    AckedAfterOwn(c, es, a, b);
  }

  lemma IssuerIndex(c: Config, s: State, a: Message)
    requires Inv(c, s) && a in s.hist.issued
    ensures a.src < |c.pids| && a.pid == c.pids[a.src]
  {
    assert GoodMessage(c, s, a);
  }

  // Every prefix of the log is the whole log of some earlier state.
  lemma {:induction false} LogPrefix(c: Config, es: seq<Event>, n: nat) returns (p: nat)
    requires ConfigOk(c) && IsRun(c, es) && n <= |After(c, es).log|
    ensures p <= |es| && After(c, es[..p]).log == After(c, es).log[..n]
  {
    hide Inv, Apply;
    if n == |After(c, es).log| {
      p := |es|;
      assert es[..p] == es;
    } else {
      LastEvent(c, es);
      var q := es[..|es| - 1];
      NewWrite(c, After(c, q), es[|es| - 1]);
      p := LogPrefix(c, q, n);
      assert q[..p] == es[..p];
    }
  }

  // The same for two written messages: the one ordered first is written first, unless every
  // process acked the other before it handled this one.
  lemma OnlyWrittenInversion(c: Config, es: seq<Event>, i: nat, j: nat)
    requires ConfigOk(c) && IsRun(c, es) && i < j < |After(c, es).log|
    requires !Before(After(c, es).log[i], After(c, es).log[j])
    ensures forall p :: 0 <= p < |c.pids| ==> AckedWithout(c, es, p, After(c, es).log[j], After(c, es).log[i])
    ensures exists k: nat :: BlindAck(c, es, k, After(c, es).log[j], After(c, es).log[i])
  {
    hide Inv, BlindAck, AckedWithout, Apply;
    var s := After(c, es);
    var a, b := s.log[j], s.log[i];
    var n := LogPrefix(c, es, i + 1);
    WrittenBefore(c, es, n, i, j);
    PrefixRun(c, es, n);
    OnlyInversion(c, es[..n], a, b);
    var k: nat :| BlindAck(c, es[..n], k, a, b);
    BlindAckExtends(c, es, n, k, a, b);
    forall p | 0 <= p < |c.pids| ensures AckedWithout(c, es, p, a, b) {
      AckedWithoutExtends(c, es, n, p, a, b);
    }
  }

  // At the moment log[i] was written, log[j] was issued and not yet written.
  lemma WrittenBefore(c: Config, es: seq<Event>, n: nat, i: nat, j: nat)
    requires ConfigOk(c) && IsRun(c, es) && i < j < |After(c, es).log| && n <= |es|
    requires After(c, es[..n]).log == After(c, es).log[..i + 1]
    requires !Before(After(c, es).log[i], After(c, es).log[j])
    ensures var a, b, t := After(c, es).log[j], After(c, es).log[i], After(c, es[..n]);
            a in t.hist.issued && a !in t.log && b in t.log && Before(a, b)
  {
    hide Inv, Apply, IsRun;
    var s, t := After(c, es), After(c, es[..n]);
    var a, b := s.log[j], s.log[i];
    RunInv(c, es);
    LogFacts(c, s);
    BeforeTotalInv(c, s, a, b);
    assert b == t.log[i];
    if a !in t.hist.issued {
      IssuedLaterIsAfter(c, es, n, b, a);
    }
  }

  lemma LogFacts(c: Config, s: State)
    requires Inv(c, s)
    ensures forall i, j :: 0 <= i < j < |s.log| ==> s.log[i] != s.log[j]
    ensures forall m :: m in s.log ==> m in s.hist.issued
  {
  }

  lemma BeforeTotalInv(c: Config, s: State, a: Message, b: Message)
    requires Inv(c, s) && a in s.hist.issued && b in s.hist.issued && a != b
    ensures Before(a, b) || Before(b, a)
  {
    BeforeTotal(c, s, a, b);
  }

  lemma BlindAckExtends(c: Config, es: seq<Event>, p: nat, k: nat, a: Message, b: Message)
    requires p <= |es| && BlindAck(c, es[..p], k, a, b)
    ensures BlindAck(c, es, k, a, b)
  {
    hide After, StrictlySorted;
    assert es[..p][..k] == es[..k] && es[..p][..k + 1] == es[..k + 1];
  }

  lemma AckedWithoutExtends(c: Config, es: seq<Event>, n: nat, j: nat, a: Message, b: Message)
    requires n <= |es| && AckedWithout(c, es[..n], j, a, b)
    ensures AckedWithout(c, es, j, a, b)
  {
    hide After, StrictlySorted;
    var k: nat :| AcksWithout(c, es[..n], k, j, a, b);
    assert es[..n][..k] == es[..k] && es[..n][..k + 1] == es[..k + 1];
    assert AcksWithout(c, es, k, j, a, b);
  }

  // Some process has not acked b before handling a.
  ghost predicate SomeoneWaits(c: Config, es: seq<Event>, a: Message, b: Message) {
    exists j: nat :: j < |c.pids| && !AckedWithout(c, es, j, a, b)
  }

  // If for every two messages some process, whichever it is, handles the one ordered first
  // before it acks the other, then the log is strictly increasing in (lc, larger pid first),
  // and when a message is written everything issued and ordered before it has been written.
  lemma TotalOrder(c: Config, es: seq<Event>)
    requires ConfigOk(c) && IsRun(c, es)
    requires forall a, b | a in After(c, es).hist.issued && b in After(c, es).hist.issued ::
               a.lc < b.lc || (a.lc == b.lc && a.pid > b.pid) ==> SomeoneWaits(c, es, a, b)
    ensures var log := After(c, es).log;
            forall i, j :: 0 <= i < j < |log| ==>
              log[i].lc < log[j].lc || (log[i].lc == log[j].lc && log[i].pid > log[j].pid)
    ensures forall a, b | b in After(c, es).log && a in After(c, es).hist.issued ::
              a.lc < b.lc || (a.lc == b.lc && a.pid > b.pid) ==> a in After(c, es).log
  {
    hide Inv, AckedWithout, BlindAck, Apply;
    var log := After(c, es).log;
    RunInv(c, es);
    LogFacts(c, After(c, es));
    forall i, j | 0 <= i < j < |log| ensures Before(log[i], log[j]) {
      if !Before(log[i], log[j]) {
        BeforeTotalInv(c, After(c, es), log[i], log[j]);
        assert SomeoneWaits(c, es, log[j], log[i]);
        OnlyWrittenInversion(c, es, i, j);
      }
    }
    forall a, b | b in log && a in After(c, es).hist.issued && Before(a, b) ensures a in log {
      if a !in log {
        assert SomeoneWaits(c, es, a, b);
        OnlyInversion(c, es, a, b);
      }
    }
  }

  // The network assumption: a process gets its own BROADs back in the order of issue, each
  // before any other process's BROAD that it handles after the ISSUE.
  ghost predicate SelfDelivery(c: Config, es: seq<Event>) {
    forall k: nat, i: nat, m :: k < |es| && es[k] == Deliver(Envelope(i, Broad(m))) && i < |c.pids| ==>
      OwnFirst(Pre(c, es, k), i, m)
  }

  ghost predicate OwnFirst(s: State, i: nat, m: Message) {
    i < |s.hist.handled| &&
    forall a :: a in s.hist.issued && a.src == i && a !in s.hist.handled[i] && a != m ==>
      m.src == i && Before(m, a)
  }

  // A weaker assumption: own BROADs come back before those of other processes that are
  // handled after the ISSUE, in whatever order.
  ghost predicate OwnBeforeOthers(c: Config, es: seq<Event>) {
    forall k: nat, i: nat, m :: k < |es| && es[k] == Deliver(Envelope(i, Broad(m))) && i < |c.pids| && m.src != i ==>
      OwnHandled(Pre(c, es, k), i)
  }

  ghost predicate OwnHandled(s: State, i: nat) {
    i < |s.hist.handled| && forall a :: a in s.hist.issued && a.src == i ==> a in s.hist.handled[i]
  }

  lemma SelfDeliveryNeverBlind(c: Config, es: seq<Event>, k: nat, a: Message, b: Message)
    requires ConfigOk(c) && IsRun(c, es) && SelfDelivery(c, es) && Before(a, b)
    ensures !BlindAck(c, es, k, a, b)
  {
    hide Inv, Apply, IsRun;
    if BlindAck(c, es, k, a, b) {
      PostIsApply(c, es, k);
      var m := es[k].env.packet.msg;
      assert es[k] == Deliver(Envelope(a.src, Broad(m)));
      assert OwnFirst(Pre(c, es, k), a.src, m);
      BroadEffect(c, Pre(c, es, k), a.src, m);
      SortedQueue(c, Post(c, es, k), a.src);
      var q := Post(c, es, k).procs[a.src].queue;
      var i :| 0 <= i < |q| && q[i].msg == m;
      HeadFirst(q, i);
    }
  }

  lemma BroadEffect(c: Config, s: State, j: nat, m: Message)
    requires Inv(c, s) && j < |c.pids| && Envelope(j, Broad(m)) in s.net
    ensures var t := Apply(c, s, Deliver(Envelope(j, Broad(m))));
            && t.hist.handled[j] == s.hist.handled[j] + {m}
            && (t.procs[j].queue != [] ==> Queued(t.procs[j].queue, m))
  {
    hide Inv, OnBroad;
    assert StepBroad(c, s, j, m) == Apply(c, s, Deliver(Envelope(j, Broad(m)))) by { ShapedInv(c, s); }
    BroadQueued(c, s, j, m);
  }

  // What a's issuer acks without having handled a, and is ordered after a, it acks after
  // issuing a.
  lemma OwnUnhandledIsBlind(c: Config, es: seq<Event>, k: nat, a: Message, b: Message)
    requires ConfigOk(c) && IsRun(c, es) && a in After(c, es).hist.issued && a.src < |c.pids|
    requires Before(a, b) && AcksWithout(c, es, k, a.src, a, b)
    ensures BlindAck(c, es, k, a, b)
  {
    hide Inv, Apply, IsRun, After, IssuesAt;
    PostIsApply(c, es, k);
    NewAck(c, Pre(c, es, k), es[k], a.src, b);
    if a !in Pre(c, es, k).hist.issued {
      assert a !in Post(c, es, k).hist.issued;
      IssuedSomewhere(c, es, k + 1, a);
      var i: nat :| k + 1 <= i && IssuesAt(c, es, i, a);
      IssueIndex(c, es, i, a);
      StillHandled(c, es, k, i, a.src, b);
      IssueRaisesClock(c, es, i, a, b);
    }
  }

  lemma StillHandled(c: Config, es: seq<Event>, k: nat, i: nat, j: nat, b: Message)
    requires ConfigOk(c) && IsRun(c, es) && k < i < |es| && AcksAt(c, es, k, j, b)
    ensures b in Pre(c, es, i).hist.handled[j]
  {
    hide Inv, Apply, Grows;
    PostIsApply(c, es, k);
    AckedIsHandled(c, Post(c, es, k), j, b);
    PrefixRun(c, es, i);
    RunGrows(c, es[..i], k + 1);
    assert es[..i][..k + 1] == es[..k + 1];
    HandledGrows(Post(c, es, k), Pre(c, es, i), j, b);
  }

  lemma AckedIsHandled(c: Config, s: State, j: nat, b: Message)
    requires Inv(c, s) && j < |c.pids| && b in s.hist.acked[j]
    ensures b in s.hist.handled[j]
  {
    assert QueueOk(s.procs[j], j, s.hist.handled[j], s.hist.acked[j], s.hist.counted);
  }

  lemma HandledGrows(s: State, t: State, j: nat, b: Message)
    requires Grows(s, t) && j < |s.procs| && b in s.hist.handled[j]
    ensures b in t.hist.handled[j]
  {
  }

  // Totally ordered delivery: the process that waits is the issuer of the earlier message.
  lemma OrderedDelivery(c: Config, es: seq<Event>)
    requires ConfigOk(c) && IsRun(c, es) && SelfDelivery(c, es)
    ensures var log := After(c, es).log;
            forall i, j :: 0 <= i < j < |log| ==>
              log[i].lc < log[j].lc || (log[i].lc == log[j].lc && log[i].pid > log[j].pid)
    ensures forall a, b | b in After(c, es).log && a in After(c, es).hist.issued ::
              a.lc < b.lc || (a.lc == b.lc && a.pid > b.pid) ==> a in After(c, es).log
  {
    hide SelfDelivery, BlindAck, IsRun, After, AcksWithout, Inv;
    RunInv(c, es);
    forall a, b | a in After(c, es).hist.issued && b in After(c, es).hist.issued && Before(a, b)
      ensures SomeoneWaits(c, es, a, b)
    {
      IssuerIndex(c, After(c, es), a);
      if AckedWithout(c, es, a.src, a, b) {
        var k: nat :| AcksWithout(c, es, k, a.src, a, b);
        OwnUnhandledIsBlind(c, es, k, a, b);
        SelfDeliveryNeverBlind(c, es, k, a, b);
      }
    }
    TotalOrder(c, es);
  }

  // ----- Keys -----

  // No two messages of a run share (lc, pid) or a uid, the uid gives back pid and lc, and
  // any two issued messages are ordered.
  lemma KeysUnique(c: Config, es: seq<Event>, a: Message, b: Message)
    requires ConfigOk(c) && IsRun(c, es)
    requires a in After(c, es).hist.issued && b in After(c, es).hist.issued
    ensures a.uid == b.uid ==> a == b
    ensures a.lc == b.lc && a.pid == b.pid ==> a == b
    ensures a.uid / 4096 == a.pid && a.uid % 4096 + 1 == a.lc
    ensures a != b ==> Before(a, b) || Before(b, a)
  {
    RunInv(c, es);
    KeysOf(c, After(c, es), a, b);
  }

  lemma KeysOf(c: Config, s: State, a: Message, b: Message)
    requires Inv(c, s) && a in s.hist.issued && b in s.hist.issued
    ensures a.uid == b.uid ==> a == b
    ensures a.lc == b.lc && a.pid == b.pid ==> a == b
    ensures a.uid / 4096 == a.pid && a.uid % 4096 + 1 == a.lc
    ensures a != b ==> Before(a, b) || Before(b, a)
  {
    hide BroadOk, QueuesOk, PlacedOk, ReadyOk, CountOk, AcksKnown, LogOk, ClockOk, GenerateUid;
    assert GoodMessage(c, s, a) && GoodMessage(c, s, b);
    UidRecoversBothHalves(a.pid, a.lc - 1);
    if a.uid == b.uid { UidNamesOne(c, s, a, b); }
    if a != b { BeforeTotal(c, s, a, b); }
  }

  // Processes that queue the same messages queue them in the same order.
  lemma QueuesAgree(c: Config, es: seq<Event>, i: nat, j: nat)
    requires ConfigOk(c) && IsRun(c, es) && i < |c.pids| && j < |c.pids|
    requires forall m :: Queued(After(c, es).procs[i].queue, m) <==> Queued(After(c, es).procs[j].queue, m)
    ensures var q, r := After(c, es).procs[i].queue, After(c, es).procs[j].queue;
            |q| == |r| && forall k :: 0 <= k < |q| ==> q[k].msg == r[k].msg
  {
    hide Inv;
    RunInv(c, es);
    SortedQueue(c, After(c, es), i);
    SortedQueue(c, After(c, es), j);
    SameMessagesSameOrder(After(c, es).procs[i].queue, After(c, es).procs[j].queue);
  }

  // The wire is wide enough for every run: all five fields of an issued message arrive, from
  // the encoded bytes with its whole body, from the bytes sent with all but the last five.
  lemma MessagesArrive(c: Config, es: seq<Event>, m: Message)
    requires ConfigOk(c) && IsRun(c, es) && m in After(c, es).hist.issued
    requires 10000 + |c.pids| <= 1_0000_0000 && |m.body| < 100_0000
    ensures m.src < |c.pids| && m.pid == c.pids[m.src]
    ensures BroadWire.Decode(BroadWire.Encoded(m))
         == Some(BroadWire.Received(m.uid, m.pid, 10000 + m.src, m.lc, |m.body|, m.body))
    ensures |m.body| >= 5 ==>
              BroadWire.Decode(BroadWire.Sent(m)) ==
              Some(BroadWire.Received(m.uid, m.pid, 10000 + m.src, m.lc, |m.body|, m.body[..|m.body| - 5]))
  {
    hide Inv, IsRun, After, BroadWire.Decode, BroadWire.Encoded, BroadWire.Sent, BroadWire.Fits;
    RunInv(c, es);
    FieldsFit(c, After(c, es), m);
    BroadWire.EncodedRoundTrip(m);
    BroadWire.SentRoundTrip(m);
  }

  lemma FieldsFit(c: Config, s: State, m: Message)
    requires Inv(c, s) && m in s.hist.issued
    requires 10000 + |c.pids| <= 1_0000_0000 && |m.body| < 100_0000
    ensures m.src < |c.pids| && m.pid == c.pids[m.src]
    ensures m.uid < WORD && m.lc < WORD && BroadWire.Fits(m)
  {
    hide BroadOk, QueuesOk, PlacedOk, ReadyOk, CountOk, AcksKnown, LogOk, ClockOk, GenerateUid;
    assert GoodMessage(c, s, m);
    UidRecoversBothHalves(m.pid, m.lc - 1);
  }

  // ----- ACKs that come too early -----

  // An ACK is dropped exactly when it overtakes the issuer's own copy of the BROAD.
  lemma AckDroppedIff(c: Config, s: State, m: Message)
    requires Inv(c, s) && m in s.hist.issued && m.src < |c.pids| && !s.procs[m.src].stale
    requires Envelope(m.src, Ack(m.pid, m.uid)) in s.net
    ensures var t := Apply(c, s, Deliver(Envelope(m.src, Ack(m.pid, m.uid))));
            && (t.hist.dropped == s.hist.dropped + multiset{m.uid} <==> m !in s.hist.handled[m.src])
            && (t.hist.counted == s.hist.counted + multiset{m.uid} <==> m in s.hist.handled[m.src])
  {
    hide OnAck, Find, BroadOk, ReadyOk, CountOk, AcksKnown, ClockOk, LogOk, IssuedOk, PlacedOk, QueuesOk;
    assert s.hist.dropped[m.uid] != (s.hist.dropped + multiset{m.uid})[m.uid];
    assert s.hist.counted[m.uid] != (s.hist.counted + multiset{m.uid})[m.uid];
    FoundIffHandled(c, s, m);
  }

  lemma FoundIffHandled(c: Config, s: State, m: Message)
    requires Inv(c, s) && m in s.hist.issued && m.src < |c.pids| && !s.procs[m.src].stale
    requires Envelope(m.src, Ack(m.pid, m.uid)) in s.net
    ensures Find(s.procs[m.src].queue, m.uid) < |s.procs[m.src].queue| <==> m in s.hist.handled[m.src]
  {
    hide BroadOk, ReadyOk, CountOk, AcksKnown, ClockOk, LogOk;
    var q := s.procs[m.src].queue;
    assert QueueOk(s.procs[m.src], m.src, s.hist.handled[m.src], s.hist.acked[m.src], s.hist.counted);
    if m in s.log {
      AllAcked(c, s, m);
    }
    var i := Find(q, m.uid);
    if i < |q| {
      assert EntryOk(q[i], m.src, s.hist.handled[m.src], s.hist.acked[m.src], s.hist.counted);
      HandledIssued(c, s, m.src, q[i].msg);
      UidNamesOne(c, s, q[i].msg, m);
    }
  }

  lemma HandledIssued(c: Config, s: State, j: nat, m: Message)
    requires Inv(c, s) && j < |c.pids| && m in s.hist.handled[j]
    ensures m in s.hist.issued
  {
  }

  // The message of a dropped ACK is never written, whatever happens afterwards.
  lemma DroppedNeverWritten(c: Config, es: seq<Event>, p: nat, m: Message)
    requires ConfigOk(c) && IsRun(c, es) && p <= |es|
    requires After(c, es[..p]).hist.dropped[m.uid] > 0
    ensures m !in After(c, es).log
  {
    hide Inv, Apply;
    RunGrows(c, es, p);
    RunInv(c, es);
    if m in After(c, es).log {
      AllAcked(c, After(c, es), m);
    }
  }

  // ----- When nothing is under way any more -----

  // Delivery, exactly: once no message is in flight, an issued message has been written if
  // and only if every process has acked it and none of its ACKs came too early.
  lemma QuiescentIff(c: Config, es: seq<Event>, m: Message)
    requires ConfigOk(c) && IsRun(c, es) && After(c, es).net == multiset{}
    requires m in After(c, es).hist.issued
    ensures m in After(c, es).log <==>
              After(c, es).hist.dropped[m.uid] == 0 && forall j :: 0 <= j < |c.pids| ==> m in After(c, es).hist.acked[j]
  {
    hide Inv, IsRun, After;
    RunInv(c, es);
    QuietStateIff(c, After(c, es), m);
  }

  lemma QuietStateIff(c: Config, s: State, m: Message)
    requires Inv(c, s) && s.net == multiset{} && m in s.hist.issued
    ensures m in s.log <==> s.hist.dropped[m.uid] == 0 && forall j :: 0 <= j < |c.pids| ==> m in s.hist.acked[j]
  {
    hide IssuedOk, BroadOk, QueuesOk, PlacedOk, ReadyOk, ClockOk, AcksKnown;
    assert AcksBalance(s, m);
    AckersBounded(c, s, m);
    if forall j :: 0 <= j < |c.pids| ==> m in s.hist.acked[j] {
      AllAckers(c, s, m);
    }
    if m in s.log {
      AllAcked(c, s, m);
    }
  }

  lemma AllAckers(c: Config, s: State, m: Message)
    requires |s.hist.acked| == |c.pids| && forall j :: 0 <= j < |c.pids| ==> m in s.hist.acked[j]
    ensures |Ackers(s, m)| == |c.pids|
  {
    var all := UpTo(|c.pids|);
    forall j ensures j in Ackers(s, m) <==> j in all {
    }
    assert Ackers(s, m) == all;
  }

  // ----- The tail that dequeue forgets -----

  // A stale process acks nothing any more and stays stale.
  lemma StaleStep(c: Config, s: State, e: Event, j: nat)
    requires Inv(c, s) && Enabled(c, s, e) && j < |c.pids| && s.procs[j].stale
    ensures Apply(c, s, e).procs[j].stale && Apply(c, s, e).hist.acked[j] == s.hist.acked[j]
  {
    hide IssuedOk, BroadOk, PlacedOk, ReadyOk, CountOk, AcksKnown, LogOk, ClockOk;
    hide Find, GenerateUid, ToAll;
    assert QueueOk(s.procs[j], j, s.hist.handled[j], s.hist.acked[j], s.hist.counted);
    SortOfSorted([]);
  }

  lemma {:induction false} StaleForever(c: Config, es: seq<Event>, p: nat, j: nat)
    requires ConfigOk(c) && IsRun(c, es) && p <= |es| && j < |c.pids|
    requires After(c, es[..p]).procs[j].stale
    ensures After(c, es).procs[j].stale && After(c, es).hist.acked[j] == After(c, es[..p]).hist.acked[j]
  {
    hide Inv, Apply;
    if p == |es| {
      assert es[..p] == es;
    } else {
      LastEvent(c, es);
      var q := es[..|es| - 1];
      assert q[..p] == es[..p];
      StaleForever(c, q, p, j);
      StaleStep(c, After(c, q), es[|es| - 1], j);
    }
  }

  // Once any process has a stale tail, no message that it has not acked by then is ever
  // written.
  lemma StaleStopsDelivery(c: Config, es: seq<Event>, p: nat, j: nat, m: Message)
    requires ConfigOk(c) && IsRun(c, es) && p <= |es| && j < |c.pids|
    requires After(c, es[..p]).procs[j].stale
    requires m !in After(c, es[..p]).hist.acked[j]
    ensures m !in After(c, es).log
  {
    hide Inv, Apply;
    StaleForever(c, es, p, j);
    RunInv(c, es);
    if m in After(c, es).log {
      AllAcked(c, After(c, es), m);
    }
  }

  lemma UnissuedUnacked(c: Config, s: State, j: nat, m: Message)
    requires Inv(c, s) && j < |c.pids| && m !in s.hist.issued
    ensures m !in s.hist.acked[j]
  {
    assert QueueOk(s.procs[j], j, s.hist.handled[j], s.hist.acked[j], s.hist.counted);
  }

  // So nothing issued from then on, by any process, is ever written.
  lemma StaleStopsIssued(c: Config, es: seq<Event>, p: nat, j: nat, m: Message)
    requires ConfigOk(c) && IsRun(c, es) && p <= |es| && j < |c.pids|
    requires After(c, es[..p]).procs[j].stale
    requires m !in After(c, es[..p]).hist.issued
    ensures m !in After(c, es).log
  {
    hide Inv, Apply;
    PrefixRun(c, es, p);
    RunInv(c, es[..p]);
    UnissuedUnacked(c, After(c, es[..p]), j, m);
    StaleStopsDelivery(c, es, p, j, m);
  }

  // A tail goes stale exactly when a READY removes the only queued node and dequeue does
  // not clear it.
  lemma StaleStarts(c: Config, s: State, e: Event, j: nat)
    requires Inv(c, s) && Enabled(c, s, e) && j < |c.pids| && !s.procs[j].stale
    ensures Apply(c, s, e).procs[j].stale <==>
              !c.resets && e.Deliver? && e.env.to == j && e.env.packet.Ready? && |s.procs[j].queue| == 1
  {
    hide IssuedOk, BroadOk, PlacedOk, QueuesOk, CountOk, AcksKnown, LogOk, ClockOk;
    hide GenerateUid, ToAll, Sort;
    if e.Deliver? && e.env.to == j && e.env.packet.Ready? {
      ReadyFinds(c, s, j, e.env.packet.uid);
    }
  }
}
