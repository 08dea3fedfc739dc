// Exactly when the delivery order can be broken: two messages, the later of which every
// process has acked before handling the earlier one.
module Inversions {
  import opened Uid
  import opened QueueSpec
  import opened Handlers
  import opened Broadcast
  import opened Invariants
  import opened Preservation
  import opened BroadcastTheorems

  // The issuer of b handles one ACK for b.
  function AckFor(b: Message): Event {
    Deliver(Envelope(b.src, Ack(b.pid, b.uid)))
  }

  ghost predicate OnlyAcksFor(b: Message, acks: seq<Event>) {
    forall i :: 0 <= i < |acks| ==> acks[i] == AckFor(b)
  }

  // Followed by nothing but ACKs for b, the first p events write b and not a.
  ghost predicate Inverts(c: Config, es: seq<Event>, p: nat, acks: seq<Event>, a: Message, b: Message) {
    && p <= |es| && OnlyAcksFor(b, acks) && IsRun(c, es[..p] + acks)
    && b in After(c, es[..p] + acks).log && a !in After(c, es[..p] + acks).log
  }

  ghost predicate CanInvert(c: Config, es: seq<Event>, a: Message, b: Message) {
    exists p: nat, acks :: Inverts(c, es, p, acks, a, b)
  }

  // ----- ACKs that are under way complete the count -----

  ghost predicate AckedByAll(c: Config, s: State, b: Message) {
    |s.hist.acked| == |c.pids| && forall j :: 0 <= j < |c.pids| ==> b in s.hist.acked[j]
  }

  // Everyone has acked b, nothing was dropped, and its issuer has one tick left.
  ghost predicate Ripe(c: Config, s: State, b: Message) {
    && b in s.hist.issued && b.src < |s.procs| && AckedByAll(c, s, b)
    && s.hist.dropped[b.uid] == 0 && s.procs[b.src].lc + 1 < CLOCK_SPAN
  }

  // As long as b is not written, one of its ACKs is under way and will be counted.
  lemma AckUnderWay(c: Config, s: State, b: Message)
    requires Inv(c, s) && Ripe(c, s, b) && b !in s.log
    ensures AckArrives(c, s, b.src, b.pid, b.uid) && Found(s, b.src, b.uid)
  {
    hide BroadOk, ReadyOk, AcksKnown, ClockOk;
    AllAckers(c, s, b);
    assert GoodMessage(c, s, b) && AcksBalance(s, b);
    var q := s.procs[b.src].queue;
    assert Queued(q, b);
    var i :| 0 <= i < |q| && q[i].msg == b;
  }

  lemma AckClock(c: Config, s: State, j: nat, pid: nat, uid: nat)
    requires Shaped(c, s) && InRange(s) && j < |c.pids|
    ensures var t := StepAck(c, s, j, pid, uid);
            && t.procs[j].lc == s.procs[j].lc + (if t.log == s.log then 0 else 1)
            && (forall k :: 0 <= k < |s.procs| && k != j ==> t.procs[k] == s.procs[k])
            && t.hist.acked == s.hist.acked && t.hist.issued == s.hist.issued
  {
    hide Find, ToAll;
    assert s.procs[j].lc < CLOCK_SPAN;
  }

  lemma AckStep(c: Config, s: State, b: Message)
    requires Inv(c, s) && Ripe(c, s, b) && b !in s.log
    ensures Enabled(c, s, AckFor(b))
    ensures var t, env := Apply(c, s, AckFor(b)), AckFor(b).env;
            && InRange(t) && t.net[env] < s.net[env]
            && (if b in t.log then t.log == s.log + [b] else t.log == s.log && Ripe(c, t, b))
  {
    hide Inv, AckArrives, Found, Completes, StepAck;
    AckUnderWay(c, s, b);
    ArrivesIn(c, s, b.src, b.pid, b.uid);
    var t, env := StepAck(c, s, b.src, b.pid, b.uid), AckFor(b).env;
    assert Apply(c, s, AckFor(b)) == t;
    AckOutcome(c, s, b.src, b.pid, b.uid, b);
    AckClock(c, s, b.src, b.pid, b.uid);
    assert t.net[env] == s.net[env] - 1;
    if Completes(c, s, b.src, b.uid) {
      assert b in t.log;
    }
  }

  lemma ArrivesIn(c: Config, s: State, j: nat, pid: nat, uid: nat)
    requires AckArrives(c, s, j, pid, uid)
    ensures Shaped(c, s) && InRange(s) && j < |c.pids| && Envelope(j, Ack(pid, uid)) in s.net
  {
  }

  // Delivering them one by one writes b, and writes nothing else.
  lemma {:induction false} CountAll(c: Config, es: seq<Event>, b: Message) returns (acks: seq<Event>)
    requires ConfigOk(c) && IsRun(c, es) && (b in After(c, es).log || Ripe(c, After(c, es), b))
    ensures OnlyAcksFor(b, acks) && IsRun(c, es + acks)
    ensures b in After(c, es + acks).log
    ensures var log := After(c, es).log; After(c, es + acks).log == if b in log then log else log + [b]
    decreases After(c, es).net[AckFor(b).env]
  {
    hide Inv, Apply, Ripe, After, IsRun;
    if b in After(c, es).log {
      acks := [];
      assert es + [] == es;
    } else {
      RunInv(c, es);
      AckStep(c, After(c, es), b);
      Extend(c, es, AckFor(b));
      var rest := CountAll(c, es + [AckFor(b)], b);
      acks := [AckFor(b)] + rest;
      assert es + acks == es + [AckFor(b)] + rest;
    }
  }

  // ----- If nobody waits -----

  ghost predicate WithoutBefore(c: Config, es: seq<Event>, p: nat, j: nat, a: Message, b: Message) {
    exists k: nat :: k < p && AcksWithout(c, es, k, j, a, b)
  }

  // The last of the processes 0 to m - 1 to ack b without having handled a.
  lemma {:induction false} LastWithout(c: Config, es: seq<Event>, a: Message, b: Message, m: nat)
    returns (p: nat, j: nat)
    requires 0 < m <= |c.pids| && forall i :: 0 <= i < m ==> AckedWithout(c, es, i, a, b)
    ensures j < m && 0 < p <= |es| && AcksWithout(c, es, p - 1, j, a, b)
    ensures forall i :: 0 <= i < m ==> WithoutBefore(c, es, p, i, a, b)
  {
    hide AcksWithout, After;
    assert AckedWithout(c, es, m - 1, a, b);
    var k: nat :| AcksWithout(c, es, k, m - 1, a, b);
    assert k < |es| by { WithoutIndex(c, es, k, m - 1, a, b); }
    if m == 1 {
      p, j := k + 1, 0;
    } else {
      var p', j' := LastWithout(c, es, a, b, m - 1);
      if p' <= k {
        p, j := k + 1, m - 1;
      } else {
        p, j := p', j';
      }
      forall i | 0 <= i < m ensures WithoutBefore(c, es, p, i, a, b) {
        if i < m - 1 {
          assert WithoutBefore(c, es, p', i, a, b);
        }
      }
    }
  }

  lemma WithoutIndex(c: Config, es: seq<Event>, k: nat, j: nat, a: Message, b: Message)
    requires AcksWithout(c, es, k, j, a, b)
    ensures k < |es| && j < |c.pids| && es[k].Deliver? && es[k].env.packet.Broad?
    ensures b in Post(c, es, k).hist.acked[j] && a !in Post(c, es, k).hist.handled[j]
  {
  }

  lemma StillAcked(c: Config, es: seq<Event>, k: nat, p: nat, j: nat, a: Message, b: Message)
    requires ConfigOk(c) && IsRun(c, es) && k < p <= |es| && AcksWithout(c, es, k, j, a, b)
    ensures j < |c.pids| && b in After(c, es[..p]).hist.acked[j]
  {
    hide Inv, Apply, Grows, After, IsRun, AcksWithout;
    WithoutIndex(c, es, k, j, a, b);
    PrefixRun(c, es, p);
    RunGrows(c, es[..p], k + 1);
    assert es[..p][..k + 1] == es[..k + 1];
    AckedGrows(Post(c, es, k), After(c, es[..p]), j, b);
  }

  lemma AckedGrows(s: State, t: State, j: nat, b: Message)
    requires Grows(s, t) && j < |s.procs| && b in s.hist.acked[j]
    ensures b in t.hist.acked[j]
  {
  }

  // At some moment of the run everyone has acked b, and a is not written.
  lemma RipeMoment(c: Config, es: seq<Event>, a: Message, b: Message) returns (p: nat)
    requires ConfigOk(c) && IsRun(c, es) && b in After(c, es).hist.issued
    requires forall j :: 0 <= j < |c.pids| ==> AckedWithout(c, es, j, a, b)
    ensures p <= |es| && AckedByAll(c, After(c, es[..p]), b) && a !in After(c, es[..p]).log
  {
    hide Inv, Apply, Grows, After, IsRun, AcksWithout, AckedWithout;
    RunInv(c, es);
    IssuerIndex(c, After(c, es), b);
    var last;
    p, last := LastWithout(c, es, a, b, |c.pids|);
    PrefixRun(c, es, p);
    RunInv(c, es[..p]);
    WithoutIndex(c, es, p - 1, last, a, b);
    if a in After(c, es[..p]).log {
      AllAcked(c, After(c, es[..p]), a);
      assert false;
    }
    forall j | 0 <= j < |c.pids| ensures b in After(c, es[..p]).hist.acked[j] {
      assert WithoutBefore(c, es, p, j, a, b);
      var k: nat :| k < p && AcksWithout(c, es, k, j, a, b);
      StillAcked(c, es, k, p, j, a, b);
    }
  }

  lemma RipeThen(c: Config, s: State, t: State, b: Message)
    requires Inv(c, s) && Grows(s, t) && |c.pids| > 0 && AckedByAll(c, s, b)
    requires b.src < |c.pids| && t.hist.dropped[b.uid] == 0 && t.procs[b.src].lc + 1 < CLOCK_SPAN
    ensures Ripe(c, s, b)
  {
    hide BroadOk, PlacedOk, ReadyOk, CountOk, AcksKnown, LogOk, ClockOk, IssuedOk;
    assert b in s.hist.acked[0];
    assert QueueOk(s.procs[0], 0, s.hist.handled[0], s.hist.acked[0], s.hist.counted);
    assert s.hist.handled[0] <= s.hist.issued by { HandledWereIssued(c, s, 0); }
  }

  lemma HandledWereIssued(c: Config, s: State, j: nat)
    requires Inv(c, s) && j < |c.pids|
    ensures s.hist.handled[j] <= s.hist.issued
  {
  }

  lemma NobodyWaitsInverts(c: Config, es: seq<Event>, a: Message, b: Message)
    requires ConfigOk(c) && IsRun(c, es) && b in After(c, es).hist.issued && a != b
    requires !SomeoneWaits(c, es, a, b)
    requires b.src < |c.pids| && After(c, es).hist.dropped[b.uid] == 0
    requires After(c, es).procs[b.src].lc + 1 < CLOCK_SPAN
    ensures CanInvert(c, es, a, b)
  {
    hide Inv, Apply, Grows, After, IsRun, AckedWithout, Ripe, AckedByAll;
    var p := RipeMoment(c, es, a, b);
    PrefixRun(c, es, p);
    RunInv(c, es[..p]);
    RunGrows(c, es, p);
    RipeThen(c, After(c, es[..p]), After(c, es), b);
    var acks := CountAll(c, es[..p], b);
    assert Inverts(c, es, p, acks, a, b);
  }

  // ----- If it can be broken -----

  // ACK deliveries are no BROAD deliveries: what happened without a, happened in es.
  lemma WithoutInPrefix(c: Config, es: seq<Event>, p: nat, acks: seq<Event>, j: nat, a: Message, b: Message)
    requires p <= |es| && OnlyAcksFor(b, acks) && AckedWithout(c, es[..p] + acks, j, a, b)
    ensures AckedWithout(c, es, j, a, b)
  {
    hide After, StrictlySorted, IsRun;
    var r := es[..p] + acks;
    assert forall i :: p <= i < |r| ==> r[i] == acks[i - p] && r[i] == AckFor(b);
    var k: nat :| AcksWithout(c, r, k, j, a, b);
    assert k < p;
    assert r[..k] == es[..k] && r[..k + 1] == es[..k + 1] && r[k] == es[k];
    assert AcksWithout(c, es, k, j, a, b);
  }

  // Where a can be left behind, every process acked b before it handled a.
  lemma InvertedMeansNobodyWaits(c: Config, es: seq<Event>, a: Message, b: Message)
    requires ConfigOk(c) && CanInvert(c, es, a, b) && Before(a, b)
    ensures !SomeoneWaits(c, es, a, b)
  {
    hide Inv, Apply, After, IsRun, AckedWithout;
    var p: nat, acks :| Inverts(c, es, p, acks, a, b);
    var r := es[..p] + acks;
    RunInv(c, r);
    AllAcked(c, After(c, r), b);
    forall j | 0 <= j < |c.pids| ensures AckedWithout(c, es, j, a, b) {
      AckedWithoutUnlessWritten(c, r, j, a, b);
      WithoutInPrefix(c, es, p, acks, j, a, b);
    }
  }

  // For two issued messages of a run: some prefix of it, followed by nothing but deliveries
  // of ACKs for the later-ordered one, writes that one without the other, if and only if no
  // process waited for the earlier one before acking the later. Dropped ACKs, or an issuer
  // whose clock is at the end of its range, can only prevent it.
  lemma InversionIff(c: Config, es: seq<Event>, a: Message, b: Message)
    requires ConfigOk(c) && IsRun(c, es)
    requires a in After(c, es).hist.issued && b in After(c, es).hist.issued && Before(a, b)
    ensures CanInvert(c, es, a, b) ==> !SomeoneWaits(c, es, a, b)
    ensures b.src < |c.pids|
    ensures After(c, es).hist.dropped[b.uid] == 0 && After(c, es).procs[b.src].lc + 1 < CLOCK_SPAN ==>
              (CanInvert(c, es, a, b) <==> !SomeoneWaits(c, es, a, b))
  {
    hide Inv, After, IsRun, SomeoneWaits, CanInvert;
    RunInv(c, es);
    IssuerIndex(c, After(c, es), b);
    if CanInvert(c, es, a, b) {
      InvertedMeansNobodyWaits(c, es, a, b);
    } else if !SomeoneWaits(c, es, a, b) && After(c, es).hist.dropped[b.uid] == 0
              && After(c, es).procs[b.src].lc + 1 < CLOCK_SPAN {
      NobodyWaitsInverts(c, es, a, b);
      assert false;
    }
  }
}
