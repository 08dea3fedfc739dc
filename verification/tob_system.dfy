// The whole broadcast system: n processes, the messages in flight between them and the
// shared log. Every handler runs to completion before the next one starts, so a run is a
// sequence of events, each handled by one process.
module Broadcast {
  import opened Uid
  import opened QueueSpec
  import opened Handlers

  // resets: whether dequeue also clears tail when it removes the last node through the
  // head. The code as written is resets == false.
  datatype Config = Config(pids: seq<nat>, resets: bool)

  // What has happened so far. No handler reads it.
  //   issued   every message ever issued
  //   handled  per process, the messages whose BROAD it has handled
  //   acked    per process, the messages it has sent an ACK for
  //   counted  uids of the ACKs that their issuer added to an ack_count
  //   dropped  uids of the ACKs that found no queued node
  datatype History = History(
    issued: set<Message>,
    handled: seq<set<Message>>,
    acked: seq<set<Message>>,
    counted: multiset<nat>,
    dropped: multiset<nat>)

  datatype State = State(procs: seq<Proc>, net: multiset<Envelope>, log: seq<Message>, hist: History)

  datatype Event = Issue(issuer: nat, text: string) | Deliver(env: Envelope)

  predicate ConfigOk(c: Config) {
    && (forall i :: 0 <= i < |c.pids| ==> c.pids[i] < PID_SPAN)
    && (forall i, j :: 0 <= i < j < |c.pids| ==> c.pids[i] != c.pids[j])
  }

  predicate Shaped(c: Config, s: State) {
    |s.procs| == |s.hist.handled| == |s.hist.acked| == |c.pids|
  }

  // Timestamps fit the twelve bits that a uid reserves for them.
  predicate InRange(s: State) {
    forall i :: 0 <= i < |s.procs| ==> s.procs[i].lc < CLOCK_SPAN
  }

  function Init(c: Config): State {
    State(seq(|c.pids|, _ => Proc(0, [], false)), multiset{}, [],
          History({}, seq(|c.pids|, _ => {}), seq(|c.pids|, _ => {}), multiset{}, multiset{}))
  }

  predicate Enabled(c: Config, s: State, e: Event) {
    match e
    case Issue(i, _) => i < |c.pids|
    case Deliver(env) => env in s.net && env.to < |c.pids|
  }

  function StepIssue(c: Config, s: State, i: nat, body: string): State
    requires Shaped(c, s) && i < |c.pids|
  {
    var o := OnIssue(s.procs[i], |c.pids|, c.pids[i], i, body);
    State(s.procs[i := o.proc], s.net + multiset(o.sent), s.log,
          s.hist.(issued := s.hist.issued + {IssuedMessage(s.procs[i], c.pids[i], i, body)}))
  }

  // The message, if any, that this BROAD makes its receiver ack.
  function NewlyAcked(q: seq<Entry>): set<Message> {
    if q != [] && !q[0].acked then {q[0].msg} else {}
  }

  function StepBroad(c: Config, s: State, j: nat, m: Message): State
    requires Shaped(c, s) && j < |c.pids|
  {
    var o := OnBroad(s.procs[j], m);
    State(s.procs[j := o.proc], s.net - multiset{Envelope(j, Broad(m))} + multiset(o.sent), s.log,
          s.hist.(handled := s.hist.handled[j := s.hist.handled[j] + {m}],
                  acked := s.hist.acked[j := s.hist.acked[j] + NewlyAcked(Arrived(s.procs[j], m))]))
  }

  function StepAck(c: Config, s: State, j: nat, pid: nat, uid: nat): State
    requires Shaped(c, s) && j < |c.pids|
  {
    var o := OnAck(s.procs[j], |c.pids|, uid);
    State(s.procs[j := o.proc], s.net - multiset{Envelope(j, Ack(pid, uid))} + multiset(o.sent),
          s.log + o.written,
          if Find(s.procs[j].queue, uid) < |s.procs[j].queue|
          then s.hist.(counted := s.hist.counted + multiset{uid})
          else s.hist.(dropped := s.hist.dropped + multiset{uid}))
  }

  function StepReady(c: Config, s: State, j: nat, uid: nat): State
    requires Shaped(c, s) && j < |c.pids|
  {
    var o := OnReady(s.procs[j], c.resets, uid);
    State(s.procs[j := o.proc], s.net - multiset{Envelope(j, Ready(uid))}, s.log, s.hist)
  }

  function Apply(c: Config, s: State, e: Event): (s': State)
    requires Shaped(c, s) && Enabled(c, s, e)
    ensures Shaped(c, s')
  {
    match e
    case Issue(i, body) => StepIssue(c, s, i, body)
    case Deliver(Envelope(j, Broad(m))) => StepBroad(c, s, j, m)
    case Deliver(Envelope(j, Ack(pid, uid))) => StepAck(c, s, j, pid, uid)
    case Deliver(Envelope(j, Ready(uid))) => StepReady(c, s, j, uid)
  }

  // A run: each event is enabled where it happens and no clock leaves the uid's range.
  ghost predicate IsRun(c: Config, es: seq<Event>) {
    es == [] ||
    (&& IsRun(c, es[..|es| - 1])
     && Enabled(c, After(c, es[..|es| - 1]), es[|es| - 1])
     && InRange(After(c, es)))
  }

  // The state a run ends in. An event that is not enabled changes nothing.
  function After(c: Config, es: seq<Event>): (s: State)
    ensures Shaped(c, s)
  {
    if es == [] then Init(c)
    else
      var s := After(c, es[..|es| - 1]);
      if Enabled(c, s, es[|es| - 1]) then Apply(c, s, es[|es| - 1]) else s
  }

  lemma Extend(c: Config, es: seq<Event>, e: Event)
    requires IsRun(c, es) && Enabled(c, After(c, es), e) && InRange(Apply(c, After(c, es), e))
    ensures IsRun(c, es + [e]) && After(c, es + [e]) == Apply(c, After(c, es), e)
  {
    assert (es + [e])[..|es + [e]| - 1] == es;
  }

  // ----- Copies of one packet to all processes -----

  lemma {:induction false} ToAllCount(n: nat, p: Packet, x: Envelope)
    ensures multiset(ToAll(n, p))[x] == if x.to < n && x.packet == p then 1 else 0
  {
    if n > 0 {
      ToAllCount(n - 1, p, x);
      assert ToAll(n, p) == ToAll(n - 1, p) + [Envelope(n - 1, p)];
    }
  }
}
