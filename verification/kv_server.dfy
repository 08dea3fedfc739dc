// handle_hash under concurrency: hash workers interleave at will, except that the lookup
// and the log-then-insert pair each run under hashmap_mutex. Replies are built and sent
// after the mutex is released. A crash may happen between any two steps; what survives it
// is the log.
module Server {
  import opened Wrappers
  import opened Hashing
  import opened Tables
  import opened LogFiles

  // A parsed request: the node create_node made for it, by id, and the node's fields.
  datatype Request = Request(id: nat, isSet: bool, rec: Rec)

  // Found: the lookup is done and the mutex released, the reply not built yet.
  // Logged: holds the mutex, has appended to the log, has not inserted yet.
  // Inserted: mutex released, STORED not sent yet.
  datatype Phase =
    | Idle
    | Has(req: Request)
    | Found(req: Request, node: Option<nat>, at: nat)
    | Logged(req: Request)
    | Inserted(req: Request, at: nat)

  // `at` says which operation in mutex order is answered; it is not part of the reply's
  // bytes.
  datatype Reply = Value(id: nat, at: nat, answer: Option<Rec>) | Stored(id: nat, at: nat)

  // nodes: every node ever allocated. chains: the live table. ops: the operations in the
  // order in which they held the mutex; no step reads it.
  datatype State = State(
    nodes: map<nat, Rec>,
    chains: seq<seq<nat>>,
    pending: seq<Request>,
    workers: seq<Phase>,
    log: seq<Rec>,
    replies: seq<Reply>,
    ops: seq<Request>)

  datatype Event =
    | Arrive(req: Request)
    | Take(w: nat)
    | FindNode(w: nat)
    | AnswerGet(w: nat)
    | WriteLog(w: nat)
    | InsertNode(w: nat)
    | AnswerSet(w: nat)

  const NOTHING: Rec := Rec("", "", 0, 0)

  function Fields(nodes: map<nat, Rec>, id: nat): Rec {
    if id in nodes then nodes[id] else NOTHING
  }

  function ChainRecs(nodes: map<nat, Rec>, ids: seq<nat>): (s: seq<Rec>)
    ensures |s| == |ids| && forall i :: 0 <= i < |ids| ==> s[i] == Fields(nodes, ids[i])
  {
    seq(|ids|, i requires 0 <= i < |ids| => Fields(nodes, ids[i]))
  }

  function TableOf(s: State): Table
    requires |s.chains| == TABLESIZE
  {
    seq(TABLESIZE, b requires 0 <= b < TABLESIZE => ChainRecs(s.nodes, s.chains[b]))
  }

  // get_node's walk, on node ids.
  function FindId(nodes: map<nat, Rec>, ids: seq<nat>, q: string): Option<nat> {
    if ids == [] then None
    else if Matches(q, Fields(nodes, ids[0]).key) then Some(ids[0])
    else FindId(nodes, ids[1..], q)
  }

  predicate Holds(s: State, w: nat) {
    w < |s.workers| && s.workers[w].Logged?
  }

  predicate Unlocked(s: State) {
    forall w :: 0 <= w < |s.workers| ==> !s.workers[w].Logged?
  }

  predicate Enabled(s: State, e: Event) {
    match e
    case Arrive(req) => req.id !in s.nodes
    case Take(w) => w < |s.workers| && s.workers[w].Idle? && s.pending != []
    case FindNode(w) => w < |s.workers| && s.workers[w].Has? && !s.workers[w].req.isSet && Unlocked(s)
    case AnswerGet(w) => w < |s.workers| && s.workers[w].Found?
    case WriteLog(w) => w < |s.workers| && s.workers[w].Has? && s.workers[w].req.isSet && Unlocked(s)
    case InsertNode(w) => Holds(s, w)
    case AnswerSet(w) => w < |s.workers| && s.workers[w].Inserted?
  }

  function Apply(s: State, e: Event): State
    requires |s.chains| == TABLESIZE && Enabled(s, e)
  {
    match e
    case Arrive(req) =>
      s.(nodes := s.nodes[req.id := req.rec], pending := s.pending + [req])
    case Take(w) =>
      s.(pending := s.pending[1..], workers := s.workers[w := Has(s.pending[0])])
    case FindNode(w) =>
      var req := s.workers[w].req;
      var node := FindId(s.nodes, s.chains[Bucket(req.rec.key)], req.rec.key);
      s.(workers := s.workers[w := Found(req, node, |s.ops|)], ops := s.ops + [req])
    case AnswerGet(w) =>
      var f := s.workers[w];
      var answer := if f.node.Some? then Some(Fields(s.nodes, f.node.value)) else None;
      s.(workers := s.workers[w := Idle], replies := s.replies + [Value(f.req.id, f.at, answer)])
    case WriteLog(w) =>
      var req := s.workers[w].req;
      s.(workers := s.workers[w := Logged(req)], log := s.log + [req.rec])
    case InsertNode(w) =>
      var req := s.workers[w].req;
      var b := Bucket(req.rec.key);
      s.(workers := s.workers[w := Inserted(req, |s.ops|)], chains := s.chains[b := [req.id] + s.chains[b]],
         ops := s.ops + [req])
    case AnswerSet(w) =>
      var f := s.workers[w];
      s.(workers := s.workers[w := Idle], replies := s.replies + [Stored(f.req.id, f.at)])
  }

  // ----- The sequential store -----

  // The records that the SETs among these operations insert.
  function Sets(ops: seq<Request>): seq<Rec> {
    if ops == [] then []
    else Sets(ops[..|ops| - 1]) + if ops[|ops| - 1].isSet then [ops[|ops| - 1].rec] else []
  }

  // What a store that executes the operations one after the other, starting from t0,
  // answers to operation `at`.
  function SequentialAnswer(t0: Table, ops: seq<Request>, at: nat): Option<Rec>
    requires at < |ops|
  {
    Get(Live(t0, Sets(ops[..at])), ops[at].rec.key)
  }

  // ----- Runs -----

  // A server that has loaded its log, before the first connection.
  ghost predicate Fresh(s: State, t0: Table, log0: seq<Rec>) {
    && |s.chains| == TABLESIZE && TableOf(s) == t0 && s.log == log0
    && (forall b, i :: 0 <= b < TABLESIZE && 0 <= i < |s.chains[b]| ==> s.chains[b][i] in s.nodes)
    && (forall b, i, c, j :: 0 <= b < TABLESIZE && 0 <= i < |s.chains[b]| &&
                             0 <= c < TABLESIZE && 0 <= j < |s.chains[c]| ==>
          (s.chains[b][i] == s.chains[c][j] ==> b == c && i == j))
    && s.pending == [] && s.replies == [] && s.ops == []
    && (forall w :: 0 <= w < |s.workers| ==> s.workers[w] == Idle)
  }

  ghost predicate IsRun(s0: State, es: seq<Event>) {
    es == [] || (IsRun(s0, es[..|es| - 1]) && Enabled(After(s0, es[..|es| - 1]), es[|es| - 1]))
  }

  function After(s0: State, es: seq<Event>): (s: State)
    ensures |s0.chains| == TABLESIZE ==> |s.chains| == TABLESIZE
  {
    if es == [] then s0
    else
      var s := After(s0, es[..|es| - 1]);
      if |s.chains| == TABLESIZE && Enabled(s, es[|es| - 1]) then Apply(s, es[|es| - 1]) else s
  }

  // ----- Order and exclusion -----

  // The requests that arrived, and those that were taken by a worker, in order.
  function Arrived(es: seq<Event>): seq<Request> {
    if es == [] then []
    else Arrived(es[..|es| - 1]) + match es[|es| - 1] case Arrive(req) => [req] case _ => []
  }

  function Taken(s0: State, es: seq<Event>): seq<Request> {
    if es == [] then []
    else
      var s := After(s0, es);
      Taken(s0, es[..|es| - 1]) +
      match es[|es| - 1]
      case Take(w) => if w < |s.workers| && s.workers[w].Has? then [s.workers[w].req] else []
      case _ => []
  }

  // Requests are taken in the order of their arrival, each once and by one worker: those
  // taken, followed by those pending, are those that arrived.
  lemma {:induction false} TakenInOrder(s0: State, es: seq<Event>, t0: Table, log0: seq<Rec>)
    requires Fresh(s0, t0, log0) && IsRun(s0, es)
    ensures Taken(s0, es) + After(s0, es).pending == Arrived(es)
  {
    hide Fresh, Apply;
    FreshPending(s0, t0, log0);
    if es != [] {
      var front, e := es[..|es| - 1], es[|es| - 1];
      TakenInOrder(s0, front, t0, log0);
      PendingStep(After(s0, front), e, Taken(s0, front));
    }
  }

  lemma PendingStep(s: State, e: Event, taken: seq<Request>)
    requires |s.chains| == TABLESIZE && Enabled(s, e)
    ensures var t := Apply(s, e);
            && (e.Arrive? ==> taken + t.pending == taken + s.pending + [e.req])
            && (e.Take? ==> e.w < |t.workers| && t.workers[e.w].Has? &&
                            taken + [t.workers[e.w].req] + t.pending == taken + s.pending)
            && (!e.Arrive? && !e.Take? ==> t.pending == s.pending)
  {
    hide FindId, Bucket, Fields;
  }

  lemma FreshPending(s: State, t0: Table, log0: seq<Rec>)
    requires Fresh(s, t0, log0)
    ensures s.pending == [] && |s.chains| == TABLESIZE
  {
  }

  // ----- Invariant -----

  ghost predicate TableInv(s: State, t0: Table) {
    && |s.chains| == TABLESIZE
    && (forall b, i :: 0 <= b < TABLESIZE && 0 <= i < |s.chains[b]| ==> s.chains[b][i] in s.nodes)
    && TableOf(s) == Live(t0, Sets(s.ops))
  }

  // The log is the insert history, plus one record while a worker is between logging and
  // inserting.
  ghost predicate LogInv(s: State, log0: seq<Rec>) {
    && (forall v, w :: 0 <= v < w < |s.workers| ==> !(s.workers[v].Logged? && s.workers[w].Logged?))
    && (forall w :: 0 <= w < |s.workers| && s.workers[w].Logged? ==>
          s.log == log0 + Sets(s.ops) + [s.workers[w].req.rec])
    && (Unlocked(s) ==> s.log == log0 + Sets(s.ops))
  }

  ghost predicate AnswerInv(s: State, t0: Table) {
    && (forall w :: 0 <= w < |s.workers| ==> PhaseOk(s, t0, s.workers[w]))
    && (forall i :: 0 <= i < |s.replies| ==> ReplyOk(s, t0, s.replies[i]))
  }

  ghost predicate PhaseOk(s: State, t0: Table, ph: Phase) {
    match ph
    case Idle => true
    case Has(req) => true
    case Found(req, node, at) =>
      && at < |s.ops| && s.ops[at] == req && !req.isSet
      && (node.Some? ==> node.value in s.nodes)
      && SequentialAnswer(t0, s.ops, at) == if node.Some? then Some(Fields(s.nodes, node.value)) else None
    case Logged(req) => req.isSet
    case Inserted(req, at) => at < |s.ops| && s.ops[at] == req && req.isSet
  }

  ghost predicate ReplyOk(s: State, t0: Table, r: Reply) {
    && r.at < |s.ops| && s.ops[r.at].id == r.id
    && match r
       case Value(_, at, answer) => !s.ops[at].isSet && answer == SequentialAnswer(t0, s.ops, at)
       case Stored(_, at) => s.ops[at].isSet
  }

  // A request that has not been executed yet: queued, or in the hands of a worker that has
  // not finished its critical section.
  predicate InHand(ph: Phase) {
    ph.Has? || ph.Logged?
  }

  ghost predicate Waiting(s: State, id: nat) {
    || (exists i :: 0 <= i < |s.pending| && s.pending[i].id == id)
    || (exists w :: 0 <= w < |s.workers| && InHand(s.workers[w]) && s.workers[w].req.id == id)
  }

  ghost predicate Owned(s: State, req: Request) {
    req.id in s.nodes && s.nodes[req.id] == req.rec
  }

  // Every request waits in one place only and its node is in no chain; an executed request
  // does not wait any more.
  ghost predicate IdInv(s: State) {
    && (forall i :: 0 <= i < |s.pending| ==> Owned(s, s.pending[i]))
    && (forall w :: 0 <= w < |s.workers| && InHand(s.workers[w]) ==> Owned(s, s.workers[w].req))
    && (forall i, j :: 0 <= i < j < |s.pending| ==> s.pending[i].id != s.pending[j].id)
    && (forall v, w :: 0 <= v < w < |s.workers| && InHand(s.workers[v]) && InHand(s.workers[w]) ==>
          s.workers[v].req.id != s.workers[w].req.id)
    && (forall i, w :: 0 <= i < |s.pending| && 0 <= w < |s.workers| && InHand(s.workers[w]) ==>
          s.pending[i].id != s.workers[w].req.id)
  }

  ghost predicate DoneInv(s: State) {
    && |s.chains| == TABLESIZE
    && (forall i :: 0 <= i < |s.ops| ==> s.ops[i].id in s.nodes && !Waiting(s, s.ops[i].id))
    && (forall i, j :: 0 <= i < j < |s.ops| ==> s.ops[i].id != s.ops[j].id)
    && (forall b, i :: 0 <= b < TABLESIZE && 0 <= i < |s.chains[b]| ==>
          s.chains[b][i] in s.nodes && !Waiting(s, s.chains[b][i]))
    && (forall b, i, c, j :: 0 <= b < TABLESIZE && 0 <= i < |s.chains[b]| &&
                             0 <= c < TABLESIZE && 0 <= j < |s.chains[c]| ==>
          (s.chains[b][i] == s.chains[c][j] ==> b == c && i == j))
  }

  ghost predicate Inv(s: State, t0: Table, log0: seq<Rec>) {
    TableInv(s, t0) && LogInv(s, log0) && AnswerInv(s, t0) && IdInv(s) && DoneInv(s)
  }

  // ----- Preservation -----

  // Allocation is the only change to nodes: no step changes or frees one that exists.
  lemma NodesKept(s: State, e: Event)
    requires |s.chains| == TABLESIZE && Enabled(s, e)
    ensures forall id :: id in s.nodes ==> id in Apply(s, e).nodes && Apply(s, e).nodes[id] == s.nodes[id]
  {
  }

  // Over whole runs: what is in the table stays in it, and no node's fields ever change, so
  // a worker may read the node it found after it has released the mutex.
  lemma {:induction false} TableOnlyGrows(s0: State, es: seq<Event>, p: nat)
    requires |s0.chains| == TABLESIZE && IsRun(s0, es) && p <= |es|
    ensures var s, t := After(s0, es[..p]), After(s0, es);
            && (forall id :: id in s.nodes ==> id in t.nodes && t.nodes[id] == s.nodes[id])
            && (forall b :: 0 <= b < TABLESIZE ==> EndsWith(t.chains[b], s.chains[b]))
  {
    hide Apply, IsRun;
    if p == |es| {
      assert es[..p] == es;
    } else {
      var q := es[..|es| - 1];
      assert q[..p] == es[..p];
      RunFront(s0, es);
      TableOnlyGrows(s0, q, p);
      NodesKept(After(s0, q), es[|es| - 1]);
      ChainsGrow(After(s0, q), es[|es| - 1]);
    }
  }

  ghost predicate EndsWith(s: seq<nat>, tail: seq<nat>) {
    |tail| <= |s| && s[|s| - |tail|..] == tail
  }

  lemma RunFront(s0: State, es: seq<Event>)
    requires IsRun(s0, es) && es != []
    ensures IsRun(s0, es[..|es| - 1]) && Enabled(After(s0, es[..|es| - 1]), es[|es| - 1])
  {
  }

  lemma ChainsGrow(s: State, e: Event)
    requires |s.chains| == TABLESIZE && Enabled(s, e)
    ensures forall b, tail :: 0 <= b < TABLESIZE && EndsWith(s.chains[b], tail) ==> EndsWith(Apply(s, e).chains[b], tail)
  {
    hide Bucket;
    forall b, tail | 0 <= b < TABLESIZE && EndsWith(s.chains[b], tail) ensures EndsWith(Apply(s, e).chains[b], tail) {
      var old', new' := s.chains[b], Apply(s, e).chains[b];
      if |new'| != |old'| {
        assert new'[1..] == old';
        assert new'[|new'| - |tail|..] == old'[|old'| - |tail|..];
      }
    }
  }

  lemma {:induction false} FindIsFirst(nodes: map<nat, Rec>, ids: seq<nat>, q: string)
    ensures var f := FindId(nodes, ids, q);
            && FirstMatch(ChainRecs(nodes, ids), q) == (if f.Some? then Some(Fields(nodes, f.value)) else None)
            && (f.Some? ==> f.value in ids)
  {
    if ids != [] {
      assert ChainRecs(nodes, ids)[1..] == ChainRecs(nodes, ids[1..]);
      FindIsFirst(nodes, ids[1..], q);
    }
  }

  lemma SetsStep(ops: seq<Request>, req: Request)
    ensures Sets(ops + [req]) == Sets(ops) + if req.isSet then [req.rec] else []
  {
    assert (ops + [req])[..|ops|] == ops;
  }

  lemma LiveStep(t: Table, recs: seq<Rec>, r: Rec)
    ensures Live(t, recs + [r]) == Tables.Insert(Live(t, recs), r)
  {
    assert (recs + [r])[..|recs|] == recs;
  }

  lemma AnswerKept(t0: Table, ops: seq<Request>, req: Request, at: nat)
    requires at < |ops|
    ensures SequentialAnswer(t0, ops + [req], at) == SequentialAnswer(t0, ops, at)
  {
    assert (ops + [req])[..at] == ops[..at];
  }

  lemma SameTable(s: State, t: State)
    requires |s.chains| == TABLESIZE && t.chains == s.chains
    requires forall b, i :: 0 <= b < TABLESIZE && 0 <= i < |s.chains[b]| ==> s.chains[b][i] in s.nodes
    requires forall id :: id in s.nodes ==> id in t.nodes && t.nodes[id] == s.nodes[id]
    ensures TableOf(t) == TableOf(s)
  {
    forall b | 0 <= b < TABLESIZE ensures TableOf(t)[b] == TableOf(s)[b] {
      assert forall i :: 0 <= i < |s.chains[b]| ==> ChainRecs(t.nodes, t.chains[b])[i] == ChainRecs(s.nodes, s.chains[b])[i];
    }
  }

  lemma InsertedTable(s: State, w: nat)
    requires |s.chains| == TABLESIZE && Holds(s, w) && Owned(s, s.workers[w].req)
    ensures TableOf(Apply(s, InsertNode(w))) == Tables.Insert(TableOf(s), s.workers[w].req.rec)
  {
    var t, req := Apply(s, InsertNode(w)), s.workers[w].req;
    var u := Tables.Insert(TableOf(s), req.rec);
    forall b | 0 <= b < TABLESIZE ensures TableOf(t)[b] == u[b] {
      if b == Bucket(req.rec.key) {
        assert ChainRecs(s.nodes, [req.id] + s.chains[b]) == [req.rec] + ChainRecs(s.nodes, s.chains[b]);
      }
    }
  }

  lemma TableKept(s: State, e: Event, t0: Table, log0: seq<Rec>)
    requires Inv(s, t0, log0) && Enabled(s, e)
    ensures TableInv(Apply(s, e), t0)
  {
    hide LogInv, AnswerInv, DoneInv, IdInv, FindId, Tables.Insert, Bucket, TableOf, Live, Sets;
    if e.InsertNode? {
      TableKeptByInsert(s, e.w, t0, log0);
    } else {
      SameTable(s, Apply(s, e));
      if e.FindNode? {
        SetsStep(s.ops, s.workers[e.w].req);
        assert Sets(s.ops) + [] == Sets(s.ops);
      }
    }
  }

  lemma TableKeptByInsert(s: State, w: nat, t0: Table, log0: seq<Rec>)
    requires Inv(s, t0, log0) && Enabled(s, InsertNode(w))
    ensures TableInv(Apply(s, InsertNode(w)), t0)
  {
    hide LogInv, AnswerInv, DoneInv, FindId, Tables.Insert, TableOf, Live, Sets;
    InsertedTable(s, w);
    SetsStep(s.ops, s.workers[w].req);
    LiveStep(t0, Sets(s.ops), s.workers[w].req.rec);
    LoggedIsSet(s, t0, w);
  }

  lemma LoggedIsSet(s: State, t0: Table, w: nat)
    requires AnswerInv(s, t0) && Holds(s, w)
    ensures s.workers[w].req.isSet
  {
    assert PhaseOk(s, t0, s.workers[w]);
  }

  lemma LogKept(s: State, e: Event, t0: Table, log0: seq<Rec>)
    requires Inv(s, t0, log0) && Enabled(s, e)
    ensures LogInv(Apply(s, e), log0)
  {
    hide AnswerInv, DoneInv, IdInv, FindId, Bucket, TableOf, Live, Sets;
    var t := Apply(s, e);
    match e
    case WriteLog(w) =>
      assert forall v :: 0 <= v < |t.workers| && t.workers[v].Logged? ==> v == w;
      assert t.workers[w].Logged? && !Unlocked(t);
    case InsertNode(w) => LogKeptByInsert(s, w, t0, log0);
    case FindNode(w) =>
      SetsStep(s.ops, s.workers[w].req);
      assert Sets(s.ops) + [] == Sets(s.ops);
      SameHolders(s, t);
    case Arrive(_) => SameHolders(s, t);
    case Take(_) => SameHolders(s, t);
    case AnswerGet(_) => SameHolders(s, t);
    case AnswerSet(_) => SameHolders(s, t);
  }

  // When the same workers hold the mutex, the same clause of the log invariant applies.
  lemma SameHolders(s: State, t: State)
    requires |t.workers| == |s.workers|
    requires forall w :: 0 <= w < |s.workers| ==> (t.workers[w].Logged? <==> s.workers[w].Logged?)
    ensures Unlocked(t) <==> Unlocked(s)
  {
  }

  lemma LogKeptByInsert(s: State, w: nat, t0: Table, log0: seq<Rec>)
    requires Inv(s, t0, log0) && Enabled(s, InsertNode(w))
    ensures LogInv(Apply(s, InsertNode(w)), log0)
  {
    hide AnswerInv, DoneInv, IdInv, FindId, Bucket, TableOf, Live, Sets;
    var req := s.workers[w].req;
    SetsStep(s.ops, req);
    LoggedIsSet(s, t0, w);
    assert log0 + Sets(s.ops) + [req.rec] == log0 + (Sets(s.ops) + [req.rec]);
    assert Unlocked(Apply(s, InsertNode(w)));
  }

  lemma PhaseKept(s: State, e: Event, t0: Table, log0: seq<Rec>, ph: Phase)
    requires Inv(s, t0, log0) && Enabled(s, e) && PhaseOk(s, t0, ph)
    ensures PhaseOk(Apply(s, e), t0, ph)
  {
    hide LogInv, AnswerInv, DoneInv, IdInv, FindId, Bucket, TableOf, Live, SequentialAnswer;
    NodesKept(s, e);
    if e.FindNode? || e.InsertNode? {
      if ph.Found? {
        AnswerKept(t0, s.ops, s.workers[e.w].req, ph.at);
      }
    }
  }

  lemma ReplyKept(s: State, e: Event, t0: Table, log0: seq<Rec>, r: Reply)
    requires Inv(s, t0, log0) && Enabled(s, e) && ReplyOk(s, t0, r)
    ensures ReplyOk(Apply(s, e), t0, r)
  {
    hide LogInv, AnswerInv, DoneInv, IdInv, FindId, Bucket, TableOf, Live, SequentialAnswer;
    if e.FindNode? || e.InsertNode? {
      AnswerKept(t0, s.ops, s.workers[e.w].req, r.at);
    }
  }

  // The lookup under the mutex finds what the sequential store answers at that point.
  lemma FoundAnswers(s: State, w: nat, t0: Table, log0: seq<Rec>)
    requires Inv(s, t0, log0) && Enabled(s, FindNode(w))
    ensures PhaseOk(Apply(s, FindNode(w)), t0, Apply(s, FindNode(w)).workers[w])
  {
    hide LogInv, AnswerInv, DoneInv, IdInv, FindId, Live;
    var req := s.workers[w].req;
    var b := Bucket(req.rec.key);
    FindIsFirst(s.nodes, s.chains[b], req.rec.key);
    assert TableOf(s)[b] == ChainRecs(s.nodes, s.chains[b]);
    assert (s.ops + [req])[..|s.ops|] == s.ops;
  }

  lemma AnswersKept(s: State, e: Event, t0: Table, log0: seq<Rec>)
    requires Inv(s, t0, log0) && Enabled(s, e)
    ensures AnswerInv(Apply(s, e), t0)
  {
    hide LogInv, DoneInv, IdInv, FindId, Bucket, TableOf, Live, SequentialAnswer;
    var t := Apply(s, e);
    forall w | 0 <= w < |t.workers| ensures PhaseOk(t, t0, t.workers[w]) {
      assert PhaseOk(s, t0, s.workers[w]);
      PhaseKept(s, e, t0, log0, s.workers[w]);
      if e.FindNode? && w == e.w { FoundAnswers(s, e.w, t0, log0); }
      if e.InsertNode? && w == e.w { LoggedIsSet(s, t0, e.w); }
    }
    forall i | 0 <= i < |t.replies| ensures ReplyOk(t, t0, t.replies[i]) {
      if i < |s.replies| {
        assert ReplyOk(s, t0, s.replies[i]);
        ReplyKept(s, e, t0, log0, s.replies[i]);
      } else {
        assert PhaseOk(s, t0, s.workers[e.w]);
      }
    }
  }

  lemma IdsKept(s: State, e: Event, t0: Table, log0: seq<Rec>)
    requires Inv(s, t0, log0) && Enabled(s, e)
    ensures IdInv(Apply(s, e))
  {
    hide LogInv, AnswerInv, DoneInv, FindId, Bucket, TableOf, Live;
    NodesKept(s, e);
    var t := Apply(s, e);
    match e
    case Arrive(req) =>
    case Take(w) =>
    case FindNode(w) =>
    case AnswerGet(w) =>
    case WriteLog(w) =>
    case InsertNode(w) =>
    case AnswerSet(w) =>
  }

  // Only an arrival makes an id wait; finishing the critical section ends the wait.
  lemma WaitingStep(s: State, e: Event, t0: Table, log0: seq<Rec>, id: nat)
    requires Inv(s, t0, log0) && Enabled(s, e) && Waiting(Apply(s, e), id)
    ensures Waiting(s, id) || (e.Arrive? && id == e.req.id)
    ensures e.FindNode? || e.InsertNode? ==> id != s.workers[e.w].req.id
  {
    hide LogInv, AnswerInv, DoneInv, FindId, Bucket, TableOf, Live;
    var t := Apply(s, e);
    if i :| 0 <= i < |t.pending| && t.pending[i].id == id {
      if e.Take? {
        assert s.pending[i + 1].id == id;
      } else if i < |s.pending| {
        assert s.pending[i].id == id;
      }
    } else {
      var w :| 0 <= w < |t.workers| && InHand(t.workers[w]) && t.workers[w].req.id == id;
      if e.Take? && w == e.w {
        assert s.pending[0].id == id;
      } else {
        assert InHand(s.workers[w]) && s.workers[w].req.id == id;
      }
    }
  }

  lemma DoneKept(s: State, e: Event, t0: Table, log0: seq<Rec>)
    requires Inv(s, t0, log0) && Enabled(s, e)
    ensures DoneInv(Apply(s, e))
  {
    hide LogInv, AnswerInv, FindId, Bucket, TableOf, Live, Waiting;
    NodesKept(s, e);
    var t := Apply(s, e);
    forall id | Waiting(t, id) ensures Waiting(s, id) || (e.Arrive? && id == e.req.id) {
      WaitingStep(s, e, t0, log0, id);
    }
    if e.FindNode? || e.InsertNode? {
      WorkerWaits(s, e.w);
      if Waiting(t, s.workers[e.w].req.id) { WaitingStep(s, e, t0, log0, s.workers[e.w].req.id); }
    }
  }

  lemma WorkerWaits(s: State, w: nat)
    requires w < |s.workers| && InHand(s.workers[w])
    ensures Waiting(s, s.workers[w].req.id)
  {
  }

  lemma StepKeepsInv(s: State, e: Event, t0: Table, log0: seq<Rec>)
    requires Inv(s, t0, log0) && Enabled(s, e)
    ensures Inv(Apply(s, e), t0, log0)
  {
    hide TableInv, LogInv, AnswerInv, IdInv, DoneInv, Apply;
    TableKept(s, e, t0, log0);
    LogKept(s, e, t0, log0);
    AnswersKept(s, e, t0, log0);
    IdsKept(s, e, t0, log0);
    DoneKept(s, e, t0, log0);
  }

  lemma FreshInv(s: State, t0: Table, log0: seq<Rec>)
    requires Fresh(s, t0, log0)
    ensures Inv(s, t0, log0)
  {
    assert log0 + Sets([]) == log0;
  }

  lemma {:induction false} RunInv(s0: State, es: seq<Event>, t0: Table, log0: seq<Rec>)
    requires Fresh(s0, t0, log0) && IsRun(s0, es)
    ensures Inv(After(s0, es), t0, log0)
  {
    hide Inv, Apply;
    if es == [] {
      FreshInv(s0, t0, log0);
    } else {
      RunInv(s0, es[..|es| - 1], t0, log0);
      StepKeepsInv(After(s0, es[..|es| - 1]), es[|es| - 1], t0, log0);
    }
  }

  // While one worker is between appending to the log and inserting, no other looks anything
  // up, appends or inserts.
  lemma Exclusive(s0: State, es: seq<Event>, t0: Table, log0: seq<Rec>, e: Event, w: nat)
    requires Fresh(s0, t0, log0) && IsRun(s0, es)
    requires Holds(After(s0, es), w) && Enabled(After(s0, es), e) && (e.FindNode? || e.WriteLog? || e.InsertNode?)
    ensures e == InsertNode(w)
  {
    hide Apply, TableInv, AnswerInv, IdInv, DoneInv, Fresh, IsRun, After;
    RunInv(s0, es, t0, log0);
  }

  // ----- One answer for each operation -----

  // Executed, its reply not built yet.
  predicate Answering(ph: Phase) {
    ph.Found? || ph.Inserted?
  }

  ghost predicate Answered(s: State, at: nat) {
    exists i :: 0 <= i < |s.replies| && s.replies[i].at == at
  }

  ghost predicate BeingAnswered(s: State, at: nat) {
    exists w :: 0 <= w < |s.workers| && Answering(s.workers[w]) && s.workers[w].at == at
  }

  // Every executed operation has one reply or one worker about to reply, never two.
  ghost predicate OneAnswerEach(s: State) {
    && (forall at: nat :: at < |s.ops| <==> Answered(s, at) || BeingAnswered(s, at))
    && (forall i, j :: 0 <= i < j < |s.replies| ==> s.replies[i].at != s.replies[j].at)
    && (forall i, w :: 0 <= i < |s.replies| && 0 <= w < |s.workers| && Answering(s.workers[w]) ==>
          s.replies[i].at != s.workers[w].at)
    && (forall v, w :: 0 <= v < w < |s.workers| && Answering(s.workers[v]) && Answering(s.workers[w]) ==>
          s.workers[v].at != s.workers[w].at)
  }

  // What a step does to the answers: nothing, an operation executed, or an answer given.
  lemma AnswersStep(s: State, e: Event, at: nat)
    requires |s.chains| == TABLESIZE && Enabled(s, e)
    ensures var t, executes, answers := Apply(s, e), e.FindNode? || e.InsertNode?, e.AnswerGet? || e.AnswerSet?;
            && |t.ops| == |s.ops| + (if executes then 1 else 0)
            && (Answered(t, at) <==> Answered(s, at) || (answers && s.workers[e.w].at == at))
            && (BeingAnswered(t, at) ==> BeingAnswered(s, at) || (executes && at == |s.ops|))
            && (BeingAnswered(s, at) ==> BeingAnswered(t, at) || (answers && s.workers[e.w].at == at))
            && (executes && at == |s.ops| ==> BeingAnswered(t, at))
  {
    hide FindId, Bucket, Fields;
    var t := Apply(s, e);
    if Answered(s, at) {
      var i :| 0 <= i < |s.replies| && s.replies[i].at == at;
      assert t.replies[i].at == at;
    }
    if e.AnswerGet? || e.AnswerSet? {
      assert t.replies[|s.replies|].at == s.workers[e.w].at;
    }
    if BeingAnswered(s, at) {
      var w :| 0 <= w < |s.workers| && Answering(s.workers[w]) && s.workers[w].at == at;
      assert t.workers[w] == s.workers[w] || (!e.Arrive? && w == e.w);
    }
    if e.FindNode? || e.InsertNode? {
      assert Answering(t.workers[e.w]) && t.workers[e.w].at == |s.ops|;
    }
  }

  lemma OneAnswerKept(s: State, e: Event)
    requires |s.chains| == TABLESIZE && Enabled(s, e) && OneAnswerEach(s)
    ensures OneAnswerEach(Apply(s, e))
  {
    hide FindId, Bucket, Fields, Answered, BeingAnswered;
    var t := Apply(s, e);
    forall at: nat ensures at < |t.ops| <==> Answered(t, at) || BeingAnswered(t, at) {
      AnswersStep(s, e, at);
      if e.AnswerGet? || e.AnswerSet? { WorkerAnswers(s, e.w); }
    }
    forall w | 0 <= w < |s.workers| && Answering(s.workers[w]) ensures s.workers[w].at < |s.ops| {
      WorkerAnswers(s, w);
    }
    forall i | 0 <= i < |s.replies| ensures s.replies[i].at < |s.ops| {
      ReplyAnswers(s, i);
    }
  }

  lemma WorkerAnswers(s: State, w: nat)
    requires w < |s.workers| && Answering(s.workers[w])
    ensures BeingAnswered(s, s.workers[w].at)
  {
  }

  lemma ReplyAnswers(s: State, i: nat)
    requires i < |s.replies|
    ensures Answered(s, s.replies[i].at)
  {
  }

  lemma {:induction false} OneAnswer(s0: State, es: seq<Event>, t0: Table, log0: seq<Rec>)
    requires Fresh(s0, t0, log0) && IsRun(s0, es)
    ensures OneAnswerEach(After(s0, es))
  {
    hide Apply, OneAnswerEach;
    if es == [] {
      NoAnswers(s0);
    } else {
      OneAnswer(s0, es[..|es| - 1], t0, log0);
      OneAnswerKept(After(s0, es[..|es| - 1]), es[|es| - 1]);
    }
  }

  lemma NoAnswers(s: State)
    requires s.replies == [] && s.ops == [] && forall w :: 0 <= w < |s.workers| ==> s.workers[w] == Idle
    ensures OneAnswerEach(s)
  {
  }

  // ----- Linearizability -----

  // In every run every reply is the one that a sequential store gives when it executes the
  // operations one at a time in mutex order; each request is executed at most once, and each
  // executed operation is answered exactly once or has one worker about to answer it.
  lemma Linearizable(s0: State, es: seq<Event>, t0: Table, log0: seq<Rec>)
    requires Fresh(s0, t0, log0) && IsRun(s0, es)
    ensures var s := After(s0, es);
            && (forall i :: 0 <= i < |s.replies| ==> ReplyOk(s, t0, s.replies[i]))
            && (forall i, j :: 0 <= i < j < |s.ops| ==> s.ops[i].id != s.ops[j].id)
            && (forall i, j :: 0 <= i < j < |s.replies| ==> s.replies[i].id != s.replies[j].id)
            && OneAnswerEach(s)
  {
    hide TableInv, LogInv, IdInv, Fresh, IsRun, Apply, After;
    RunInv(s0, es, t0, log0);
    OneAnswer(s0, es, t0, log0);
    var s := After(s0, es);
    forall i, j | 0 <= i < j < |s.replies| ensures s.replies[i].id != s.replies[j].id {
      assert ReplyOk(s, t0, s.replies[i]) && ReplyOk(s, t0, s.replies[j]);
    }
  }

  lemma {:induction false} OpsGrow(s0: State, es: seq<Event>, p: nat)
    requires |s0.chains| == TABLESIZE && IsRun(s0, es) && p <= |es|
    ensures After(s0, es[..p]).ops <= After(s0, es).ops && IsRun(s0, es[..p])
  {
    if p == |es| {
      assert es[..p] == es;
    } else {
      OpsGrow(s0, es[..|es| - 1], p);
      assert es[..|es| - 1][..p] == es[..p];
    }
  }

  // The order respects real time: a request answered before another one arrives comes
  // before it.
  lemma RealTimeOrder(s0: State, es: seq<Event>, t0: Table, log0: seq<Rec>, p: nat, r: Reply, j: nat)
    requires Fresh(s0, t0, log0) && IsRun(s0, es) && p <= |es|
    requires r in After(s0, es[..p]).replies
    requires j < |After(s0, es).ops| && After(s0, es).ops[j].id !in After(s0, es[..p]).nodes
    ensures r.at < j && After(s0, es).ops[r.at].id == r.id
  {
    hide Apply, TableInv, LogInv, IdInv;
    OpsGrow(s0, es, p);
    RunInv(s0, es[..p], t0, log0);
    var s := After(s0, es[..p]);
    var i :| 0 <= i < |s.replies| && s.replies[i] == r;
    assert ReplyOk(s, t0, s.replies[i]);
    assert forall k :: 0 <= k < |s.ops| ==> After(s0, es).ops[k] == s.ops[k] && s.ops[k].id in s.nodes;
  }

  // Seen by clients of a server that was started from a log: a get answers with the latest
  // record, restored from that log or set since, that its query can find.
  lemma GetAnswersLatest(s0: State, es: seq<Event>, log0: seq<Rec>, buffer0: string, r: Reply, keys: set<string>)
    requires Fresh(s0, Replay(EMPTY, Restored(LogText(log0), buffer0)), log0) && IsRun(s0, es)
    requires r in After(s0, es).replies && r.Value?
    requires r.at < |After(s0, es).ops|
    requires KeysWithin(Restored(LogText(log0), buffer0) + Sets(After(s0, es).ops[..r.at]), keys)
    requires OneCandidate(keys, After(s0, es).ops[r.at].rec.key)
    ensures r.answer == Latest(Restored(LogText(log0), buffer0) + Sets(After(s0, es).ops[..r.at]),
                               After(s0, es).ops[r.at].rec.key)
  {
    hide Restored, LogText;
    var recs0 := Restored(LogText(log0), buffer0);
    Linearizable(s0, es, Replay(EMPTY, recs0), log0);
    var s := After(s0, es);
    var i :| 0 <= i < |s.replies| && s.replies[i] == r;
    assert ReplyOk(s, Replay(EMPTY, recs0), s.replies[i]);
    RestartAgrees(recs0, Sets(s.ops[..r.at]), keys, s.ops[r.at].rec.key);
  }

  // ----- Durability -----

  // Wherever the server is killed, the log is the history of inserts, or that history plus
  // the one record whose worker had logged it but not yet inserted it.
  lemma LogAtCrash(s0: State, es: seq<Event>, t0: Table, log0: seq<Rec>)
    requires Fresh(s0, t0, log0) && IsRun(s0, es)
    ensures var s := After(s0, es);
            || s.log == log0 + Sets(s.ops)
            || exists w :: 0 <= w < |s.workers| && s.workers[w].Logged? &&
                 s.log == log0 + Sets(s.ops) + [s.workers[w].req.rec]
  {
    RunInv(s0, es, t0, log0);
  }

  lemma {:induction false} SetsPrefix(ops: seq<Request>, at: nat)
    requires at < |ops| && ops[at].isSet
    ensures |Sets(ops[..at])| < |Sets(ops)| && Sets(ops)[|Sets(ops[..at])|] == ops[at].rec
  {
    var n := |ops| - 1;
    if at == n {
      assert ops[..at] == ops[..n];
    } else {
      SetsPrefix(ops[..n], at);
      assert ops[..n][..at] == ops[..at];
    }
  }

  // Every SET answered STORED is in the log, at the place of its operation.
  lemma StoredIsLogged(s0: State, es: seq<Event>, t0: Table, log0: seq<Rec>, r: Reply) returns (place: nat)
    requires Fresh(s0, t0, log0) && IsRun(s0, es)
    requires r in After(s0, es).replies && r.Stored?
    ensures var s := After(s0, es);
            && r.at < |s.ops| && s.ops[r.at].id == r.id
            && |log0| <= place < |s.log| && s.log[place] == s.ops[r.at].rec
  {
    hide Apply, TableInv, IdInv, DoneInv;
    RunInv(s0, es, t0, log0);
    var s := After(s0, es);
    var i :| 0 <= i < |s.replies| && s.replies[i] == r;
    assert ReplyOk(s, t0, s.replies[i]);
    SetsPrefix(s.ops, r.at);
    LogAtCrash(s0, es, t0, log0);
    place := |log0| + |Sets(s.ops[..r.at])|;
  }

  // ----- After a restart -----

  // What a lookup finds in the table that a restarted server loads from this log, when the
  // value buffer starts with `buffer`.
  function Recovered(log: seq<Rec>, buffer: string, q: string): Option<Rec> {
    Get(Replay(EMPTY, Restored(LogText(log), buffer)), q)
  }

  // None of the log's lines loads a record that q can find, but the records themselves.
  ghost predicate AllHarmless(log: seq<Rec>, q: string) {
    forall i :: 0 <= i < |log| ==> Harmless(log[i], q)
  }

  ghost function Keys(recs: seq<Rec>): set<string> {
    set i | 0 <= i < |recs| :: recs[i].key
  }

  // With one candidate key a lookup after a restart finds the latest restored record.
  lemma RecoveredLatest(log: seq<Rec>, buffer: string, keys: set<string>, q: string)
    requires AllHarmless(log, q) && KeysWithin(log, keys) && OneCandidate(keys, q)
    ensures OneCandidate(Keys(Restored(LogText(log), buffer)), q)
    ensures Recovered(log, buffer, q) == Latest(Restored(LogText(log), buffer), q)
  {
    hide Restored, LogText, Candidate, Harmless;
    var recs := Restored(LogText(log), buffer);
    RestoredCandidates(log, buffer, q);
    forall a, b | a in Keys(recs) && b in Keys(recs) && Candidate(a, q) && Candidate(b, q) ensures a == b {
      assert a in keys && b in keys;
    }
    assert KeysWithin(recs, Keys(recs));
    ReplayGet(recs, Keys(recs), q);
  }

  // Every SET answered STORED survives a crash at any later point if the log's format holds
  // its record: after a restart its key is found, with the key and sizes of its record or of
  // one logged later for the key, and with whatever the value buffer held when that line was
  // read. The value is right exactly when the buffer held the value.
  lemma StoredSizesSurvive(s0: State, es: seq<Event>, t0: Table, log0: seq<Rec>, r: Reply, buffer: string, keys: set<string>)
    returns (place: nat, k: nat)
    requires Fresh(s0, t0, log0) && IsRun(s0, es)
    requires r in After(s0, es).replies && r.Stored? && r.at < |After(s0, es).ops|
    requires Kept(After(s0, es).ops[r.at].rec)
    requires AllHarmless(After(s0, es).log, After(s0, es).ops[r.at].rec.key)
    requires KeysWithin(After(s0, es).log, keys) && NoExtension(keys, After(s0, es).ops[r.at].rec.key)
    ensures var log, q := After(s0, es).log, After(s0, es).ops[r.at].rec.key;
            && |log0| <= place <= k < |log|
            && log[place] == After(s0, es).ops[r.at].rec && log[k].key == q && Kept(log[k])
            && Recovered(log, buffer, q) == Some(log[k].(value := Cut(BufferAt(log[..k], buffer), log[k].valueSize)))
            && (|log[k].value| == log[k].valueSize ==>
                  (Recovered(log, buffer, q) == Some(log[k]) <==> log[k].value <= BufferAt(log[..k], buffer)))
  {
    hide Apply, Inv, Fresh, IsRun, After, Kept, Harmless, Restored, LogText, BufferAt;
    place := StoredIsLogged(s0, es, t0, log0, r);
    var s := After(s0, es);
    var q := s.ops[r.at].rec.key;
    var at := RestoredLatest(s.log, buffer, q);
    RecoveredLatest(s.log, buffer, keys, q);
    assert Candidate(q, q);
    k := at;
    CutIff(s.log[k].value, BufferAt(s.log[..k], buffer));
  }

  // In the log's own terms: all keys are single words that fit, and no further line of any
  // value loads. Then every SET answered STORED whose value starts with a blank line and is
  // small survives with its key and sizes.
  lemma CleanStoredSurvives(s0: State, es: seq<Event>, t0: Table, log0: seq<Rec>, r: Reply, buffer: string, keys: set<string>)
    returns (place: nat, k: nat)
    requires Fresh(s0, t0, log0) && IsRun(s0, es)
    requires r in After(s0, es).replies && r.Stored? && r.at < |After(s0, es).ops|
    requires forall i :: 0 <= i < |After(s0, es).log| ==>
               Loggable(After(s0, es).log[i]) && NoLaterRecord(After(s0, es).log[i])
    requires var rec := After(s0, es).ops[r.at].rec; StartsBlank(rec) && rec.valueSize < LINE_VALUE
    requires KeysWithin(After(s0, es).log, keys) && NoExtension(keys, After(s0, es).ops[r.at].rec.key)
    ensures var log, q := After(s0, es).log, After(s0, es).ops[r.at].rec.key;
            && |log0| <= place <= k < |log|
            && log[place] == After(s0, es).ops[r.at].rec && log[k].key == q
            && SameSizes(Recovered(log, buffer, q), Some(log[k]))
  {
    hide Apply, Inv, Fresh, IsRun, After, Kept, Harmless, Recovered, BufferAt, NoLaterRecord, StartsBlank, Loggable;
    var log, rec := After(s0, es).log, After(s0, es).ops[r.at].rec;
    place := StoredIsLogged(s0, es, t0, log0, r);
    assert Loggable(log[place]);
    KeptIff(rec);
    forall i | 0 <= i < |log| ensures Harmless(log[i], rec.key) {
      CleanIsHarmless(log[i], rec.key);
    }
    place, k := StoredSizesSurvive(s0, es, t0, log0, r, buffer, keys);
  }

  // The whole value survives when the value buffer holds the value of each kept record of
  // this key; other keys, and records that are too large, do not matter.
  lemma StoredSurvives(s0: State, es: seq<Event>, t0: Table, log0: seq<Rec>, r: Reply, buffer: string, keys: set<string>)
    returns (place: nat, k: nat)
    requires Fresh(s0, t0, log0) && IsRun(s0, es)
    requires r in After(s0, es).replies && r.Stored? && r.at < |After(s0, es).ops|
    requires Kept(After(s0, es).ops[r.at].rec)
    requires AllHarmless(After(s0, es).log, After(s0, es).ops[r.at].rec.key)
    requires KeysWithin(After(s0, es).log, keys) && NoExtension(keys, After(s0, es).ops[r.at].rec.key)
    requires BufferHolds(After(s0, es).log, buffer, After(s0, es).ops[r.at].rec.key)
    ensures var log, q := After(s0, es).log, After(s0, es).ops[r.at].rec.key;
            && |log0| <= place <= k < |log|
            && log[place] == After(s0, es).ops[r.at].rec && log[k].key == q
            && Recovered(log, buffer, q) == Some(log[k])
  {
    hide Apply, Inv, Fresh, IsRun, After, Kept, AllHarmless, Restored, LogText, BufferAt, Recovered;
    place, k := StoredSizesSurvive(s0, es, t0, log0, r, buffer, keys);
  }

  // The value buffer holds the value of every kept record that q can find, when its line is
  // read.
  ghost predicate BufferHolds(log: seq<Rec>, buffer: string, q: string) {
    forall i :: 0 <= i < |log| && Kept(log[i]) && Candidate(log[i].key, q) ==>
      |log[i].value| == log[i].valueSize && log[i].value <= BufferAt(log[..i], buffer)
  }

  // Equal but for the value.
  ghost predicate SameSizes(a: Option<Rec>, b: Option<Rec>) {
    a.Some? == b.Some? && (a.Some? ==> a.value.(value := b.value.value) == b.value)
  }

  // All records that q can find are loaded from their own lines.
  ghost predicate AllKept(log: seq<Rec>, q: string) {
    forall i :: 0 <= i < |log| && Candidate(log[i].key, q) ==> Kept(log[i])
  }

  // A query finds the latest logged record in a log of kept records, but for the value.
  lemma RestoredAgrees(log: seq<Rec>, buffer: string, q: string)
    requires AllHarmless(log, q) && AllKept(log, q)
    ensures SameSizes(Latest(Restored(LogText(log), buffer), q), Latest(log, q))
    ensures BufferHolds(log, buffer, q) ==> Latest(Restored(LogText(log), buffer), q) == Latest(log, q)
  {
    hide Restored, LogText, Candidate, Harmless, Kept, BufferAt, Latest;
    var k := RestoredLatest(log, buffer, q);
    LatestAt(log, k, q);
    if k >= 0 && BufferHolds(log, buffer, q) {
      CutIff(log[k].value, BufferAt(log[..k], buffer));
    }
  }

  lemma {:induction false} LatestAt(log: seq<Rec>, k: int, q: string)
    requires -1 <= k < |log|
    requires forall i :: k < i < |log| ==> !Candidate(log[i].key, q)
    requires k >= 0 ==> Candidate(log[k].key, q)
    ensures Latest(log, q) == if k >= 0 then Some(log[k]) else None
  {
    if log != [] && k < |log| - 1 {
      LatestAt(log[..|log| - 1], k, q);
    }
  }

  // Recovery at any crash point: for every query with one candidate key, all of whose
  // records are loaded, the restarted server has the key and sizes that the crashed one had,
  // or had with the one logged record inserted; and the very same record when the value
  // buffer held the values, now and at the start before.
  lemma RecoveryAgrees(s0: State, es: seq<Event>, log0: seq<Rec>, buffer0: string, buffer: string, keys: set<string>, q: string)
    requires Fresh(s0, Replay(EMPTY, Restored(LogText(log0), buffer0)), log0) && IsRun(s0, es)
    requires var log := After(s0, es).log;
             AllHarmless(log, q) && AllKept(log, q) && KeysWithin(log, keys) && OneCandidate(keys, q)
    ensures var log, before := After(s0, es).log, Answers(After(s0, es), q);
            && (exists b :: b in before && SameSizes(Recovered(log, buffer, q), b))
            && (BufferHolds(log0, buffer0, q) && BufferHolds(log, buffer, q) ==> Recovered(log, buffer, q) in before)
  {
    hide Apply, IsRun, Fresh, Inv, Restored, LogText, Candidate, Harmless, Kept, BufferHolds, Latest, AllHarmless, AllKept;
    var recs0 := Restored(LogText(log0), buffer0);
    var s := After(s0, es);
    var sets := LoggedSince(s0, es, Replay(EMPTY, recs0), log0);
    RecoveredLatest(s.log, buffer, keys, q);
    RestoredAgrees(s.log, buffer, q);
    StartLog(log0, sets, keys, q);
    RestoredAgrees(log0, buffer0, q);
    RecoveredLatest(log0, buffer0, keys, q);
    LiveGet(Replay(EMPTY, recs0), sets, q);
    LatestOfBoth(log0, sets, q);
  }

  // What a lookup could have been answered when the server stopped.
  ghost function Answers(s: State, q: string): set<Option<Rec>>
    requires |s.chains| == TABLESIZE
  {
    {Get(TableOf(s), q)}
    + set w | 0 <= w < |s.workers| && s.workers[w].Logged? :: Get(Tables.Insert(TableOf(s), s.workers[w].req.rec), q)
  }

  // The records logged since the start, which give one of those answers.
  lemma LoggedSince(s0: State, es: seq<Event>, t0: Table, log0: seq<Rec>) returns (sets: seq<Rec>)
    requires Fresh(s0, t0, log0) && IsRun(s0, es)
    ensures After(s0, es).log == log0 + sets
    ensures |After(s0, es).chains| == TABLESIZE && forall q :: Get(Live(t0, sets), q) in Answers(After(s0, es), q)
  {
    hide Apply, IsRun, Fresh, LogInv, AnswerInv, IdInv, DoneInv, Tables.Insert, TableOf, Get;
    RunInv(s0, es, t0, log0);
    LogAtCrash(s0, es, t0, log0);
    var s := After(s0, es);
    sets := Sets(s.ops);
    if s.log != log0 + sets {
      var w :| 0 <= w < |s.workers| && s.workers[w].Logged? && s.log == log0 + Sets(s.ops) + [s.workers[w].req.rec];
      sets := Sets(s.ops) + [s.workers[w].req.rec];
      assert s.log == log0 + sets;
      LiveStep(t0, Sets(s.ops), s.workers[w].req.rec);
    }
  }

  lemma StartLog(log0: seq<Rec>, sets: seq<Rec>, keys: set<string>, q: string)
    requires AllHarmless(log0 + sets, q) && AllKept(log0 + sets, q) && KeysWithin(log0 + sets, keys)
    ensures AllHarmless(log0, q) && AllKept(log0, q) && KeysWithin(log0, keys)
  {
    hide Harmless, Kept, Candidate;
    assert forall i :: 0 <= i < |log0| ==> log0[i] == (log0 + sets)[i];
  }
}
