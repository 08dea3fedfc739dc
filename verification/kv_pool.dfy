// A worker pool of server_mt.c: client_threads and hash_threads both take items from a
// queue under a mutex and wait on a condition variable when it is empty. A critical section
// is one step; waiting releases the mutex.
module WorkerPools {

  // Idle: about to lock and look at the queue. Blocked: in cond_wait. Woken: returned from
  // cond_wait, about to look a second time. Busy: handling an item outside the lock. Stuck:
  // in a handler that never returns, as a connection that falls silent makes it.
  datatype Phase<T> = Idle | Blocked | Woken | Busy(item: T) | Stuck(item: T)

  // `added` and `taken` record what has happened; no step reads them.
  datatype Pool<T> = Pool(queue: seq<T>, workers: seq<Phase<T>>, added: seq<T>, taken: seq<(nat, T)>)

  datatype Event<T> =
    | Add(item: T, signalled: int)  // enqueue and cond_signal; -1 when nobody was blocked
    | Enter(w: nat)
    | Spurious(w: nat)              // cond_wait returns without a signal
    | Retry(w: nat)
    | Finish(w: nat)
    | Hang(w: nat)

  function Init<T>(n: nat): Pool<T> {
    Pool([], seq(n, _ => Idle), [], [])
  }

  predicate InPhase<T(==)>(p: Pool<T>, w: int, ph: Phase<T>) {
    0 <= w < |p.workers| && p.workers[w] == ph
  }

  // cond_signal wakes some blocked thread if there is one.
  ghost predicate Enabled<T>(p: Pool<T>, e: Event<T>) {
    match e
    case Add(_, s) => if s >= 0 then InPhase(p, s, Blocked) else forall w :: 0 <= w < |p.workers| ==> p.workers[w] != Blocked
    case Enter(w) => InPhase(p, w, Idle)
    case Spurious(w) => InPhase(p, w, Blocked)
    case Retry(w) => InPhase(p, w, Woken)
    case Finish(w) => w < |p.workers| && p.workers[w].Busy?
    case Hang(w) => w < |p.workers| && p.workers[w].Busy?
  }

  // What a worker does with the lock held; an empty queue sends it to `otherwise`.
  function Look<T>(p: Pool<T>, w: nat, otherwise: Phase<T>): Pool<T>
    requires w < |p.workers|
  {
    if p.queue == [] then p.(workers := p.workers[w := otherwise])
    else p.(queue := p.queue[1..], workers := p.workers[w := Busy(p.queue[0])], taken := p.taken + [(w, p.queue[0])])
  }

  ghost function Apply<T>(p: Pool<T>, e: Event<T>): Pool<T>
    requires Enabled(p, e)
  {
    match e
    case Add(x, s) =>
      p.(queue := p.queue + [x], added := p.added + [x],
         workers := if s >= 0 then p.workers[s := Woken] else p.workers)
    case Enter(w) => Look(p, w, Blocked)
    case Spurious(w) => p.(workers := p.workers[w := Woken])
    case Retry(w) => Look(p, w, Idle)
    case Finish(w) => p.(workers := p.workers[w := Idle])
    case Hang(w) => p.(workers := p.workers[w := Stuck(p.workers[w].item)])
  }

  // A run is a sequence of events, each enabled where it happens.
  ghost predicate IsRun<T>(n: nat, es: seq<Event<T>>) {
    es == [] ||
    (IsRun(n, es[..|es| - 1]) && Enabled(After(n, es[..|es| - 1]), es[|es| - 1]))
  }

  ghost function After<T>(n: nat, es: seq<Event<T>>): Pool<T> {
    if es == [] then Init(n)
    else
      var p := After(n, es[..|es| - 1]);
      if Enabled(p, es[|es| - 1]) then Apply(p, es[|es| - 1]) else p
  }

  function Items<T>(taken: seq<(nat, T)>): (s: seq<T>)
    ensures |s| == |taken|
  {
    seq(|taken|, i requires 0 <= i < |taken| => taken[i].1)
  }

  // About to look at the queue.
  predicate Awake<T>(ph: Phase<T>) {
    ph.Idle? || ph.Woken?
  }

  function CountAwake<T>(workers: seq<Phase<T>>): nat {
    if workers == [] then 0
    else CountAwake(workers[..|workers| - 1]) + if Awake(workers[|workers| - 1]) then 1 else 0
  }

  lemma {:induction false} CountUpdate<T>(workers: seq<Phase<T>>, w: nat, ph: Phase<T>)
    requires w < |workers|
    ensures CountAwake(workers[w := ph]) + (if Awake(workers[w]) then 1 else 0)
         == CountAwake(workers) + (if Awake(ph) then 1 else 0)
  {
    var n := |workers| - 1;
    if w == n {
      assert workers[w := ph][..n] == workers[..n];
    } else {
      CountUpdate(workers[..n], w, ph);
      assert workers[w := ph][..n] == workers[..n][w := ph];
    }
  }

  lemma {:induction false} SomeoneAwake<T>(workers: seq<Phase<T>>) returns (w: nat)
    requires CountAwake(workers) > 0
    ensures w < |workers| && Awake(workers[w])
  {
    var n := |workers| - 1;
    if Awake(workers[n]) {
      w := n;
    } else {
      w := SomeoneAwake(workers[..n]);
    }
  }

  // Exactly-once hand-off in order: what has been taken, each item by one worker, followed
  // by what is queued, is what has been added. And while a worker sleeps, each queued item
  // has a worker of its own that is about to look.
  ghost predicate PoolInv<T>(n: nat, p: Pool<T>) {
    && |p.workers| == n
    && Items(p.taken) + p.queue == p.added
    && ((exists w :: InPhase(p, w, Blocked)) ==> |p.queue| <= CountAwake(p.workers))
    && (forall w :: 0 <= w < n && Handles(p.workers[w]) ==> (w, p.workers[w].item) in p.taken)
  }

  predicate Handles<T>(ph: Phase<T>) {
    ph.Busy? || ph.Stuck?
  }

  lemma LookKeeps<T>(n: nat, p: Pool<T>, w: nat, otherwise: Phase<T>)
    requires PoolInv(n, p) && w < n && Awake(p.workers[w]) && !Handles(otherwise)
    ensures PoolInv(n, Look(p, w, otherwise))
  {
    var q := Look(p, w, otherwise);
    CountUpdate(p.workers, w, q.workers[w]);
    if p.queue != [] {
      assert Items(q.taken) == Items(p.taken) + [p.queue[0]];
      assert p.queue == [p.queue[0]] + p.queue[1..];
      assert (w, p.queue[0]) == q.taken[|p.taken|];
      SameBlocked(p, q, w);
    }
  }

  // A step that blocks nobody leaves no worker blocked that was not.
  lemma SameBlocked<T>(p: Pool<T>, q: Pool<T>, w: nat)
    requires w < |p.workers| == |q.workers| && q.workers == p.workers[w := q.workers[w]]
    requires q.workers[w] != Blocked
    ensures (exists v :: InPhase(q, v, Blocked)) ==> exists v :: InPhase(p, v, Blocked)
  {
    if v :| InPhase(q, v, Blocked) {
      assert InPhase(p, v, Blocked);
    }
  }

  lemma StepKeeps<T>(n: nat, p: Pool<T>, e: Event<T>)
    requires PoolInv(n, p) && Enabled(p, e)
    ensures PoolInv(n, Apply(p, e))
  {
    match e
    case Add(x, s) =>
      assert Items(p.taken) + (p.queue + [x]) == p.added + [x];
      if s >= 0 {
        CountUpdate(p.workers, s, Woken);
        assert InPhase(p, s, Blocked);
      }
    case Enter(w) => LookKeeps(n, p, w, Blocked);
    case Retry(w) => LookKeeps(n, p, w, Idle);
    case Spurious(w) =>
      CountUpdate(p.workers, w, Woken);
      SameBlocked(p, Apply(p, e), w);
    case Finish(w) =>
      CountUpdate(p.workers, w, Idle);
      SameBlocked(p, Apply(p, e), w);
    case Hang(w) =>
      CountUpdate(p.workers, w, Stuck(p.workers[w].item));
      SameBlocked(p, Apply(p, e), w);
  }

  lemma {:induction false} PoolSafe<T>(n: nat, es: seq<Event<T>>)
    requires IsRun(n, es)
    ensures PoolInv(n, After(n, es))
  {
    if es == [] {
      var p: Pool<T> := Init(n);
      assert Items(p.taken) + p.queue == p.added;
    } else {
      PoolSafe(n, es[..|es| - 1]);
      StepKeeps(n, After(n, es[..|es| - 1]), es[|es| - 1]);
    }
  }

  lemma Extend<T>(n: nat, es: seq<Event<T>>, e: Event<T>)
    requires IsRun(n, es) && Enabled(After(n, es), e)
    ensures IsRun(n, es + [e]) && After(n, es + [e]) == Apply(After(n, es), e)
  {
    assert (es + [e])[..|es|] == es;
  }

  // Event e is worker w locking the queue and taking the oldest item.
  ghost predicate TakesOldest<T>(n: nat, es: seq<Event<T>>, e: Event<T>, w: nat) {
    && After(n, es).queue != [] && (e == Enter(w) || e == Retry(w)) && IsRun(n, es + [e])
    && (var p, q := After(n, es), After(n, es + [e]);
        InPhase(q, w, Busy(p.queue[0])) && q.queue == p.queue[1..] && q.taken == p.taken + [(w, p.queue[0])])
  }

  // No wakeup is lost: while an item is queued and some worker is not handling another one,
  // asleep or not, some worker can take the oldest by one step of its own, with no signal
  // and without any handler returning.
  lemma NoLostWakeup<T>(n: nat, es: seq<Event<T>>, v: nat) returns (w: nat, e: Event<T>)
    requires IsRun(n, es) && After(n, es).queue != []
    requires v < n && |After(n, es).workers| == n && !Handles(After(n, es).workers[v])
    ensures TakesOldest(n, es, e, w)
  {
    PoolSafe(n, es);
    var p := After(n, es);
    if Awake(p.workers[v]) {
      w := v;
    } else {
      assert InPhase(p, v, Blocked);
      w := SomeoneAwake(p.workers);
    }
    e := if p.workers[w].Idle? then Enter(w) else Retry(w);
    Extend(n, es, e);
  }

  // A wakeup with nothing queued does no harm: the worker finds nothing, takes nothing, and is
  // back in cond_wait with the pool as it was.
  lemma IdleWakeup<T>(n: nat, es: seq<Event<T>>, w: nat)
    requires IsRun(n, es) && After(n, es).queue == [] && InPhase(After(n, es), w, Blocked)
    ensures var back := es + [Spurious(w)] + [Retry(w)] + [Enter(w)];
            IsRun(n, back) && After(n, back) == After(n, es)
  {
    Extend(n, es, Spurious(w));
    Extend(n, es + [Spurious(w)], Retry(w));
    Extend(n, es + [Spurious(w)] + [Retry(w)], Enter(w));
    var p := After(n, es);
    assert p.workers[w := Woken][w := Idle][w := Blocked] == p.workers;
  }

  // Every handler hangs.
  ghost predicate AllStuck<T>(p: Pool<T>) {
    forall w :: 0 <= w < |p.workers| ==> p.workers[w].Stuck?
  }

  // The item queued first after es is taken in some continuation of the run.
  ghost predicate OldestTaken<T(!new)>(n: nat, es: seq<Event<T>>) {
    exists more: seq<Event<T>> :: IsRun(n, es + more) && |After(n, es + more).taken| > |After(n, es).taken|
  }

  lemma {:induction false} StuckForever<T>(n: nat, es: seq<Event<T>>, more: seq<Event<T>>)
    requires IsRun(n, es + more) && AllStuck(After(n, es))
    ensures AllStuck(After(n, es + more)) && After(n, es + more).taken == After(n, es).taken
    ensures After(n, es).queue <= After(n, es + more).queue
  {
    if more == [] {
      assert es + more == es;
    } else {
      var front := more[..|more| - 1];
      assert (es + more)[..|es + more| - 1] == es + front;
      StuckForever(n, es, front);
    }
  }

  // A queued item can still be taken, in whatever way the run goes on, exactly when not
  // every worker is stuck.
  lemma OldestCanBeTakenIff<T(!new)>(n: nat, es: seq<Event<T>>)
    requires IsRun(n, es) && After(n, es).queue != []
    ensures OldestTaken(n, es) <==> !AllStuck(After(n, es))
  {
    PoolSafe(n, es);
    if AllStuck(After(n, es)) {
      forall more: seq<Event<T>> | IsRun(n, es + more) ensures After(n, es + more).taken == After(n, es).taken {
        StuckForever(n, es, more);
      }
    } else {
      var own := OldestCanBeTaken(n, es);
    }
  }

  // By at most two steps: a worker that is busy returns first.
  lemma OldestCanBeTaken<T>(n: nat, es: seq<Event<T>>) returns (own: seq<Event<T>>)
    requires IsRun(n, es) && After(n, es).queue != [] && !AllStuck(After(n, es))
    ensures 1 <= |own| <= 2 && IsRun(n, es + own)
    ensures var p, q := After(n, es), After(n, es + own);
            exists w: nat :: InPhase(q, w, Busy(p.queue[0])) && q.queue == p.queue[1..] && q.taken == p.taken + [(w, p.queue[0])]
  {
    PoolSafe(n, es);
    var p := After(n, es);
    var v :| 0 <= v < n && !p.workers[v].Stuck?;
    if Handles(p.workers[v]) {
      Extend(n, es, Finish(v));
      var w, e := NoLostWakeup(n, es + [Finish(v)], v);
      own := [Finish(v), e];
      assert es + own == es + [Finish(v)] + [e];
    } else {
      var w, e := NoLostWakeup(n, es, v);
      own := [e];
    }
  }
}
