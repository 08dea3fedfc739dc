// What TOB/queue.c computes, on sequences of queue entries: the delivery order,
// the insertion sort, lookup and removal by uid.
module QueueSpec {

  // The fields of an issued message that travel in its BROAD. `src` is the index of
  // the issuing process, which listens on port BASEPORT + src.
  datatype Message = Message(pid: nat, src: nat, lc: nat, uid: nat, body: string)

  // A queued message with the two fields that change while it is queued.
  datatype Entry = Entry(msg: Message, acked: bool, acks: nat)

  // Delivery order: smaller timestamp first, larger pid first among equal timestamps.
  predicate Before(a: Message, b: Message) {
    a.lc < b.lc || (a.lc == b.lc && a.pid > b.pid)
  }

  // The first position, from i on, whose entry comes strictly after m.
  function PosFrom(q: seq<Entry>, m: Message, i: nat): (p: nat)
    requires i <= |q|
    ensures i <= p <= |q|
    ensures forall j :: i <= j < p ==> !Before(m, q[j].msg)
    ensures p < |q| ==> Before(m, q[p].msg)
    decreases |q| - i
  {
    if i == |q| || Before(m, q[i].msg) then i else PosFrom(q, m, i + 1)
  }

  function InsertPos(q: seq<Entry>, m: Message): (p: nat)
    ensures p <= |q|
    ensures forall j :: 0 <= j < p ==> !Before(m, q[j].msg)
    ensures p < |q| ==> Before(m, q[p].msg)
  {
    PosFrom(q, m, 0)
  }

  function InsertAt<T>(s: seq<T>, p: nat, x: T): seq<T>
    requires p <= |s|
  {
    s[..p] + [x] + s[p..]
  }

  function Insert(q: seq<Entry>, e: Entry): seq<Entry> {
    InsertAt(q, InsertPos(q, e.msg), e)
  }

  // Insertion sort, taking the entries from the front one by one.
  function Sort(q: seq<Entry>): seq<Entry> {
    if q == [] then [] else Insert(Sort(q[..|q| - 1]), q[|q| - 1])
  }

  // The index, from i on, of the first entry with this uid, or |q| when there is none.
  function FindFrom(q: seq<Entry>, uid: nat, i: nat): (k: nat)
    requires i <= |q|
    ensures i <= k <= |q|
    ensures k < |q| ==> q[k].msg.uid == uid
    ensures forall j :: i <= j < k ==> q[j].msg.uid != uid
    decreases |q| - i
  {
    if i == |q| || q[i].msg.uid == uid then i else FindFrom(q, uid, i + 1)
  }

  function Find(q: seq<Entry>, uid: nat): (k: nat)
    ensures k <= |q|
    ensures k < |q| ==> q[k].msg.uid == uid
    ensures forall j :: 0 <= j < k ==> q[j].msg.uid != uid
  {
    FindFrom(q, uid, 0)
  }

  // Removal of the first entry with this uid; the other entries keep their order.
  function Remove(q: seq<Entry>, uid: nat): seq<Entry> {
    var i := Find(q, uid);
    if i < |q| then q[..i] + q[i + 1..] else q
  }

  // No entry stands in front of one that comes strictly before it.
  ghost predicate Sorted(q: seq<Entry>) {
    forall i, j :: 0 <= i < j < |q| ==> !Before(q[j].msg, q[i].msg)
  }

  // Every entry comes strictly before all later ones.
  ghost predicate StrictlySorted(q: seq<Entry>) {
    forall i, j :: 0 <= i < j < |q| ==> Before(q[i].msg, q[j].msg)
  }

  ghost predicate Queued(q: seq<Entry>, m: Message) {
    exists i :: 0 <= i < |q| && q[i].msg == m
  }

  lemma InsertSorted(q: seq<Entry>, e: Entry)
    requires Sorted(q)
    ensures Sorted(Insert(q, e))
  {
    var p := InsertPos(q, e.msg);
    var r := Insert(q, e);
    forall i, j | 0 <= i < j < |r| ensures !Before(r[j].msg, r[i].msg) {
      if i == p {
        assert r[j] == q[j - 1];
        assert !Before(q[j - 1].msg, q[p].msg);
      } else if j == p {
        assert r[i] == q[i];
      }
    }
  }

  // Smaller timestamps stand in front of larger ones, and larger pids in front of smaller
  // ones with the same timestamp.
  lemma {:induction false} SortSorted(q: seq<Entry>)
    ensures Sorted(Sort(q))
    ensures var s := Sort(q);
            forall i, j :: 0 <= i < j < |s| ==>
              s[i].msg.lc < s[j].msg.lc || (s[i].msg.lc == s[j].msg.lc && s[i].msg.pid >= s[j].msg.pid)
  {
    if q != [] {
      SortSorted(q[..|q| - 1]);
      InsertSorted(Sort(q[..|q| - 1]), q[|q| - 1]);
      SortedKeys(Sort(q));
    }
  }

  lemma SortedKeys(s: seq<Entry>)
    requires Sorted(s)
    ensures forall i, j :: 0 <= i < j < |s| ==>
              s[i].msg.lc < s[j].msg.lc || (s[i].msg.lc == s[j].msg.lc && s[i].msg.pid >= s[j].msg.pid)
  {
    forall i, j | 0 <= i < j < |s|
      ensures s[i].msg.lc < s[j].msg.lc || (s[i].msg.lc == s[j].msg.lc && s[i].msg.pid >= s[j].msg.pid)
    {
      assert !Before(s[j].msg, s[i].msg);
    }
  }

  lemma InsertAtPermutes<T>(s: seq<T>, p: nat, x: T)
    requires p <= |s|
    ensures multiset(InsertAt(s, p, x)) == multiset(s) + multiset{x}
  {
    assert s == s[..p] + s[p..];
  }

  lemma {:induction false} SortPermutes(q: seq<Entry>)
    ensures multiset(Sort(q)) == multiset(q)
  {
    hide InsertPos;
    if q != [] {
      var s, e := q[..|q| - 1], q[|q| - 1];
      SortPermutes(s);
      InsertAtPermutes(Sort(s), InsertPos(Sort(s), e.msg), e);
      assert q == s + [e];
    }
  }

  // The entries that tie with m in the delivery order, in queue order.
  function Ties(q: seq<Entry>, m: Message): seq<Entry> {
    if q == [] then []
    else Ties(q[..|q| - 1], m) +
         (var e := q[|q| - 1]; if !Before(e.msg, m) && !Before(m, e.msg) then [e] else [])
  }

  lemma {:induction false} TiesConcat(a: seq<Entry>, b: seq<Entry>, m: Message)
    ensures Ties(a + b, m) == Ties(a, m) + Ties(b, m)
  {
    if b == [] {
      assert a + b == a;
    } else {
      assert (a + b)[..|a + b| - 1] == a + b[..|b| - 1];
      TiesConcat(a, b[..|b| - 1], m);
    }
  }

  lemma {:induction false} NoTies(q: seq<Entry>, m: Message)
    requires forall i :: 0 <= i < |q| ==> Before(m, q[i].msg)
    ensures Ties(q, m) == []
  {
    if q != [] {
      NoTies(q[..|q| - 1], m);
    }
  }

  lemma TiesBetween(a: seq<Entry>, e: Entry, b: seq<Entry>, m: Message)
    requires Ties([e], m) == [] || Ties(b, m) == []
    ensures Ties(a + [e] + b, m) == Ties(a + b, m) + Ties([e], m)
  {
    TiesConcat(a, b, m);
    TiesConcat(a + [e], b, m);
    TiesConcat(a, [e], m);
  }

  // Insertion puts an entry behind all entries it ties with.
  lemma InsertStable(q: seq<Entry>, e: Entry, m: Message)
    requires Sorted(q)
    ensures Ties(Insert(q, e), m) == Ties(q, m) + Ties([e], m)
  {
    var p := InsertPos(q, e.msg);
    TiesOfOne(e, m);
    if !Before(e.msg, m) && !Before(m, e.msg) {
      forall i | 0 <= i < |q[p..]| ensures Before(m, q[p..][i].msg) {
        assert i == 0 || !Before(q[p + i].msg, q[p].msg);
      }
      NoTies(q[p..], m);
    }
    TiesBetween(q[..p], e, q[p..], m);
    assert q[..p] + q[p..] == q;
  }

  lemma TiesOfOne(e: Entry, m: Message)
    ensures Ties([e], m) == if !Before(e.msg, m) && !Before(m, e.msg) then [e] else []
  {
    assert [e][..0] == [];
  }

  // The sort is stable: entries that tie keep their arrival order.
  lemma {:induction false} SortStable(q: seq<Entry>, m: Message)
    ensures Ties(Sort(q), m) == Ties(q, m)
  {
    if q != [] {
      var s, e := q[..|q| - 1], q[|q| - 1];
      SortStable(s, m);
      SortSorted(s);
      InsertStable(Sort(s), e, m);
      assert q == s + [e];
      TiesConcat(s, [e], m);
    }
  }

  // Sorting sorted entries plus one new entry only places the new one.
  lemma {:induction false} SortOfSorted(q: seq<Entry>)
    requires Sorted(q)
    ensures Sort(q) == q
  {
    if q != [] {
      var s := q[..|q| - 1];
      SortOfSorted(s);
      assert InsertPos(s, q[|q| - 1].msg) == |s|;
    }
  }

  lemma StrictIsSorted(q: seq<Entry>)
    requires StrictlySorted(q)
    ensures Sorted(q)
  {
  }

  // A message that is ordered against everything queued keeps the order strict.
  lemma InsertStrict(q: seq<Entry>, e: Entry)
    requires StrictlySorted(q)
    requires forall i :: 0 <= i < |q| ==> Before(q[i].msg, e.msg) || Before(e.msg, q[i].msg)
    ensures StrictlySorted(Insert(q, e))
  {
    var p := InsertPos(q, e.msg);
    var r := Insert(q, e);
    forall i, j | 0 <= i < j < |r| ensures Before(r[i].msg, r[j].msg) {
      if i == p {
        assert r[j] == q[j - 1] && (j - 1 == p || Before(q[p].msg, q[j - 1].msg));
      } else if j == p {
        assert r[i] == q[i] && !Before(e.msg, q[i].msg);
      }
    }
  }

  lemma InsertMembers(q: seq<Entry>, e: Entry)
    ensures forall i :: 0 <= i < |Insert(q, e)| ==> Insert(q, e)[i] == e || Insert(q, e)[i] in q
    ensures forall m :: Queued(Insert(q, e), m) <==> Queued(q, m) || m == e.msg
  {
    var p := InsertPos(q, e.msg);
    var r := Insert(q, e);
    assert r[p] == e;
    forall m | Queued(q, m) ensures Queued(r, m) {
      var i :| 0 <= i < |q| && q[i].msg == m;
      assert r[if i < p then i else i + 1] == q[i];
    }
  }

  lemma SortAppend(q: seq<Entry>, e: Entry)
    requires Sorted(q)
    ensures Sort(q + [e]) == Insert(q, e)
  {
    assert (q + [e])[..|q|] == q;
    SortOfSorted(q);
  }

  // Two strictly sorted queues that hold the same messages hold them in the same order,
  // whatever the order in which the messages arrived.
  lemma {:induction false} SameMessagesSameOrder(q1: seq<Entry>, q2: seq<Entry>)
    requires StrictlySorted(q1) && StrictlySorted(q2)
    requires forall m :: Queued(q1, m) <==> Queued(q2, m)
    ensures |q1| == |q2|
    ensures forall i :: 0 <= i < |q1| ==> q1[i].msg == q2[i].msg
  {
    if q1 == [] {
      if q2 != [] { assert Queued(q2, q2[0].msg); }
    } else if q2 == [] {
      assert Queued(q1, q1[0].msg);
    } else {
      assert Queued(q1, q1[0].msg) && Queued(q2, q2[0].msg);
      assert q1[0].msg == q2[0].msg;
      forall m ensures Queued(q1[1..], m) <==> Queued(q2[1..], m) {
        TailQueued(q1, m);
        TailQueued(q2, m);
      }
      SameMessagesSameOrder(q1[1..], q2[1..]);
      forall i | 0 <= i < |q1| ensures q1[i].msg == q2[i].msg {
        if i > 0 { assert q1[1..][i - 1].msg == q2[1..][i - 1].msg; }
      }
    }
  }

  lemma TailQueued(q: seq<Entry>, m: Message)
    requires StrictlySorted(q) && q != []
    ensures Queued(q[1..], m) <==> Queued(q, m) && m != q[0].msg
  {
    if Queued(q, m) && m != q[0].msg {
      var i :| 0 <= i < |q| && q[i].msg == m;
      assert q[1..][i - 1].msg == m;
    }
    if Queued(q[1..], m) {
      var i :| 0 <= i < |q[1..]| && q[1..][i].msg == m;
      assert q[i + 1].msg == m;
    }
  }

  lemma SortStep(q: seq<Entry>, k: nat)
    requires k < |q|
    ensures Sort(q[..k + 1]) == Insert(Sort(q[..k]), q[k])
  {
    assert q[..k + 1][..k] == q[..k];
  }

  lemma FindIs(q: seq<Entry>, uid: nat, k: nat)
    requires k <= |q|
    requires forall j :: 0 <= j < k ==> q[j].msg.uid != uid
    requires k < |q| ==> q[k].msg.uid == uid
    ensures Find(q, uid) == k
  {
  }

  lemma InsertPosIs(q: seq<Entry>, m: Message, p: nat)
    requires p <= |q|
    requires forall i :: 0 <= i < p ==> !Before(m, q[i].msg)
    requires p < |q| ==> Before(m, q[p].msg)
    ensures InsertPos(q, m) == p
  {
  }
}
