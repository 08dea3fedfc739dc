// The hash table of memcache_lite as chains of records, and the two ways a log of SETs
// ends up in it: live, where every SET is put in front, and replayed, where a known key is
// updated in place.
module Tables {
  import opened Wrappers
  import opened Hashing

  // A key with its value; value_size is what strlen found or the log says, user_size the
  // number that the client announced.
  datatype Rec = Rec(key: string, value: string, valueSize: nat, userSize: nat)

  type Table = t: seq<seq<Rec>> | |t| == TABLESIZE witness [[], [], [], [], []]

  const EMPTY: Table := [[], [], [], [], []]

  // strncmp over the length of the query: the query is a prefix of the stored key.
  predicate Matches(q: string, key: string) {
    q <= key
  }

  function FirstMatch(chain: seq<Rec>, q: string): Option<Rec> {
    if chain == [] then None
    else if Matches(q, chain[0].key) then Some(chain[0])
    else FirstMatch(chain[1..], q)
  }

  // get_node.
  function Get(t: Table, q: string): Option<Rec> {
    FirstMatch(t[Bucket(q)], q)
  }

  // insert_node.
  function Insert(t: Table, r: Rec): Table {
    t[Bucket(r.key) := [r] + t[Bucket(r.key)]]
  }

  function KeyIndex(chain: seq<Rec>, key: string): (i: nat)
    ensures i <= |chain|
    ensures i < |chain| ==> chain[i].key == key
    ensures forall j :: 0 <= j < i ==> chain[j].key != key
  {
    if chain == [] || chain[0].key == key then 0 else 1 + KeyIndex(chain[1..], key)
  }

  // One record of init_hash_from_log: the first node with exactly this key is overwritten,
  // a new key goes in front.
  function Upsert(t: Table, r: Rec): Table {
    var b := Bucket(r.key);
    var i := KeyIndex(t[b], r.key);
    if i < |t[b]| then t[b := t[b][i := r]] else Insert(t, r)
  }

  function Live(t: Table, recs: seq<Rec>): Table {
    if recs == [] then t else Insert(Live(t, recs[..|recs| - 1]), recs[|recs| - 1])
  }

  function Replay(t: Table, recs: seq<Rec>): Table {
    if recs == [] then t else Upsert(Replay(t, recs[..|recs| - 1]), recs[|recs| - 1])
  }

  // The place of the first record that the query is a prefix of, or the length of the chain.
  lemma {:induction false} FirstMatchIs(chain: seq<Rec>, q: string) returns (i: nat)
    ensures i <= |chain|
    ensures forall j :: 0 <= j < i ==> !(|q| <= |chain[j].key| && chain[j].key[..|q|] == q)
    ensures i < |chain| ==> |q| <= |chain[i].key| && chain[i].key[..|q|] == q
    ensures FirstMatch(chain, q) == if i < |chain| then Some(chain[i]) else None
  {
    if chain == [] || (|q| <= |chain[0].key| && chain[0].key[..|q|] == q) {
      i := 0;
    } else {
      i := FirstMatchIs(chain[1..], q);
      i := i + 1;
    }
  }

  // A lookup finds the first record in the chain of the query's bucket whose key starts with
  // the query, and nothing if there is none.
  lemma GetIs(t: Table, q: string) returns (i: nat)
    ensures var chain := t[Bucket(q)];
            && i <= |chain|
            && (forall j :: 0 <= j < i ==> !(|q| <= |chain[j].key| && chain[j].key[..|q|] == q))
            && (i < |chain| ==> |q| <= |chain[i].key| && chain[i].key[..|q|] == q)
            && Get(t, q) == if i < |chain| then Some(chain[i]) else None
  {
    i := FirstMatchIs(t[Bucket(q)], q);
  }

  // ----- What is looked for -----

  predicate Candidate(key: string, q: string) {
    Bucket(key) == Bucket(q) && Matches(q, key)
  }

  // The last record of the log that a query can find.
  function Latest(recs: seq<Rec>, q: string): Option<Rec> {
    if recs == [] then None
    else if Candidate(recs[|recs| - 1].key, q) then Some(recs[|recs| - 1])
    else Latest(recs[..|recs| - 1], q)
  }

  // That is the last one in the query's bucket whose key starts with the query.
  lemma {:induction false} LatestIs(recs: seq<Rec>, q: string) returns (i: int)
    ensures -1 <= i < |recs|
    ensures forall j :: i < j < |recs| && Bucket(recs[j].key) == Bucket(q) && |q| <= |recs[j].key| ==>
              recs[j].key[..|q|] != q
    ensures i >= 0 ==> Bucket(recs[i].key) == Bucket(q) && |q| <= |recs[i].key| && recs[i].key[..|q|] == q
    ensures Latest(recs, q) == if i >= 0 then Some(recs[i]) else None
  {
    hide Bucket;
    if recs == [] {
      i := -1;
    } else if Candidate(recs[|recs| - 1].key, q) {
      i := |recs| - 1;
    } else {
      i := LatestIs(recs[..|recs| - 1], q);
    }
  }

  // The map that a sequence of SETs is meant to build.
  function Store(recs: seq<Rec>): map<string, Rec> {
    if recs == [] then map[] else Store(recs[..|recs| - 1])[recs[|recs| - 1].key := recs[|recs| - 1]]
  }

  function Lookup(m: map<string, Rec>, q: string): Option<Rec> {
    if q in m then Some(m[q]) else None
  }

  ghost predicate KeysWithin(recs: seq<Rec>, keys: set<string>) {
    forall i :: 0 <= i < |recs| ==> recs[i].key in keys
  }

  // At most one stored key can answer the query.
  ghost predicate OneCandidate(keys: set<string>, q: string) {
    forall a, b :: a in keys && b in keys && Candidate(a, q) && Candidate(b, q) ==> a == b
  }

  // No stored key in the query's bucket properly extends the query.
  ghost predicate NoExtension(keys: set<string>, q: string) {
    forall k :: k in keys && Candidate(k, q) ==> k == q
  }

  // ----- The live table -----

  // A query finds the most recently inserted record of its bucket whose key it starts.
  lemma {:induction false} LiveGet(t: Table, recs: seq<Rec>, q: string)
    ensures Get(Live(t, recs), q) == if Latest(recs, q).Some? then Latest(recs, q) else Get(t, q)
  {
    if recs != [] {
      LiveGet(t, recs[..|recs| - 1], q);
      var u, r := Live(t, recs[..|recs| - 1]), recs[|recs| - 1];
      assert ([r] + u[Bucket(r.key)])[1..] == u[Bucket(r.key)];
    }
  }

  lemma {:induction false} LatestIsLookup(recs: seq<Rec>, keys: set<string>, q: string)
    requires KeysWithin(recs, keys) && NoExtension(keys, q)
    ensures Latest(recs, q) == Lookup(Store(recs), q)
  {
    if recs != [] {
      LatestIsLookup(recs[..|recs| - 1], keys, q);
    }
  }

  lemma NoExtensionMeans(keys: set<string>, q: string)
    ensures NoExtension(keys, q) <==> forall k :: k in keys && Bucket(k) == Bucket(q) && |k| > |q| ==> k[..|q|] != q
  {
    hide Bucket;
    forall k | k in keys && Bucket(k) == Bucket(q) && |k| > |q| ensures Candidate(k, q) <==> k[..|q|] == q {
    }
  }

  lemma GetOfOne(r: Rec, q: string)
    ensures Get(Live(EMPTY, [r]), q) == if Candidate(r.key, q) then Some(r) else None
    ensures Lookup(Store([r]), q) == if r.key == q then Some(r) else None
  {
    LiveGet(EMPTY, [r], q);
    assert [r][..0] == [];
  }

  // The live table is a last-write-wins map for a query, whatever SETs of these keys came
  // before, exactly when none of the keys properly extends the query in its bucket.
  lemma LiveIsMapIff(keys: set<string>, q: string)
    ensures (forall recs :: KeysWithin(recs, keys) ==> Get(Live(EMPTY, recs), q) == Lookup(Store(recs), q))
       <==> forall k :: k in keys && Bucket(k) == Bucket(q) && |k| > |q| ==> k[..|q|] != q
  {
    hide Bucket;
    NoExtensionMeans(keys, q);
    if NoExtension(keys, q) {
      forall recs | KeysWithin(recs, keys) ensures Get(Live(EMPTY, recs), q) == Lookup(Store(recs), q) {
        LiveGet(EMPTY, recs, q);
        LatestIsLookup(recs, keys, q);
      }
    } else {
      var k :| k in keys && Candidate(k, q) && k != q;
      var r := Rec(k, "", 0, 0);
      GetOfOne(r, q);
      assert KeysWithin([r], keys);
    }
  }

  // ----- The replayed table -----

  ghost predicate InBuckets(t: Table) {
    forall b, i :: 0 <= b < TABLESIZE && 0 <= i < |t[b]| ==> Bucket(t[b][i].key) == b
  }

  ghost predicate NoDuplicates(t: Table) {
    forall b, i, j :: 0 <= b < TABLESIZE && 0 <= i < j < |t[b]| ==> t[b][i].key != t[b][j].key
  }

  ghost predicate TableKeysWithin(t: Table, keys: set<string>) {
    forall b, i :: 0 <= b < TABLESIZE && 0 <= i < |t[b]| ==> t[b][i].key in keys
  }

  lemma UpsertShape(t: Table, r: Rec)
    requires InBuckets(t) && NoDuplicates(t)
    ensures InBuckets(Upsert(t, r)) && NoDuplicates(Upsert(t, r))
  {
    var u, b := Upsert(t, r), Bucket(r.key);
    forall i, j | 0 <= i < j < |u[b]| ensures u[b][i].key != u[b][j].key {
      if KeyIndex(t[b], r.key) == |t[b]| {
        assert u[b][j] == t[b][j - 1] && (i > 0 ==> u[b][i] == t[b][i - 1]);
      }
    }
  }

  // Replay never stores a key twice and files every record in its bucket.
  lemma {:induction false} ReplayShape(t: Table, recs: seq<Rec>)
    requires InBuckets(t) && NoDuplicates(t)
    ensures InBuckets(Replay(t, recs)) && NoDuplicates(Replay(t, recs))
  {
    if recs != [] {
      ReplayShape(t, recs[..|recs| - 1]);
      UpsertShape(Replay(t, recs[..|recs| - 1]), recs[|recs| - 1]);
    }
  }

  lemma {:induction false} ReplayKeys(recs: seq<Rec>, keys: set<string>)
    requires KeysWithin(recs, keys)
    ensures TableKeysWithin(Replay(EMPTY, recs), keys)
  {
    if recs != [] {
      ReplayKeys(recs[..|recs| - 1], keys);
    }
  }

  lemma {:induction false} FirstMatchUpdate(chain: seq<Rec>, i: nat, r: Rec, q: string)
    requires i < |chain| && chain[i].key == r.key
    requires forall j :: 0 <= j < |chain| && Matches(q, chain[j].key) ==> chain[j].key == r.key
    requires forall j :: 0 <= j < i ==> chain[j].key != r.key
    ensures Matches(q, r.key) ==> FirstMatch(chain[i := r], q) == Some(r)
    ensures !Matches(q, r.key) ==> FirstMatch(chain[i := r], q) == FirstMatch(chain, q)
  {
    if i > 0 {
      FirstMatchUpdate(chain[1..], i - 1, r, q);
      assert chain[i := r][1..] == chain[1..][i - 1 := r];
    } else {
      assert chain[i := r][1..] == chain[1..];
    }
  }

  lemma {:induction false} FirstMatchOther(chain: seq<Rec>, i: nat, r: Rec, q: string)
    requires i < |chain| && chain[i].key == r.key && !Matches(q, r.key)
    ensures FirstMatch(chain[i := r], q) == FirstMatch(chain, q)
  {
    if i > 0 {
      FirstMatchOther(chain[1..], i - 1, r, q);
      assert chain[i := r][1..] == chain[1..][i - 1 := r];
    } else {
      assert chain[i := r][1..] == chain[1..];
    }
  }

  lemma UpsertGet(t: Table, r: Rec, keys: set<string>, q: string)
    requires InBuckets(t) && TableKeysWithin(t, keys) && r.key in keys && OneCandidate(keys, q)
    ensures Get(Upsert(t, r), q) == if Candidate(r.key, q) then Some(r) else Get(t, q)
  {
    var b := Bucket(r.key);
    var i := KeyIndex(t[b], r.key);
    if b == Bucket(q) {
      if i < |t[b]| {
        if Matches(q, r.key) {
          FirstMatchUpdate(t[b], i, r, q);
        } else {
          FirstMatchOther(t[b], i, r, q);
        }
      } else {
        assert ([r] + t[b])[1..] == t[b];
      }
    }
  }

  // With one candidate key the replayed table, too, answers with the latest record.
  lemma {:induction false} ReplayGet(recs: seq<Rec>, keys: set<string>, q: string)
    requires KeysWithin(recs, keys) && OneCandidate(keys, q)
    ensures Get(Replay(EMPTY, recs), q) == Latest(recs, q)
  {
    if recs != [] {
      var old' := recs[..|recs| - 1];
      ReplayGet(old', keys, q);
      ReplayShape(EMPTY, old');
      ReplayKeys(old', keys);
      UpsertGet(Replay(EMPTY, old'), recs[|recs| - 1], keys, q);
    }
  }

  // Two candidate keys, the older one set again: the live table finds the older key, the
  // replayed table the newer one.
  lemma TwoCandidates(a: string, b: string, q: string)
    requires a != b && Candidate(a, q) && Candidate(b, q)
    ensures var recs := [Rec(a, "", 0, 0), Rec(b, "", 0, 0), Rec(a, "", 0, 0)];
            Get(Live(EMPTY, recs), q) == Some(Rec(a, "", 0, 0)) && Get(Replay(EMPTY, recs), q) == Some(Rec(b, "", 0, 0))
  {
    var ra, rb := Rec(a, "", 0, 0), Rec(b, "", 0, 0);
    var recs := [ra, rb, ra];
    LiveGet(EMPTY, recs, q);
    assert recs[..2] == [ra, rb] && [ra, rb][..1] == [ra] && [ra][..0] == [];
    assert EMPTY[Bucket(q)] == [] && Replay(EMPTY, []) == EMPTY;
    var t1 := Replay(EMPTY, [ra]);
    assert t1 == Upsert(EMPTY, ra);
    assert t1[Bucket(q)] == [ra];
    var t2 := Replay(EMPTY, [ra, rb]);
    assert t2[Bucket(q)] == [rb, ra];
    assert [rb, ra][1..] == [ra];
    assert KeyIndex([rb, ra], a) == 1;
  }

  // Replay and the live table answer a query alike, for every log over these keys, exactly
  // when at most one of the keys can answer it.
  lemma ReplayAgreesIff(keys: set<string>, q: string)
    ensures (forall recs :: KeysWithin(recs, keys) ==> Get(Replay(EMPTY, recs), q) == Get(Live(EMPTY, recs), q))
       <==> forall a, b | a in keys && b in keys && |q| <= |a| && |q| <= |b| ::
              Bucket(a) == Bucket(q) == Bucket(b) && a[..|q|] == q == b[..|q|] ==> a == b
  {
    OneCandidateMeans(keys, q);
    hide Bucket, Candidate;
    if OneCandidate(keys, q) {
      forall recs | KeysWithin(recs, keys) ensures Get(Replay(EMPTY, recs), q) == Get(Live(EMPTY, recs), q) {
        LiveGet(EMPTY, recs, q);
        ReplayGet(recs, keys, q);
      }
    } else {
      var a, b :| a in keys && b in keys && Candidate(a, q) && Candidate(b, q) && a != b;
      TwoCandidates(a, b, q);
      assert KeysWithin([Rec(a, "", 0, 0), Rec(b, "", 0, 0), Rec(a, "", 0, 0)], keys);
    }
  }

  lemma OneCandidateMeans(keys: set<string>, q: string)
    ensures OneCandidate(keys, q)
       <==> forall a, b | a in keys && b in keys && |q| <= |a| && |q| <= |b| ::
              Bucket(a) == Bucket(q) == Bucket(b) && a[..|q|] == q == b[..|q|] ==> a == b
  {
    hide Bucket;
    forall k | k in keys ensures Candidate(k, q) <==> |q| <= |k| && Bucket(k) == Bucket(q) && k[..|q|] == q {
    }
  }

  lemma {:induction false} LatestOfBoth(recs1: seq<Rec>, recs2: seq<Rec>, q: string)
    ensures Latest(recs1 + recs2, q) == if Latest(recs2, q).Some? then Latest(recs2, q) else Latest(recs1, q)
  {
    if recs2 == [] {
      assert recs1 + recs2 == recs1;
    } else {
      assert (recs1 + recs2)[..|recs1 + recs2| - 1] == recs1 + recs2[..|recs2| - 1];
      LatestOfBoth(recs1, recs2[..|recs2| - 1], q);
    }
  }

  // A server that started from a replayed log and took more SETs answers as it will after
  // replaying the longer log.
  lemma RestartAgrees(before: seq<Rec>, since: seq<Rec>, keys: set<string>, q: string)
    requires KeysWithin(before + since, keys) && OneCandidate(keys, q)
    ensures Get(Live(Replay(EMPTY, before), since), q) == Latest(before + since, q)
    ensures Get(Replay(EMPTY, before + since), q) == Latest(before + since, q)
  {
    LiveGet(Replay(EMPTY, before), since, q);
    forall i | 0 <= i < |before| ensures before[i].key in keys {
      assert before[i] == (before + since)[i];
    }
    ReplayGet(before, keys, q);
    ReplayGet(before + since, keys, q);
    LatestOfBoth(before, since, q);
  }

  // ----- Small steps -----

  lemma LatestOfOne(r: Rec, q: string)
    ensures Latest([r], q) == if Candidate(r.key, q) then Some(r) else None
  {
    assert [r][..0] == [];
  }

  lemma {:induction false} NoneLatest(recs: seq<Rec>, q: string)
    requires forall i :: 0 <= i < |recs| ==> !Candidate(recs[i].key, q)
    ensures Latest(recs, q) == None
  {
    if recs != [] {
      NoneLatest(recs[..|recs| - 1], q);
    }
  }

  lemma ReplayStep(t: Table, recs: seq<Rec>, r: Rec)
    ensures Replay(t, recs + [r]) == Upsert(Replay(t, recs), r)
  {
    assert (recs + [r])[..|recs|] == recs;
  }
}
