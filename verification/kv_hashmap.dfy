// memcache_lite/hashmap.c on the heap: an array of five chains, insertion at the front,
// lookup along a chain, and the replay loop that overwrites nodes in place.
module HashMaps {
  import opened Wrappers
  import opened Hashing
  import opened Tables
  import opened LogFiles

  class KvNode {
    const key: string
    var value: string
    var valueSize: nat
    var userSize: nat
    var next: KvNode?

    constructor (r: Rec)
      ensures Value() == r && next == null
    {
      key, value, valueSize, userSize, next := r.key, r.value, r.valueSize, r.userSize, null;
    }

    function Value(): Rec
      reads `value, `valueSize, `userSize
    {
      Rec(key, value, valueSize, userSize)
    }
  }

  ghost function Nodes(s: seq<KvNode>): set<KvNode> {
    set n | n in s
  }

  // The chain that starts at `first` visits exactly the nodes of s, each once, and ends.
  ghost predicate Chained(first: KvNode?, s: seq<KvNode>)
    reads Nodes(s)`next
  {
    && (forall i, j :: 0 <= i < j < |s| ==> s[i] != s[j])
    && first == (if s == [] then null else s[0])
    && (forall i {:trigger s[i].next} :: 0 <= i < |s| - 1 ==> s[i].next == s[i + 1])
    && (s != [] ==> s[|s| - 1].next == null)
  }

  ghost function Values(s: seq<KvNode>): (q: seq<Rec>)
    reads Nodes(s)`value, Nodes(s)`valueSize, Nodes(s)`userSize
    ensures |q| == |s|
    ensures forall i :: 0 <= i < |s| ==> q[i] == s[i].Value()
  {
    if s == [] then [] else [s[0].Value()] + Values(s[1..])
  }

  // The first position, from i on, whose key starts with q; |chain| when there is none.
  lemma {:induction false} FirstMatchAt(chain: seq<Rec>, q: string, k: nat)
    requires k <= |chain|
    requires forall j :: 0 <= j < k ==> !Matches(q, chain[j].key)
    requires k < |chain| ==> Matches(q, chain[k].key)
    ensures FirstMatch(chain, q) == if k < |chain| then Some(chain[k]) else None
  {
    if k > 0 {
      FirstMatchAt(chain[1..], q, k - 1);
    }
  }

  lemma {:induction false} KeyIndexAt(chain: seq<Rec>, key: string, k: nat)
    requires k <= |chain|
    requires forall j :: 0 <= j < k ==> chain[j].key != key
    requires k < |chain| ==> chain[k].key == key
    ensures KeyIndex(chain, key) == k
  {
    if k > 0 {
      KeyIndexAt(chain[1..], key, k - 1);
    }
  }

  // The loop of get_node.
  method WalkPrefix(first: KvNode?, key: string, ghost s: seq<KvNode>) returns (r: KvNode?, ghost k: nat)
    requires Chained(first, s)
    ensures k <= |s| && r == if k < |s| then s[k] else null
    ensures forall j :: 0 <= j < k ==> !Matches(key, s[j].key)
    ensures r != null ==> Matches(key, r.key)
  {
    r, k := first, 0;
    while r != null && !(key <= r.key)
      invariant k <= |s|
      invariant r == if k < |s| then s[k] else null
      invariant forall j :: 0 <= j < k ==> !Matches(key, s[j].key)
      decreases |s| - k
    {
      r, k := r.next, k + 1;
    }
  }

  // The search loop of init_hash_from_log, which compares whole keys.
  method WalkKey(first: KvNode?, key: string, ghost s: seq<KvNode>) returns (r: KvNode?, ghost k: nat)
    requires Chained(first, s)
    ensures k <= |s| && r == if k < |s| then s[k] else null
    ensures forall j :: 0 <= j < k ==> s[j].key != key
    ensures r != null ==> r.key == key && r in s
  {
    r, k := first, 0;
    while r != null && r.key != key
      invariant k <= |s|
      invariant r == if k < |s| then s[k] else null
      invariant forall j :: 0 <= j < k ==> s[j].key != key
      decreases |s| - k
    {
      r, k := r.next, k + 1;
    }
  }

  lemma ChainedFront(n: KvNode, s: seq<KvNode>)
    requires Chained(n.next, s) && n !in s
    ensures Chained(n, [n] + s)
  {
  }

  lemma ValuesFront(n: KvNode, s: seq<KvNode>)
    ensures Values([n] + s) == [n.Value()] + Values(s)
  {
    assert ([n] + s)[1..] == s;
  }

  class HashMap {
    const buckets: array<KvNode?>
    ghost var chains: seq<seq<KvNode>>

    // Nodes file under their own key's bucket, so chains share none.
    ghost predicate Valid()
      reads this, buckets, AllNodes()`next
    {
      && buckets.Length == TABLESIZE == |chains|
      && (forall b :: 0 <= b < TABLESIZE ==> Chained(buckets[b], chains[b]))
      && (forall b, i :: 0 <= b < TABLESIZE && 0 <= i < |chains[b]| ==> Bucket(chains[b][i].key) == b)
    }

    ghost function AllNodes(): set<KvNode>
      reads `chains
    {
      set b, n | 0 <= b < |chains| && n in chains[b] :: n
    }

    ghost function Contents(): Table
      requires |chains| == TABLESIZE
      reads `chains, AllNodes()`value, AllNodes()`valueSize, AllNodes()`userSize
    {
      [Values(chains[0]), Values(chains[1]), Values(chains[2]), Values(chains[3]), Values(chains[4])]
    }

    lemma ChainAt(b: nat)
      requires Valid() && b < TABLESIZE
      ensures Chained(buckets[b], chains[b])
    {
    }

    lemma ContentsAt()
      requires |chains| == TABLESIZE
      ensures forall b :: 0 <= b < TABLESIZE ==> Contents()[b] == Values(chains[b])
    {
    }

    constructor ()
      ensures Valid() && Contents() == EMPTY && fresh(buckets) && AllNodes() == {}
    {
      buckets := new KvNode?[TABLESIZE](_ => null);
      chains := [[], [], [], [], []];
    }

    // insert_node.
    method InsertNode(kv: KvNode?) returns (ok: bool)
      requires Valid() && (kv != null ==> kv !in AllNodes())
      modifies `chains, buckets, if kv == null then {} else {kv}
      ensures Valid()
      ensures ok <==> kv != null
      ensures kv == null ==> chains == old(chains)
      ensures kv != null ==> Contents() == Insert(old(Contents()), old(kv.Value())) && kv.Value() == old(kv.Value())
      ensures kv != null ==> AllNodes() == old(AllNodes()) + {kv}
    {
      hide Chained, Values, Bucket, Contents;
      if kv == null {
        return false;
      }
      var index := HashString(kv.key);
      ghost var was, table := chains, Contents();
      ContentsAt();
      ValuesFront(kv, was[index]);
      Link(kv, index);
      ContentsAt();
      assert Contents() == Insert(table, kv.Value()) by {
        forall b | 0 <= b < TABLESIZE ensures Contents()[b] == Insert(table, kv.Value())[b] {
          assert old(Values(was[b])) == table[b];
        }
      }
      assert AllNodes() == old(AllNodes()) + {kv} by {
        forall n | n in old(AllNodes()) + {kv} ensures n in AllNodes() {
          var b :| 0 <= b < TABLESIZE && (n in was[b] || (b == index && n == kv));
          assert n in chains[b];
        }
      }
      ok := true;
    }

    method Link(kv: KvNode, index: nat)
      requires Valid() && kv !in AllNodes() && index == Bucket(kv.key)
      modifies `chains, buckets, kv`next
      ensures Valid()
      ensures chains == old(chains)[index := [kv] + old(chains)[index]]
    {
      hide Chained, Bucket;
      ghost var s := chains[index];
      ghost var was := chains;
      assert forall b :: 0 <= b < TABLESIZE ==> kv !in Nodes(chains[b]);
      kv.next := buckets[index];
      buckets[index] := kv;
      chains := chains[index := [kv] + s];
      forall b | 0 <= b < TABLESIZE ensures Chained(buckets[b], chains[b]) {
        assert old(Chained(buckets[b], was[b]));
        if b == index {
          ChainedFront(kv, s);
        }
      }
    }

    // get_node.
    method GetNode(key: string) returns (r: KvNode?)
      requires Valid()
      ensures r == null <==> Get(Contents(), key) == None
      ensures r != null ==> r in AllNodes() && Get(Contents(), key) == Some(r.Value())
    {
      hide Values, Bucket, Contents;
      var index := HashString(key);
      ghost var k;
      r, k := WalkPrefix(buckets[index], key, chains[index]);
      assert r != null ==> r in chains[index];
      ContentsAt();
      assert Contents()[index] == Values(chains[index]);
      FirstMatchAt(Values(chains[index]), key, k);
    }

    // The body of the loop in init_hash_from_log, once a line is parsed: overwrite the
    // first node with this key, or insert a new one.
    method Load(r: Rec)
      requires Valid()
      modifies `chains, buckets, AllNodes()
      ensures Valid() && fresh(AllNodes() - old(AllNodes()))
      ensures Contents() == Upsert(old(Contents()), r)
    {
      hide Chained, Values, Bucket, Contents, KeyIndex;
      ghost var nodes := AllNodes();
      var node := new KvNode(r);
      assert node !in nodes && Valid() && AllNodes() == nodes;
      var index := HashString(r.key);
      ContentsAt();
      assert Contents()[index] == Values(chains[index]);
      ChainAt(index);
      var current; ghost var k;
      current, k := WalkKey(buckets[index], r.key, chains[index]);
      KeyIndexAt(Values(chains[index]), r.key, k);
      if current != null {
        Overwrite(current, r, index, k);
      } else {
        var ok := InsertNode(node);
      }
    }

    method Overwrite(current: KvNode, r: Rec, ghost index: nat, ghost k: nat)
      requires Valid() && index < TABLESIZE && k < |chains[index]| && chains[index][k] == current
      requires current.key == r.key
      modifies current`value, current`valueSize, current`userSize
      ensures Valid()
      ensures Contents() == old(Contents())[index := old(Contents())[index][k := r]]
    {
      hide Chained, Values, Bucket, Contents;
      ghost var table := Contents();
      ContentsAt();
      OneChain(current, index);
      current.value, current.valueSize, current.userSize := r.value, r.valueSize, r.userSize;
      ContentsAt();
      var want := table[index := table[index][k := r]];
      forall b | 0 <= b < TABLESIZE ensures Contents()[b] == want[b] {
        assert old(Values(chains[b])) == table[b];
        if b == index {
          ChainDistinct(buckets[b], chains[b]);
          assert Values(chains[b]) == want[b];
        }
      }
    }

    // init_hash_from_log: fgets hands over line by line, sscanf decides what a line is.
    // `buffer` is what the value buffer holds at the start.
    method InitFromLog(file: string, buffer: string)
      requires Valid()
      modifies `chains, buckets, AllNodes()
      ensures Valid()
      ensures Contents() == Replay(old(Contents()), Restored(file, buffer))
    {
      hide Chained, Values, Upsert, Contents, ScanLine, Lines, LoadedLine, BufferLine, LoadedLines, BufferAfter;
      ghost var start, was := Contents(), AllNodes();
      var rest, value := file, buffer;
      ghost var read: seq<string> := [];
      assert Replay(start, LoadedLines([], buffer)) == start && BufferAfter([], buffer) == buffer by { EmptyRead(start, buffer); }
      while rest != []
        invariant Valid() && fresh(AllNodes() - was)
        invariant Lines(file) == read + Lines(rest)
        invariant Contents() == Replay(start, LoadedLines(read, buffer)) && value == BufferAfter(read, buffer)
        decreases |rest|
      {
        var line := FirstLine(rest, LINE);
        LinesUnfold(rest);
        ReadStep(read, line, buffer);
        value := ScanInto(line, value, start, LoadedLines(read, buffer));
        read, rest := read + [line], rest[|line|..];
      }
      assert Lines([]) == [] by { EmptyText(); }
      assert Lines(file) == read;
    }

    // One round of the loop.
    method ScanInto(line: string, value: string, ghost start: Table, ghost recs: seq<Rec>) returns (value': string)
      requires Valid() && Contents() == Replay(start, recs)
      modifies `chains, buckets, AllNodes()
      ensures Valid() && fresh(AllNodes() - old(AllNodes()))
      ensures Contents() == Replay(start, recs + LoadedLine(line, value)) && value' == BufferLine(line, value)
    {
      hide Chained, Values, Upsert, Contents, ScanLine, Replay;
      value' := value;
      match ScanLine(line) {
        case ThreeFields(key, userSize, valueSize) =>
          if valueSize < LINE_VALUE {
            var r := Rec(key, Cut(value, valueSize), valueSize, userSize);
            ReplayStep(start, recs, r);
            Load(r);
          } else {
            assert recs + [] == recs;
          }
        case FourFields(word) =>
          value' := word;
          assert recs + [] == recs;
        case NoMatch =>
          assert recs + [] == recs;
      }
    }

    lemma EmptyRead(start: Table, buffer: string)
      ensures Replay(start, LoadedLines([], buffer)) == start && BufferAfter([], buffer) == buffer
    {
    }

    // A node sits in one chain only: its key says which.
    lemma OneChain(n: KvNode, index: nat)
      requires Valid() && index < TABLESIZE && n in chains[index]
      ensures forall b :: 0 <= b < TABLESIZE && b != index ==> n !in Nodes(chains[b])
    {
    }
  }

  lemma ChainDistinct(first: KvNode?, s: seq<KvNode>)
    requires Chained(first, s)
    ensures forall i, j :: 0 <= i < j < |s| ==> s[i] != s[j]
  {
  }
}
