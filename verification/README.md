# Verified models of the broadcast middleware and the key-value server

Two programs are modelled, each at the level of its data structures and at the level of its whole runs.

**Totally ordered broadcast** (`TOB/`). A set of processes, each single-threaded, each with a Lamport clock and a linked
queue ordered by (timestamp ascending, pid descending), exchange BROAD, ACK and READY messages; an issuer whose message
has been acked by everyone writes it to the shared log.

| file | subject |
|---|---|
| `tob_uid.dfy` | the 32-bit message identifier |
| `tob_queue_spec.dfy`, `tob_queue.dfy` | what the queue operations compute, on sequences; the linked queue on the heap, sorted by relinking, proved to compute exactly that, for the code as written |
| `tob_steps.dfy`, `tob_process.dfy` | the four handlers as functions of one process; the class that updates clock and queue in place, proved to compute them |
| `tob_system.dfy` | the global state machine: processes, a bag of messages in flight, the log; any interleaving is a run |
| `tob_invariant.dfy`, `tob_preserve.dfy` | the inductive invariant and its preservation by every step |
| `tob_theorems.dfy`, `tob_examples.dfy` | what holds in every run, and five runs that show what does not |
| `tob_inversion.dfy` | exactly when two messages can be written against their order |
| `tob_wire.dfy`, `decimal.dfy`, `buffers.dfy`, `words.dfy` | the bytes of BROAD, ACK and READY, printed, dispatched and read back |

**Persistent key-value server** (`memcache_lite/`). Connection workers parse requests, hash workers execute them against a
chained table under a mutex and append every SET to a log, from which the table is rebuilt at start-up.

| file | subject |
|---|---|
| `kv_hash.dfy`, `kv_table.dfy` | the hash; the table as chains of records, live and replayed |
| `kv_log.dfy` | the log as text: the line of a SET, `fgets` and `sscanf` over the whole file, what is restored |
| `kv_hashmap.dfy` | the heap table and the start-up loop, proved against both |
| `kv_queue.dfy`, `kv_pool.dfy` | the two FIFO work queues; worker pools with a condition variable |
| `kv_server.dfy` | hash workers interleaving at will: linearizability, the log at every crash point, recovery |
| `kv_messages.dfy` | client encoders, the server's staged reads, the reply, the round trip |

## How the code and its promises differ

The model does what the code does. Where that is not what a comment or the documentation says, the code is kept and the
exact effect is stated.

- **Order of delivery.** The comment at the head of `TOB/client_handle.c` promises delivery only at the head of the queue.
  `handle_ready` removes by uid wherever the node stands, and the log is written by the issuer when its count is complete
  (lines 204-215). An issuer does not enqueue its own message when it issues it, so it can ack a later message first.
  `OnlyInversion` and `OnlyWrittenInversion` say what any departure from the order takes: every process acked the later
  message before it handled the earlier one, its issuer included. So the log is in strict order as soon as for every two
  messages some process waits (`TotalOrder`). `InversionIff` is the exact condition for two given messages: when nobody
  waited, delivering the ACKs that are under way is enough to write the later one alone. `InversionHappens` is a run of two processes without anyone waiting. The assumption
  on the network that makes the issuer the process that waits (`OrderedDelivery`) is that a process gets its own BROADs
  back in the order of issue, and before any other process's BROAD that it handles after the ISSUE; that own BROADs come
  first is not enough when they overtake one another (`OvertakingHappens`).
- **The tail of an emptied queue.** `dequeue` leaves `tail` pointing at the freed node when it removes the only node, which is then the head
  (`TOB/queue.c:113-118`). Nodes enqueued after that hang behind the freed one and are never found. `Config.resets` is false
  for the code as written and true for the queue with the reset; every theorem about runs holds for both, so the intended queue
  semantics is covered too. `StaleStarts`
  says exactly when a process gets into this state, `StaleForever` that it does not get out, `StaleStopsDelivery` that from
  then on nothing is written that this process had not already acked, `StaleStopsIssued` that nothing issued afterwards is, and `StaleHappens` that one message is enough.
- **Messages that are lost.** An ACK that reaches the issuer before its own BROAD is dropped (`AckDroppedIff`), its message
  is never written (`DroppedNeverWritten`), and `DropHappens` is such a run. After READY nobody acks the new head:
  `Stalls` is a run of one process and two messages, with the tail reset as well as without, that ends with nothing in
  flight and the second message queued and never acked. Eventual delivery is therefore false; `QuiescentIff` says exactly
  what has been written once nothing is in flight: what everyone has acked without any ACK dropped.
- **Identifiers.** The uid has room for twelve bits of clock and twenty of pid. Runs are taken while clocks stay below
  4096 and pids are distinct and below 2^20, the values for which uids are unique (`UidRecoversBothHalves`,
  `UidInjective`); `UidCollision` is what happens past that. The four-digit timestamp field would last until 9999.
- **Bytes of a BROAD.** The comment calls the uid zero-padded; it is padded with blanks. 40 + L bytes are sent of the
  47 + L encoded, so the last five bytes of every message are lost, and a message of fewer than five bytes does not even
  carry its metadata (`SentRoundTrip`).
- **Lookup.** `get_node` compares over the length of the query, so it finds the newest node whose key the query starts.
  `LiveIsMapIff` and `ReplayAgreesIff` give the exact conditions under which the live table is a map and replay agrees with it.
- **Values in the log.** A logged value starts with CR LF, which ends the line for `fgets` and the fields for `sscanf`; the
  replay condition accepts exactly the three-field match. So a value is never read from its own line: the record gets
  what the value buffer holds, its initial content (the parameter `buffer`) or the fourth word of some earlier line, and
  unless that buffer happened to start with CR no value sent by the client comes back (`ValuesDoNotComeBack`). The further
  lines of a value are scanned like any other, and one of the shape `SET word number number` is replayed as a record
  (`ValueReplayedAsRecord`: `set k 20 hello`, then `set x 20 "SET k 7 3"`). `LogLoadsIff` says for which records a log
  loads record by record, `QueryLoadsIff` for which one query finds the right key and sizes. `Harmless`, that no line of a
  value loads for the query, suffices for that where the records are kept (`HarmlessAnswers`), and with it key and sizes of a stored record survive a restart
  (`StoredSizesSurvive`, `CleanStoredSurvives`), and its value exactly when the buffer holds it (`StoredSurvives`, `FaithfulLoadIff`).
- **Bodies.** A body is accepted exactly when enough arrives and no `recv` returns with `actual_size` or `actual_size + 1`
  bytes read; an empty value is always refused (`EmptyRefused`), and a connection that falls silent or closes early keeps
  its worker for ever (`ParseBody`), as every SET with a key of more than eight bytes and a value does (`LongKeyStuck`).
  Such a worker takes nothing any more: a queued item can be taken exactly until all workers hang (`OldestCanBeTakenIff`),
  although no wakeup is lost (`NoLostWakeup`).
- **Empty keys.** For a GET without a key `parse_header_get` returns null (`ReadGet` is None), which `handle_client` hands to
  `create_node` and that to `strdup`: the server dies. `GetArrivesIff` says which keys are read.
- **Sizes of buffers.** The client's buffer holds a SET exactly for keys of at most three bytes (`SetFitsIff`), a GET for
  keys of at most five, terminator included. Both send the size of the buffer, not of the message: a SET with a key of
  more than six bytes is never stored (`SetServed`), a GET with one of more than eight never read (`GetArrivesIff`). The documentation's port, data file and crash recovery of the broadcast do
  not occur in the code.

## Model

| member | source | states |
|---|---|---|
| Uid.UidRecoversBothHalves | TOB/client_handle.c:76-80 | a uid is a 32-bit word, and its quotient and remainder by 4096 give back pid and clock if and only if the pid is below 2^20 and the clock below 4096 |
| Uid.UidInjective | TOB/client_handle.c:76-80 | within those widths equal uids mean equal pid and equal clock |
| Uid.UidCollision | TOB/client_handle.c:76-80 | past clock 4095 an odd pid gets a uid it has used before |
| QueueSpec.SortSorted | TOB/queue.c:76-88 | after sorting every entry has a smaller timestamp than each later one, or the same timestamp and a pid at least as large |
| QueueSpec.SortPermutes | TOB/queue.c:65-105 | sorting neither loses, adds nor changes an entry |
| QueueSpec.SortStable | TOB/queue.c:76-94 | entries with equal timestamp and pid keep their arrival order |
| QueueSpec.SortOfSorted | TOB/queue.c:65-105 | a sorted queue is left as it is |
| QueueSpec.SameMessagesSameOrder | TOB/queue.c:65-105 | two strictly ordered queues with the same messages list them in the same order, whatever the arrival orders |
| NodeQueues.FindSlot | TOB/queue.c:84-89 | the inner loop stops at the node right in front of the first one that comes strictly after the message |
| NodeQueues.SortNodes | TOB/queue.c:69-95 | relinking in place ends in an acyclic list of the very same nodes whose entries are the sorted entries |
| NodeQueues.NodeQueue.constructor | TOB/queue.c:7-8 | the queue starts empty with no tail |
| NodeQueues.NodeQueue.Enqueue | TOB/queue.c:33-41 | the new node becomes the last; through a stale tail it becomes unreachable and the queue stays empty |
| NodeQueues.NodeQueue.FindNode | TOB/queue.c:52-61 | the first queued node with the uid, null when there is none |
| NodeQueues.NodeQueue.OrderQueue | TOB/queue.c:65-105 | the contents become the sorted contents on the same nodes, by timestamp and then by falling pid, and tail is the last node |
| NodeQueues.NodeQueue.Dequeue | TOB/queue.c:108-136 | exactly the first node with the uid leaves, the rest keep their order, tail stays the last node, and the tail is stale afterwards if and only if it was before or the head was the only node and was removed |
| Processes.Process.constructor | TOB/server.c:143-165 | a process starts with clock 0 and an empty queue |
| Handlers.TerminatedText | TOB/client_handle.c:454-458 | an issued body is the text received, ends in NUL, and is one longer exactly when the text did not end in one |
| Processes.Process.HandleIssue | TOB/client_handle.c:427-470 | two clock ticks, uid from the first and timestamp from the second, a BROAD to every process, nothing queued locally |
| Processes.Process.HandleBroadcast | TOB/client_handle.c:472-563 | the clock ticks and catches up with the message, the message is queued and the queue sorted, an unacked head is acked |
| Processes.Process.CheckAndAckHead | TOB/client_handle.c:117-126 | the queue is sorted, and one ACK goes to the head's issuer if the head had none yet |
| Processes.Process.HandleAck | TOB/client_handle.c:186-222 | only the named entry's count rises; the ACK that completes it sends READY to all and writes that message; an unknown uid changes nothing |
| Processes.Process.HandleReady | TOB/client_handle.c:224-243 | the named message leaves the queue wherever it stands; clock and log do not change |
| Preservation.IssueKeepsInv | TOB/client_handle.c:427-470 | issuing keeps the global invariant: the new message is not in use anywhere and its key is new |
| Preservation.BroadKeepsInv | TOB/client_handle.c:472-563 | handling a BROAD keeps the global invariant: strict order of the queue, one ACK per process and message, the balance of ACKs |
| Preservation.AckKeepsInv | TOB/client_handle.c:186-222 | handling an ACK keeps the global invariant: counted, dropped and travelling ACKs add up to the processes that acked, and the log holds exactly the fully counted messages |
| Preservation.ReadyKeepsInv | TOB/client_handle.c:224-243 | handling a READY keeps the global invariant: a READY travels exactly to the processes that still queue a written message |
| Preservation.RunInv | TOB/server.c:143-165 | the invariant holds after every run, for any number of processes and any interleaving of handlers |
| BroadcastTheorems.AckedAsHead | TOB/client_handle.c:117-126 | whoever has acked a message did so in one BROAD step after which that message headed its strictly sorted queue |
| BroadcastTheorems.WrittenMeansAckedByAll | TOB/client_handle.c:202-218 | although ACKs name no acker: a written message has been handled by every process and acked by each at the head of its queue, with no ACK for it dropped or still travelling |
| BroadcastTheorems.WrittenIffCounted | TOB/client_handle.c:204-215 | a message is written if and only if its issuer has counted as many ACKs as there are processes, and it never counts more |
| BroadcastTheorems.WrittenOnceAndRemovable | TOB/client_handle.c:235-237 | nothing is written twice, and a READY on its way finds exactly one queued node, acked and written |
| BroadcastTheorems.ClocksPassWritten | TOB/client_handle.c:538-547 | once a message is written no clock is behind its timestamp |
| BroadcastTheorems.IssueRaisesClock | TOB/client_handle.c:427-428 | a message is stamped at least two later than everything its issuer had handled or issued |
| BroadcastTheorems.CausalChain | TOB/client_handle.c:302-303 | a chain of n causal links raises the timestamp by at least 2n |
| BroadcastTheorems.IssuedLaterIsAfter | TOB/client_handle.c:374-375 | whatever is issued anywhere after a message was written is ordered strictly after it |
| BroadcastTheorems.AckedAfterOwn | TOB/client_handle.c:464-467 | a process that acked b has seen its own earlier-ordered messages written, unless it acked b while one of its own had not come back |
| BroadcastTheorems.OnlyInversion | TOB/client_handle.c:315-364 | with no network assumption: if b is written and an earlier-ordered a is not, every process acked b before it handled a, and a's issuer did so after issuing a |
| BroadcastTheorems.OnlyWrittenInversion | TOB/client_handle.c:204-215 | two messages stand in the log against their order only if every process acked the later-ordered one before it handled the other |
| BroadcastTheorems.TotalOrder | TOB/client_handle.c:9-21 | if for every two messages some process handles the one with the smaller timestamp, or the same and the larger pid, before it acks the other, the log is strictly increasing in that order and complete: everything ordered before a written message has been written |
| Inversions.CountAll | TOB/client_handle.c:202-218 | once everyone has acked a message and no ACK was dropped, delivering its ACKs alone writes it, and writes nothing else |
| Inversions.InversionIff | TOB/client_handle.c:186-222 | for two issued messages, no ACK of the later-ordered one dropped and its issuer's clock below its limit: some prefix of the run, followed by ACKs for that one only, writes it without the earlier-ordered one if and only if every process acked it before handling the other; without those two conditions, only if |
| BroadcastTheorems.SelfDeliveryNeverBlind | TOB/client_handle.c:315-335 | under the self-delivery assumption no process acks a message while an earlier-ordered one of its own has not come back |
| BroadcastTheorems.OrderedDelivery | TOB/client_handle.c:9-21 | under the self-delivery assumption every run writes messages in strictly increasing (timestamp, larger pid first) order and skips none |
| BroadcastTheorems.KeysUnique | TOB/client_handle.c:457-463 | in every run uid and (timestamp, pid) each name one message, the timestamp is the uid's clock plus 1, and any two messages are ordered |
| BroadcastTheorems.QueuesAgree | TOB/client_handle.c:547-555 | in every run two processes that queue the same messages queue them in the same order |
| BroadcastTheorems.MessagesArrive | TOB/client_handle.c:478-534 | every message issued in a run is read back from its bytes: all fields and the whole message from the encoding, all but its last five bytes from what is sent |
| BroadcastTheorems.AckDroppedIff | TOB/client_handle.c:203-218 | at an issuer whose tail is sound, an ACK is dropped if and only if the issuer has not handled its own BROAD, and counted otherwise |
| BroadcastTheorems.DroppedNeverWritten | TOB/client_handle.c:216-218 | once one ACK for a message was dropped the message is never written |
| BroadcastTheorems.QuiescentIff | TOB/client_handle.c:186-222 | when no message is in flight, an issued message has been written if and only if every process has acked it and none of its ACKs was dropped |
| BroadcastTheorems.StaleStarts | TOB/queue.c:113-118 | a tail goes stale exactly when a READY is handled while one node is queued and dequeue does not reset the tail |
| BroadcastTheorems.StaleForever | TOB/queue.c:33-41 | a process with a stale tail keeps it and never acks again |
| BroadcastTheorems.StaleStopsDelivery | TOB/queue.c:113-118 | from then on no process writes a message that the stale one had not acked |
| BroadcastTheorems.StaleStopsIssued | TOB/queue.c:113-118 | so no message issued from then on, by any process, is ever written |
| BroadcastExamples.InversionHappens | TOB/client_handle.c:464-467 | a run of two processes, with or without the tail reset, that writes two messages against their order, both long enough for their metadata to be sent |
| BroadcastExamples.OvertakingHappens | TOB/client_handle.c:315-335 | a run of one process in which own BROADs come before all others and two messages are still written against their order, because they overtake one another |
| BroadcastExamples.Stalls | TOB/client_handle.c:224-243 | a run of one process, with or without the tail reset, that writes its first message and ends with nothing in flight and the second queued and unacked |
| BroadcastExamples.DropHappens | TOB/client_handle.c:216-218 | a run of two processes that ends with nothing in flight, the message acked by both, one ACK dropped and nothing written |
| BroadcastExamples.StaleHappens | TOB/queue.c:113-118 | a run of one process and one message that ends with a stale tail |
| BroadWire.EncodeBroadcastBuffer | TOB/client_handle.c:251-300 | header, five fixed-width fields, message, CR LF and a terminator, in this order, eight bytes further than the 40 + L allocated and nothing beyond |
| BroadWire.Layout | TOB/client_handle.c:247-300 | BROAD CR LF, then uid in 12 characters padded with blanks, pid in 8, port 10000 + index in 8, timestamp in 4 and length in 6 padded with zeros, then the message and CR LF |
| BroadWire.BroadReachesHandler | TOB/client_handle.c:580-591 | a BROAD, whole or as sent, is dispatched to handle_broadcast and to no other handler |
| BroadWire.AckArrives | TOB/client_handle.c:154-156 | an ACK is dispatched to handle_ack, which reads back its pid and uid |
| BroadWire.ReadyArrives | TOB/client_handle.c:406-408 | a READY is dispatched to handle_ready, which reads back its uid |
| BroadWire.FieldsArrive | TOB/client_handle.c:478-527 | whatever follows the metadata, the receiver reads all five fields right if and only if each number fits its field |
| BroadWire.EncodedRoundTrip | TOB/client_handle.c:251-300 | decoding all encoded bytes gives the message back |
| BroadWire.SentRoundTrip | TOB/client_handle.c:338-354 | the bytes sent hold the metadata if and only if the message has five bytes or more, and then its first L - 5 bytes |
| Decimal.FieldReadsBack | TOB/client_handle.c:262-289 | a printed field of width w is read back as its number if and only if the number has at most w digits |
| Hashing.HashString | memcache_lite/hashmap.c:19-25 | the loop computes the bucket of the key |
| Hashing.BucketClosedForm | memcache_lite/hashmap.c:19-25 | the bucket is (5381 * 32^n + sum of c_i * 32^(n-1-i)) mod 2^32 mod 5 |
| Hashing.SignedByte | memcache_lite/hashmap.c:22 | a byte from 128 on counts as that byte minus 256 |
| Hashing.LastSevenDecide | memcache_lite/hashmap.c:19-25 | keys of at least seven characters with the same last seven share a bucket |
| Hashing.SixDoNotDecide | memcache_lite/hashmap.c:19-25 | seven is the least such number |
| Tables.GetIs | memcache_lite/hashmap.c:52-66 | a lookup finds the first record in the chain of the query's bucket whose key has the query as its first bytes, nothing if there is none |
| Tables.LatestIs | memcache_lite/hashmap.c:60-61 | the record a query is due is the last of the sequence in its bucket whose key has the query as its first bytes |
| Tables.LiveGet | memcache_lite/hashmap.c:42-66 | after any SETs a lookup finds that one among the records inserted, else what the table held before |
| Tables.LiveIsMapIff | memcache_lite/hashmap.c:52-66 | for a query the live table is a last-write-wins map, whatever SETs of the given keys came before, if and only if no longer one of them in the query's bucket has the query as its first bytes |
| Tables.ReplayShape | memcache_lite/server_mt.c:365-382 | replay stores no key twice and every record in its bucket |
| Tables.ReplayGet | memcache_lite/server_mt.c:365-382 | with one candidate key the replayed table answers with the latest record |
| Tables.ReplayAgreesIff | memcache_lite/server_mt.c:365-382 | replayed and live tables answer a query alike, for every log over the keys, if and only if at most one key in the query's bucket has the query as its first bytes |
| Tables.RestartAgrees | memcache_lite/server_mt.c:341-387 | a server restarted from its log that takes more SETs answers as one that replays the longer log |
| LogFiles.FirstLineOf | memcache_lite/server_mt.c:149-150 | a logged record's first line is its header and the beginning of its value, the rest of the value makes further lines |
| LogFiles.LongLineCut | memcache_lite/server_mt.c:348-353 | of a line of 149 characters or more the first 149 are read as a line of their own |
| LogFiles.ScansSizes | memcache_lite/server_mt.c:354 | a number of 2^64 or more is read as 2^64 - 1, a negative one wraps around |
| LogFiles.ScansFields | memcache_lite/server_mt.c:354 | SET, a word and two numbers match three fields when only blanks follow and four otherwise |
| LogFiles.ScansGlued | memcache_lite/server_mt.c:354 | the blank behind SET may be missing |
| LogFiles.FirstLineScans | memcache_lite/server_mt.c:354 | that line matches three fields, the record's own, if its value starts with a blank line, and four, which is ignored, if not |
| LogFiles.RecordLoadsIff | memcache_lite/server_mt.c:353-384 | a record loads as itself, whatever the value buffer holds, if and only if (unless it is too large) its value starts with a blank line and no further line of it loads |
| LogFiles.LogLoadsIff | memcache_lite/server_mt.c:341-387 | every log over some records loads record by record if and only if each of them does |
| LogFiles.QueryLoadsIff | memcache_lite/server_mt.c:353-384 | after loading any log over some records a query finds the key and sizes of the latest that is not too large, if and only if the last line of each record that loads for the query carries the record's own |
| LogFiles.ClientRecord | memcache_lite/server_mt.c:149-150 | the record of a client's SET is kept if and only if the value has fewer than 698 bytes, and its further lines are the lines of the value as typed |
| LogFiles.ValueReplayedAsRecord | memcache_lite/server_mt.c:353-384 | a log of two SETs after which a restarted server gives the first key sizes that no SET of it had |
| LogFiles.RestoredLatest | memcache_lite/server_mt.c:353-384 | if no line of a value loads a record for the query, it finds after loading the last kept record of the log that it can find, with the value buffer's content as value |
| LogFiles.LoadKeepsSizes | memcache_lite/server_mt.c:354-364 | under that condition key and sizes survive loading, whatever the value buffer holds |
| LogFiles.LoadIgnoresValues | memcache_lite/server_mt.c:354 | logs of records none of whose further lines matches, which differ in values only, load the same |
| LogFiles.FaithfulIff | memcache_lite/server_mt.c:354-364 | a record's value comes back if and only if value_size is below 700 and the value buffer starts with the value |
| LogFiles.FaithfulLoadIff | memcache_lite/server_mt.c:341-387 | a log of records that load as themselves comes back whole if and only if that holds for each when its line is read |
| LogFiles.ValuesDoNotComeBack | memcache_lite/server_mt.c:350-360 | from no file is a value restored that starts with CR, unless the value buffer started with one before |
| HashMaps.HashMap.InsertNode | memcache_lite/hashmap.c:42-50 | the node goes in front of its bucket's chain and no other chain changes; a null node is refused |
| HashMaps.HashMap.GetNode | memcache_lite/hashmap.c:52-66 | the node returned is the first match of the table contents, null exactly when there is none |
| HashMaps.HashMap.Load | memcache_lite/server_mt.c:360-382 | one record of the log overwrites the first node with exactly its key or is inserted in front |
| HashMaps.HashMap.InitFromLog | memcache_lite/server_mt.c:341-387 | the loop over the lines of the file leaves the replay of exactly the restored records on the heap |
| WorkQueues.WorkQueue.Enqueue | memcache_lite/threadqueue.c:7-18 | the item becomes the last |
| WorkQueues.WorkQueue.Dequeue | memcache_lite/threadqueue.c:20-34 | the oldest item leaves, none from an empty queue, and an emptied queue has no tail |
| WorkerPools.StepKeeps | memcache_lite/server_mt.c:67-98 | every step of worker or producer, spurious wakeups and handlers that hang included, keeps exactly-once FIFO hand-off, and while some worker sleeps each queued item has a worker of its own about to look |
| WorkerPools.PoolSafe | memcache_lite/server_mt.c:485-488 | in every run what was taken, each item by one worker, followed by what is queued, is what was added |
| WorkerPools.NoLostWakeup | memcache_lite/server_mt.c:67-98 | no lost wakeup: while an item is queued and some worker is not handling another, asleep or not, one step of one worker takes the oldest, with no signal and no handler returning |
| WorkerPools.IdleWakeup | memcache_lite/server_mt.c:67-98 | a worker woken with nothing queued takes nothing and is back waiting with the pool as it was |
| WorkerPools.OldestCanBeTakenIff | memcache_lite/server_mt.c:67-98 | a queued item is taken in some continuation of the run if and only if not every worker hangs in its handler |
| Server.TableOnlyGrows | memcache_lite/server_mt.c:124-141 | from any point of a run on, no allocated node is changed or freed and every chain of the live table keeps its nodes in order, with new ones only in front |
| Server.StepKeepsInv | memcache_lite/server_mt.c:116-161 | every step keeps: table is the insert history, log is that history plus at most one record, every pending answer is the sequential one, every request is in one place |
| Server.Linearizable | memcache_lite/server_mt.c:116-161 | in every run every reply, though built after unlock, is that of a sequential store executing operations in mutex order; each request is executed at most once, and each executed operation has exactly one reply or one worker about to send it |
| Server.RealTimeOrder | memcache_lite/server_mt.c:67-98 | an operation answered before another arrives precedes it in that order |
| Server.TakenInOrder | memcache_lite/server_mt.c:80-97 | in every run the requests taken by workers, followed by those pending, are those that arrived, in the same order |
| Server.Exclusive | memcache_lite/server_mt.c:129-151 | while one worker is between appending to the log and inserting, no other looks up, appends or inserts |
| Server.GetAnswersLatest | memcache_lite/server_mt.c:124-141 | on a server started from a log, a get answers the latest record restored from that log or set since that its query can find |
| Server.LogAtCrash | memcache_lite/server_mt.c:147-151 | at every point of every run the log is the insert history or that plus the record of the one worker between logging and inserting |
| Server.StoredIsLogged | memcache_lite/server_mt.c:147-159 | every SET answered STORED is in the log |
| Server.StoredSurvives | memcache_lite/server_mt.c:341-387 | after a crash anywhere, replay answers the key of a STORED record that the log keeps with that record or a later one for the key, when the value buffer holds the values of the kept records of this key |
| Server.StoredSizesSurvive | memcache_lite/server_mt.c:353-384 | without that: the key and sizes of the record or of a later one for the key survive, with the value buffer's content as value, so the value is right if and only if the buffer held it |
| Server.CleanStoredSurvives | memcache_lite/server_mt.c:341-387 | the same in the log's own terms: keys of one word and values none of whose further lines loads |
| Server.RecoveryAgrees | memcache_lite/server_mt.c:341-387 | for a query with one candidate key whose records are kept, the restarted server has the key and sizes that the crashed one would have answered, or would have with the one logged record inserted, and the same record when the value buffer held the values |
| Messages.EncodeSet | memcache_lite/client.c:57-79 | operation, three padded sizes, key, value and terminator, in this order, and nothing beyond |
| Messages.ClientSet | memcache_lite/client.c:147-177 | the client sends 41 + L bytes: the message, cut off there or filled up with zeros |
| Messages.ClientGet | memcache_lite/client.c:128-146 | the client sends 13 bytes: operation, key and CR LF, cut off there or filled up with zeros |
| Messages.SetFitsIff | memcache_lite/client.c:168-175 | a SET fits its buffer if and only if the key has at most three bytes |
| Messages.HeaderLayout | memcache_lite/client.c:57-79 | behind "set" and CR LF stand the announced size, the value's and the key's, in 8, 8 and 6 characters, each followed by CR LF |
| Messages.SetLayout | memcache_lite/client.c:71-77 | behind those 33 bytes stand the key, CR LF, the value and CR LF |
| Messages.HeaderParses | memcache_lite/server_mt.c:177-206 | the 28 header bytes parse to the three sizes that were printed |
| Messages.ParseBody | memcache_lite/server_mt.c:209-229 | for any way the connection cuts the bytes: endless if fewer than actual_size arrive, partial if and only if a cut falls before or inside the last two bytes, else exactly the next actual_size + 2 bytes |
| Messages.ServeSet | memcache_lite/server_mt.c:252-296 | a SET is queued, refused or keeps its worker, as its header and body decide |
| Messages.HandleClient | memcache_lite/server_mt.c:231-323 | a connection that starts with "set" CR LF goes through the set branch, any other that sends something through the get branch |
| Messages.SetServed | memcache_lite/server_mt.c:252-296 | the client's SET bytes take the set branch, which makes of them exactly the record meant, if and only if the body is neither cut at its last two bytes nor incomplete, which takes a key of at most six bytes |
| Messages.EmptyRefused | memcache_lite/server_mt.c:209-229 | a SET of an empty value is refused, however its bytes arrive |
| Messages.LongKeyStuck | memcache_lite/server_mt.c:209-229 | a SET of a value under a key of more than eight bytes keeps its worker for ever, however its bytes arrive |
| Messages.SetArrives | memcache_lite/server_mt.c:252-296 | of the client's bytes the server reads the sizes exactly, and the key and a body of CR LF and the value if the key has at most six bytes |
| Messages.RawSetRead | memcache_lite/server_mt.c:252-290 | of any bytes in the set format, whoever sent them, the server reads the sizes, the key up to its first NUL and the rest |
| Messages.StoredUpToNul | memcache_lite/hashmap.c:33-35 | a stored value ends at its first NUL, and value_size is what is left |
| Messages.GetArrivesIff | memcache_lite/server_mt.c:298-307 | the client's GET bytes take the get branch, and the key is read back there if and only if it has one to eight bytes and holds no CR, LF or NUL |
| Messages.LongGetCut | memcache_lite/server_mt.c:299 | of a longer key in a GET the first twelve bytes are taken |
| Messages.SendMessageFormat | memcache_lite/server_mt.c:100-114 | the reply is VALUE, key, user_size, the stored value and END, cut short when user_size has more than thirteen digits, and stops after the value when value_size exceeds the text, as it can for restored records |
| Messages.ReplyCut | memcache_lite/server_mt.c:106-112 | the closing line is whole up to thirteen digits of user_size and loses one character for each digit more; a value_size beyond the text loses all of it |
| Messages.SetThenGet | memcache_lite/server_mt.c:100-114 | for every chunking, a set is queued exactly when its body is accepted, never for an empty value, and then a get finds it on top of any table and is answered "VALUE key size", CR LF, the value, CR LF, END, CR LF, within the buffer of the reply |

## Left out

- Sockets, accept loops, getaddrinfo, fork, port files and both mains: plumbing; what is kept is that the middleware handles one connection at a time.
- `TOB/ack_handle.c`: an earlier networking-only version of `send_p2p_ack`.
- `send_buffer` and `recv_buffer` (`TOB/client_handle.c:83-115`): channels deliver whole messages; after a partial transfer the code continues at the size of the last chunk, not at the total.
- Eventual delivery of broadcasts: false of the code (`BroadcastExamples.Stalls`, `BroadcastExamples.DropHappens`, `BroadcastExamples.StaleHappens`); there is no scheduler and no fairness in the model, `BroadcastTheorems.QuiescentIff` is about runs that have come to rest.
- The write through a freed tail: what it does to other memory is not modelled, only that the node is not reachable from head.
- The queue with the tail reset exists at the level of runs only (`Config.resets`); the heap class is the code as written.
- The prefix of an ISSUE: its text arrives as sent. ACK and READY arrive as sent in the protocol model; their texts are in `BroadWire.AckArrives` and `BroadWire.ReadyArrives`. Queues and log hold the body of a message whole, its terminator included; what is lost of it on the wire is stated by `BroadWire.SentRoundTrip`.
- Signs in the `strtoul` and `atoi` of message headers: those fields are printed from unsigned or non-negative numbers.
- Failed connects, sends, receives and allocations, errno, `delete_node`, printing and random delays.
- Appending and flushing one log record is atomic; a torn write is not modelled.
- A word of 50 or more characters in a log line overflows the key buffer of `init_hash_from_log`; what it destroys is not modelled, and the theorems about records ask for keys of one word below 50 characters (`Loggable`) where the first line has to scan.
- The server's state machine keeps chains as sequences of node ids; the pointers are in `HashMaps`.
- Values beyond 32 bits in `parse_body`'s int parameter and integer overflow of size_t.
- BroadWire.EncodeBroadcastBuffer: requires that the memory it writes exists, 48 + L bytes from the allocated address on; `total_broadcast` allocates 40 + L of them, and what the other eight destroy is not modelled.
- Messages.ClientSet: requires that the memory written exists; what a key of more than three bytes overwrites behind the 41 + L bytes allocated is not modelled.
- Messages.ClientGet: requires the same; what a key of more than five bytes overwrites behind the 13 bytes allocated is not modelled.
- Messages.ServeSet: the reads of operation, header and key return what they ask for or all that is there; cuts of the connection are modelled for the body.
- Messages.SendMessageFormat: requires a user_size of at most twenty digits, which size_t has, and that the memory it copies behind a short value (`beyond`) and writes behind its buffer exists; what the writes destroy is not modelled.
- Tables.RestartAgrees: one direction only for a restarted server; `Tables.ReplayAgreesIff` has both for a server that starts empty.
